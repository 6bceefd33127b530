/**
  The def/use graph of prog/prog.go and prog/clone.go on the heap.  Result arguments are
  objects whose `res` and `uses` fields are edited in place; the rest of an argument tree
  is a value that holds references to them.
 */
module ArgGraph {
  import opened Ir

  class ResultArg {
    var typ: Type
    var res: ResultArg?      // the result this argument refers to
    var opDiv: U64
    var opAdd: U64
    var val: U64
    var uses: set<ResultArg> // the arguments that refer to this one

    constructor (typ: Type, val: U64)
      ensures this.typ == typ && res == null && opDiv == 0 && opAdd == 0 && this.val == val && uses == {}
    {
      this.typ, this.res, this.opDiv, this.opAdd, this.val, this.uses := typ, null, 0, 0, val, {};
    }

    ghost function Now(): Fields
      reads this
    {
      Fields(typ, res, opDiv, opAdd, val, uses)
    }
  }

  /** The contents of a result argument. */
  datatype Fields = Fields(typ: Type, res: ResultArg?, opDiv: U64, opAdd: U64, val: U64, uses: set<ResultArg>)

  datatype ArgNode =
    | ConstNode(typ: Type, val: U64)
    | PointerNode(typ: Type, address: U64, vmaSize: U64, res: Option<ArgNode>)
    | DataNode(typ: Type, data: seq<Byte>, outSize: nat)
    | GroupNode(typ: Type, inner: seq<ArgNode>)
    | UnionNode(typ: Type, option: ArgNode)
    | ResultNode(arg: ResultArg)

  datatype CallNode = CallNode(meta: Syscall, args: seq<ArgNode>, ret: Option<ResultArg>)

  /** What a result of the type holds before it is given a value. */
  predicate Unset(t: Type, val: U64) {
    t.ResourceT? ==> val == t.default
  }

  // ----- the result arguments of a program, in the order validate visits them -----

  function Flat(a: ArgNode): seq<ResultArg> {
    match a
    case ResultNode(r) => [r]
    case PointerNode(_, _, _, res) => if res.Some? then Flat(res.value) else []
    case GroupNode(_, inner) => FlatSeq(inner)
    case UnionNode(_, option) => Flat(option)
    case _ => []
  }

  function FlatSeq(args: seq<ArgNode>): seq<ResultArg> {
    if args == [] then [] else Flat(args[0]) + FlatSeq(args[1..])
  }

  function FlatCall(c: CallNode): seq<ResultArg> {
    FlatSeq(c.args) + if c.ret.Some? then [c.ret.value] else []
  }

  function FlatProg(calls: seq<CallNode>): seq<ResultArg> {
    if calls == [] then [] else FlatCall(calls[0]) + FlatProg(calls[1..])
  }

  // ----- what validate checks about links -----

  ghost predicate Distinct(rs: seq<ResultArg>) {
    forall i, j :: 0 <= i < j < |rs| ==> rs[i] != rs[j]
  }

  /** Links are symmetric, stay in the tree, and go to results validated no later. */
  ghost predicate Linked(rs: seq<ResultArg>)
    reads rs
  {
    forall i :: 0 <= i < |rs| ==>
      && (rs[i].res != null ==> rs[i].res in rs[..i + 1] && rs[i] in rs[i].res.uses)
      && (forall u :: u in rs[i].uses ==> u in rs && u.res == rs[i])
  }

  function Rets(calls: seq<CallNode>): seq<ResultArg> {
    if calls == [] then [] else (if calls[0].ret.Some? then [calls[0].ret.value] else []) + Rets(calls[1..])
  }

  /** Return values refer to nothing and hold nothing. */
  ghost predicate Empty(rets: seq<ResultArg>)
    reads rets
  {
    forall r :: r in rets ==> r.res == null && r.val == 0 && r.opDiv == 0 && r.opAdd == 0
  }

  /** The part of validate that concerns links. */
  ghost predicate Valid(calls: seq<CallNode>)
    reads FlatProg(calls), Rets(calls)
  {
    Distinct(FlatProg(calls)) && Linked(FlatProg(calls)) && Empty(Rets(calls))
  }

  lemma {:induction false} AppendAssoc<T>(a: seq<T>, b: seq<T>, c: seq<T>)
    ensures (a + b) + c == a + (b + c)
  {
  }

  lemma {:induction false} FlatCallIn(calls: seq<CallNode>, i: nat)
    requires i < |calls|
    ensures FlatProg(calls) == FlatProg(calls[..i]) + FlatCall(calls[i]) + FlatProg(calls[i + 1..])
  {
    assert calls == calls[..i] + calls[i..];
    FlatProgAppend(calls[..i], calls[i..]);
    assert calls[i..][1..] == calls[i + 1..];
    AppendAssoc(FlatProg(calls[..i]), FlatCall(calls[i]), FlatProg(calls[i + 1..]));
  }

  lemma {:induction false} RetsAppend(xs: seq<CallNode>, ys: seq<CallNode>)
    ensures Rets(xs + ys) == Rets(xs) + Rets(ys)
  {
    if xs == [] {
      assert xs + ys == ys;
    } else {
      RetsAppend(xs[1..], ys);
      assert (xs + ys)[1..] == xs[1..] + ys;
      AppendAssoc(if xs[0].ret.Some? then [xs[0].ret.value] else [], Rets(xs[1..]), Rets(ys));
    }
  }

  lemma {:induction false} RetsInTree(calls: seq<CallNode>, r: ResultArg)
    requires r in Rets(calls)
    ensures r in FlatProg(calls)
  {
    if r in Rets(calls[1..]) { RetsInTree(calls[1..], r); }
  }

  lemma {:induction false} FlatProgAppend(xs: seq<CallNode>, ys: seq<CallNode>)
    ensures FlatProg(xs + ys) == FlatProg(xs) + FlatProg(ys)
  {
    if xs == [] {
      assert xs + ys == ys;
    } else {
      FlatProgAppend(xs[1..], ys);
      assert (xs + ys)[1..] == xs[1..] + ys;
      AppendAssoc(FlatCall(xs[0]), FlatProg(xs[1..]), FlatProg(ys));
    }
  }

  // ----- removing -----

  /** replaceResultArg with a fresh default argument of the same type. */
  method ReplaceByDefault(arg: ResultArg)
    modifies arg, arg.res
    ensures arg.res == null && arg.opDiv == 0 && arg.opAdd == 0 && Unset(arg.typ, arg.val) &&
        arg.typ == old(arg.typ)
    ensures arg.uses == if old(arg.res) == arg then old(arg.uses) - {arg} else old(arg.uses)
    ensures old(arg.res) != null && old(arg.res) != arg ==>
              var r := old(arg.res);
              r.uses == old(r.uses) - {arg} && r.res == old(r.res) && r.typ == old(r.typ)
              && r.val == old(r.val) && r.opDiv == old(r.opDiv) && r.opAdd == old(r.opAdd)
  {
    var arg1 := new ResultArg(arg.typ, if arg.typ.ResourceT? then arg.typ.default else 0);
    ReplaceResultArg(arg, arg1);
  }

  /** replaceResultArg: `arg` takes over everything from `arg1` but keeps its users. */
  method ReplaceResultArg(arg: ResultArg, arg1: ResultArg)
    requires arg != arg1 && (arg1.res != null ==> arg1 in arg1.res.uses && arg1.res != arg1)
    modifies arg, arg.res, arg1.res
    ensures arg.typ == old(arg1.typ) && arg.res == old(arg1.res) && arg.opDiv == old(arg1.opDiv)
    ensures arg.opAdd == old(arg1.opAdd) && arg.val == old(arg1.val)
    ensures var r := old(arg.res);
            r != null && r != arg && r != old(arg1.res) ==>
              && r.uses == old(r.uses) - {arg} && r.res == old(r.res) && r.typ == old(r.typ)
              && r.val == old(r.val) && r.opDiv == old(r.opDiv) && r.opAdd == old(r.opAdd)
    ensures var r := old(arg1.res);
            r != null && r != arg ==>
              && r.uses == old(r.uses) - {arg1} + {arg} && r.res == old(r.res) && r.typ == old(r.typ)
              && r.val == old(r.val) && r.opDiv == old(r.opDiv) && r.opAdd == old(r.opAdd)
    ensures old(arg1.res) != arg ==>
              arg.uses == if old(arg.res) == arg then old(arg.uses) - {arg} else old(arg.uses)
  {
    if arg.res != null {
      arg.res.uses := arg.res.uses - {arg};
    }
    arg.typ, arg.res, arg.opDiv, arg.opAdd, arg.val := arg1.typ, arg1.res, arg1.opDiv, arg1.opAdd, arg1.val;
    if arg.res != null {
      arg.res.uses := arg.res.uses - {arg1} + {arg};
    }
  }

  /** The graph after the results in `gone` were removed, as seen from a result that stays:
      it lost the users in `gone`, and if it referred into `gone` it is a default now. */
  ghost predicate Detached(now: Fields, before: Fields, gone: set<ResultArg>) {
    && now.typ == before.typ
    && now.uses == before.uses - gone
    && (if before.res != null && before.res in gone
        then now.res == null && now.opDiv == 0 && now.opAdd == 0 && Unset(now.typ, now.val)
        else now.res == before.res && now.opDiv == before.opDiv && now.opAdd == before.opAdd && now.val == before.val)
  }

  /** Symmetric links within `rs`. */
  ghost predicate Symmetric(rs: set<ResultArg>)
    reads rs
  {
    forall b :: b in rs ==>
      && b.uses <= rs && (forall u :: u in b.uses ==> u.res == b)
      && (b.res != null ==> b.res in rs && b in b.res.uses)
  }

  /** Links, symmetric or not, stay within `rs`. */
  ghost predicate Closed(rs: set<ResultArg>)
    reads rs
  {
    forall b :: b in rs ==> b.uses <= rs && (b.res != null ==> b.res in rs)
  }

  /** A default argument: it refers to nothing and holds the default of its type. */
  ghost predicate IsDefault(r: ResultArg)
    reads r
  {
    r.res == null && r.opDiv == 0 && r.opAdd == 0 && Unset(r.typ, r.val)
  }

  /** removeArg on one result argument; `live` are the results not removed yet.  It reports a
      broken tree exactly when the referent does not know the argument as its user. */
  method RemoveResult(a: ResultArg, ghost live: set<ResultArg>) returns (broken: bool)
    requires a in live && Closed(live)
    modifies live
    ensures broken <==> old(a.res != null && a !in a.res.uses)
    ensures broken ==> forall b :: b in live ==> b.Now() == old(b.Now())
    ensures !broken ==> Closed(live) && forall u :: u in old(a.uses) && u != a ==> IsDefault(u)
    ensures old(Symmetric(live)) ==> forall b :: b in live - {a} ==> Detached(b.Now(), old(b.Now()), {a})
  {
    broken := false;
    if a.res != null {
      if a !in a.res.uses {
        return true;
      }
      a.res.uses := a.res.uses - {a};
    }
    var us := a.uses;
    ghost var todo := us;
    while us != {}
      invariant us <= todo <= live && Closed(live)
      invariant old(a.uses) - {a} <= todo <= old(a.uses)
      invariant forall u :: u in todo - us ==> IsDefault(u)
      invariant old(Symmetric(live)) ==> a !in todo && a.uses == us && a.typ == old(a.typ)
      invariant old(Symmetric(live)) ==> forall u :: u in us ==> u.res == a && u != a
      invariant old(Symmetric(live)) ==> forall b :: b in live - {a} ==>
                  && b.typ == old(b.typ)
                  && b.uses == old(b.uses) - {a}
                  && (if b in todo - us then IsDefault(b)
                      else
                        && b.res == old(b.res) && b.opDiv == old(b.opDiv)
                        && b.opAdd == old(b.opAdd) && b.val == old(b.val))
      decreases us
    {
      var u :| u in us;
      us := us - {u};
      label Before:
      ReplaceByDefault(u);
      forall w | w in todo - us ensures IsDefault(w) {
        if w != u { assert old@Before(IsDefault(w)); }
      }
    }
  }

  function ToSet(rs: seq<ResultArg>): set<ResultArg> { set x | x in rs }

  /** removeCall over the result arguments of a call. */
  method RemoveResults(rs: seq<ResultArg>, ghost all: set<ResultArg>) returns (broken: bool)
    requires Distinct(rs) && ToSet(rs) <= all && Symmetric(all)
    modifies all
    ensures !broken
    ensures forall b :: b in all - ToSet(rs) ==> Detached(b.Now(), old(b.Now()), ToSet(rs))
  {
    broken := false;
    var k := 0;
    while k < |rs|
      invariant 0 <= k <= |rs|
      invariant !broken
      invariant forall b :: b in all - ToSet(rs[..k]) ==> Detached(b.Now(), old(b.Now()), ToSet(rs[..k]))
    {
      ghost var gone := ToSet(rs[..k]);
      assert rs[k] !in gone;
      broken := RemoveResult(rs[k], all - gone);
      assert ToSet(rs[..k + 1]) == gone + {rs[k]};
      k := k + 1;
    }
    assert rs[..|rs|] == rs;
  }

  /** `before` is a snapshot of the result arguments of a program. */
  ghost predicate Snapshot(rs: seq<ResultArg>, before: map<ResultArg, Fields>)
    reads rs
  {
    forall r :: r in rs ==> r in before && before[r] == r.Now()
  }

  /** The result arguments that stay when call `idx` is removed. */
  function Rest(calls: seq<CallNode>, idx: nat): seq<ResultArg>
    requires idx < |calls|
  {
    FlatProg(calls[..idx]) + FlatProg(calls[idx + 1..])
  }

  /** Unlink the result arguments of call `idx`. */
  method Unlink(calls: seq<CallNode>, idx: nat, ghost before: map<ResultArg, Fields>) returns (broken: bool)
    requires idx < |calls| && Valid(calls) && Snapshot(FlatProg(calls), before)
    modifies FlatProg(calls)
    ensures !broken
    ensures Distinct(Rest(calls, idx)) && Linked(Rest(calls, idx))
    ensures forall b :: b in Rest(calls, idx) ==>
              b in FlatProg(calls) && Detached(b.Now(), before[b], ToSet(FlatCall(calls[idx])))
  {
    ghost var pre, mid, post := FlatProg(calls[..idx]), FlatCall(calls[idx]), FlatProg(calls[idx + 1..]);
    ghost var rs := FlatProg(calls);
    FlatCallIn(calls, idx);
    LinkedSymmetric(rs);
    SnapshotLinked(rs, before);
    DistinctPart(pre, mid, post);
    broken := RemoveResults(FlatCall(calls[idx]), ToSet(rs));
    RemovedLinked(pre, mid, post, before);
  }

  lemma {:induction false} SnapshotLinkedBack(rs: seq<ResultArg>, m: map<ResultArg, Fields>)
    requires Snapshot(rs, m) && LinkedIn(rs, m)
    ensures Linked(rs)
  {
  }

  lemma {:induction false} SnapshotLinked(rs: seq<ResultArg>, before: map<ResultArg, Fields>)
    requires Snapshot(rs, before) && Linked(rs)
    ensures LinkedIn(rs, before)
  {
  }

  class Prog {
    var calls: seq<CallNode>

    /** removeCall: the call disappears, the rest of the program stays valid, and exactly the
        arguments that referred to the removed call are defaults now. */
    method RemoveCall(idx: nat, ghost before: map<ResultArg, Fields>) returns (broken: bool)
      requires idx < |calls| && Valid(calls) && Snapshot(FlatProg(calls), before)
      modifies this, FlatProg(calls)
      ensures !broken
      ensures calls == old(calls[..idx] + calls[idx + 1..])
      ensures Valid(calls)
      ensures forall b :: b in FlatProg(calls) ==>
                b in before && Detached(b.Now(), before[b], ToSet(FlatCall(old(calls)[idx])))
    {
      ghost var rets := Rets(calls);
      assert forall r :: r in rets && r in FlatProg(calls) ==>
               before[r].res == null && before[r].val == 0 && before[r].opDiv == 0 && before[r].opAdd == 0;
      broken := Unlink(calls, idx, before);
      FlatProgAppend(calls[..idx], calls[idx + 1..]);
      RetsSplit(calls, idx);
      ghost var gone := ToSet(FlatCall(calls[idx]));
      calls := calls[..idx] + calls[idx + 1..];
      assert Linked(FlatProg(calls));
      forall r | r in Rets(calls) ensures r.res == null && r.val == 0 && r.opDiv == 0 && r.opAdd == 0 {
        assert r in rets && r in FlatProg(calls);
        assert Detached(r.Now(), before[r], gone);
      }
      assert Valid(calls);
    }
  }

  lemma {:induction false} DistinctPart(pre: seq<ResultArg>, mid: seq<ResultArg>, post: seq<ResultArg>)
    requires Distinct(pre + mid + post)
    ensures Distinct(mid)
  {
    forall i, j | 0 <= i < j < |mid| ensures mid[i] != mid[j] {
      assert mid[i] == (pre + mid + post)[|pre| + i] && mid[j] == (pre + mid + post)[|pre| + j];
    }
  }

  lemma {:induction false} RetsSplit(calls: seq<CallNode>, idx: nat)
    requires idx < |calls|
    ensures forall r :: r in Rets(calls[..idx] + calls[idx + 1..]) ==>
        r in Rets(calls) && r in FlatProg(calls[..idx] + calls[idx + 1..])
  {
    var rest := calls[..idx] + calls[idx + 1..];
    RetsAppend(calls[..idx], calls[idx + 1..]);
    RetsAppend(calls[..idx], calls[idx..]);
    assert calls == calls[..idx] + calls[idx..] && calls[idx..][1..] == calls[idx + 1..];
    forall r | r in Rets(rest) ensures r in FlatProg(rest) { RetsInTree(rest, r); }
  }

  lemma {:induction false} LinkedSymmetric(rs: seq<ResultArg>)
    requires Linked(rs)
    ensures Symmetric(ToSet(rs))
  {
  }

  /** Linked for a program whose results had the contents `m`. */
  ghost predicate LinkedIn(rs: seq<ResultArg>, m: map<ResultArg, Fields>)
    requires forall r :: r in rs ==> r in m
  {
    forall i :: 0 <= i < |rs| ==>
      && (m[rs[i]].res != null ==> m[rs[i]].res in rs[..i + 1] && rs[i] in m[m[rs[i]].res].uses)
      && (forall u :: u in m[rs[i]].uses ==> u in rs && m[u].res == rs[i])
  }

  /** Deleting the block `mid` keeps order, uniqueness and links of the rest. */
  lemma {:induction false} RemovedLinked(pre: seq<ResultArg>, mid: seq<ResultArg>, post: seq<ResultArg>,
      before: map<ResultArg, Fields>)
    requires forall r :: r in pre + mid + post ==> r in before
    requires Distinct(pre + mid + post) && LinkedIn(pre + mid + post, before)
    requires forall b :: b in pre + mid + post && b !in mid ==> Detached(b.Now(), before[b], ToSet(mid))
    ensures Distinct(pre + post) && Linked(pre + post)
    ensures forall b :: b in pre + post ==> b in pre + mid + post && b !in mid
  {
    var rs, rs' := pre + mid + post, pre + post;
    forall i | 0 <= i < |rs'| ensures rs'[i] in rs && rs'[i] !in mid {
      NotInBlock(pre, mid, post, i);
    }
    forall i | 0 <= i < |rs'|
      ensures rs'[i].res != null ==> rs'[i].res in rs'[..i + 1] && rs'[i] in rs'[i].res.uses
      ensures forall u :: u in rs'[i].uses ==> u in rs' && u.res == rs'[i]
    {
      RemovedAt(pre, mid, post, before, i);
    }
    RestDistinct(pre, mid, post);
  }

  lemma {:induction false} RestDistinct(pre: seq<ResultArg>, mid: seq<ResultArg>, post: seq<ResultArg>)
    requires Distinct(pre + mid + post)
    ensures Distinct(pre + post)
  {
    var rs, rs' := pre + mid + post, pre + post;
    forall i, j | 0 <= i < j < |rs'| ensures rs'[i] != rs'[j] {
      assert rs'[i] == rs[if i < |pre| then i else i + |mid|] && rs'[j] == rs[if j < |pre| then j else j + |mid|];
    }
  }

  lemma {:induction false} NotInBlock(pre: seq<ResultArg>, mid: seq<ResultArg>, post: seq<ResultArg>, i: nat)
    requires Distinct(pre + mid + post) && i < |pre + post|
    ensures (pre + post)[i] in pre + mid + post && (pre + post)[i] !in mid
  {
    var rs := pre + mid + post;
    var k := if i < |pre| then i else i + |mid|;
    assert (pre + post)[i] == rs[k];
    forall j | 0 <= j < |mid| ensures mid[j] != rs[k] {
      assert mid[j] == rs[|pre| + j];
    }
  }

  lemma {:induction false} RemovedAt(pre: seq<ResultArg>, mid: seq<ResultArg>, post: seq<ResultArg>,
      before: map<ResultArg, Fields>, i: nat)
    requires forall r :: r in pre + mid + post ==> r in before
    requires LinkedIn(pre + mid + post, before) && i < |pre + post|
    requires forall b :: b in pre + post ==> b in pre + mid + post && b !in mid
    requires forall b :: b in pre + mid + post && b !in mid ==> Detached(b.Now(), before[b], ToSet(mid))
    ensures var rs' := pre + post;
            && (rs'[i].res != null ==> rs'[i].res in rs'[..i + 1] && rs'[i] in rs'[i].res.uses)
            && (forall u :: u in rs'[i].uses ==> u in rs' && u.res == rs'[i])
  {
    var rs, rs' := pre + mid + post, pre + post;
    var k := if i < |pre| then i else i + |mid|;
    assert rs'[i] == rs[k];
    var b := rs'[i];
    assert Detached(b.Now(), before[b], ToSet(mid));
    RemovedOrder(pre, mid, post, i, k, b.res);
    if b.res != null {
      assert Detached(b.res.Now(), before[b.res], ToSet(mid));
    }
    forall u | u in b.uses ensures u in rs' && u.res == b {
      assert u in rs && u !in mid;
      assert Detached(u.Now(), before[u], ToSet(mid));
      assert before[u].res == b;
    }
  }

  lemma {:induction false} RemovedOrder(pre: seq<ResultArg>, mid: seq<ResultArg>, post: seq<ResultArg>, i: nat, k: nat,
      r: ResultArg?)
    requires i < |pre| + |post| && k == if i < |pre| then i else i + |mid|
    requires r != null ==> r in (pre + mid + post)[..k + 1] && r !in mid
    ensures r != null ==> r in (pre + post)[..i + 1]
  {
    if r != null {
      var rs := pre + mid + post;
      var j :| 0 <= j <= k && rs[j] == r;
      assert forall t :: 0 <= t < |mid| ==> mid[t] == rs[|pre| + t];
      var j' := if j < |pre| then j else j - |mid|;
      assert (pre + post)[j'] == r && j' <= i;
      assert (pre + post)[..i + 1][j'] == r;
    }
  }
}
