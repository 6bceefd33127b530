/**
  The clone of a valid program is valid, and splice (prog/mutation.go) keeps validity:
  it inserts a clone of a corpus program and removes calls from the end.
 */
module ArgSplice {
  import opened Ir
  import opened ArgGraph
  import opened ArgClone

  ghost function Image(rs: seq<ResultArg>, m: Copies): seq<ResultArg>
    requires forall r :: r in rs ==> r in m
  {
    if rs == [] then [] else [m[rs[0]]] + Image(rs[1..], m)
  }

  lemma {:induction false} ImageAt(rs: seq<ResultArg>, m: Copies, i: nat)
    requires (forall r :: r in rs ==> r in m) && i < |rs|
    ensures |Image(rs, m)| == |rs| && Image(rs, m)[i] == m[rs[i]]
    decreases rs
  {
    ImageLen(rs, m);
    if i > 0 { ImageAt(rs[1..], m, i - 1); }
  }

  lemma {:induction false} ImageLen(rs: seq<ResultArg>, m: Copies)
    requires forall r :: r in rs ==> r in m
    ensures |Image(rs, m)| == |rs|
    decreases rs
  {
    if rs != [] { ImageLen(rs[1..], m); }
  }

  lemma {:induction false} ImageAppend(xs: seq<ResultArg>, ys: seq<ResultArg>, m: Copies)
    requires forall r :: r in xs + ys ==> r in m
    ensures (forall r :: r in xs ==> r in m) && (forall r :: r in ys ==> r in m)
    ensures Image(xs + ys, m) == Image(xs, m) + Image(ys, m)
    decreases xs
  {
    assert forall r :: r in xs ==> r in xs + ys;
    assert forall r :: r in ys ==> r in xs + ys;
    if xs == [] {
      assert xs + ys == ys;
    } else {
      assert (xs + ys)[1..] == xs[1..] + ys;
      ImageAppend(xs[1..], ys, m);
    }
  }

  lemma {:induction false} FlatRename(a: ArgNode, m: Copies)
    requires forall r :: r in Flat(a) ==> r in m
    ensures Flat(Rename(a, m)) == Image(Flat(a), m)
    decreases a, 0
  {
    match a
    case ResultNode(r) => assert r in Flat(a); assert Flat(a)[1..] == [];
    case PointerNode(_, _, _, res) => if res.Some? { FlatRename(res.value, m); }
    case GroupNode(_, inner) => FlatRenameSeq(inner, m);
    case UnionNode(_, option) => FlatRename(option, m);
    case _ =>
  }

  lemma {:induction false} FlatRenameSeq(args: seq<ArgNode>, m: Copies)
    requires forall r :: r in FlatSeq(args) ==> r in m
    ensures FlatSeq(RenameSeq(args, m)) == Image(FlatSeq(args), m)
    decreases args, 1
  {
    if args != [] {
      ImageAppend(Flat(args[0]), FlatSeq(args[1..]), m);
      FlatRename(args[0], m);
      FlatRenameSeq(args[1..], m);
      assert RenameSeq(args, m)[1..] == RenameSeq(args[1..], m);
    }
  }

  lemma {:induction false} FlatRenameCall(c: CallNode, m: Copies)
    requires forall r :: r in FlatCall(c) ==> r in m
    ensures FlatCall(RenameCall(c, m)) == Image(FlatCall(c), m)
  {
    var ret := if c.ret.Some? then [c.ret.value] else [];
    ImageAppend(FlatSeq(c.args), ret, m);
    FlatRenameSeq(c.args, m);
    assert ret != [] ==> ret[1..] == [];
  }

  lemma {:induction false} FlatRenameProg(calls: seq<CallNode>, m: Copies)
    requires forall r :: r in FlatProg(calls) ==> r in m
    ensures FlatProg(RenameCalls(calls, m)) == Image(FlatProg(calls), m)
    decreases calls
  {
    if calls != [] {
      ImageAppend(FlatCall(calls[0]), FlatProg(calls[1..]), m);
      FlatRenameCall(calls[0], m);
      FlatRenameProg(calls[1..], m);
      assert RenameCalls(calls, m)[1..] == RenameCalls(calls[1..], m);
    }
  }

  lemma {:induction false} RetsRename(calls: seq<CallNode>, m: Copies, y: ResultArg) returns (x: ResultArg)
    requires (forall r :: r in FlatProg(calls) ==> r in m) && y in Rets(RenameCalls(calls, m))
    ensures x in Rets(calls) && x in FlatProg(calls) && y == m[x]
    decreases calls
  {
    assert RenameCalls(calls, m)[1..] == RenameCalls(calls[1..], m);
    if calls[0].ret.Some? && y == m[calls[0].ret.value] {
      x := calls[0].ret.value;
    } else {
      x := RetsRename(calls[1..], m, y);
    }
  }

  /** The image of linked results under an isomorphism is linked. */
  lemma {:induction false} ImageLinked(rs: seq<ResultArg>, m: Copies)
    requires Distinct(rs) && Linked(rs) && Isomorphic(rs, m) && forall r :: r in rs ==> r in m
    ensures Distinct(Image(rs, m)) && Linked(Image(rs, m))
  {
    var ys := Image(rs, m);
    ImageLen(rs, m);
    forall i, j | 0 <= i < j < |ys| ensures ys[i] != ys[j] { ImageAt(rs, m, i); ImageAt(rs, m, j); }
    forall i | 0 <= i < |ys|
      ensures ys[i].res != null ==> ys[i].res in ys[..i + 1] && ys[i] in ys[i].res.uses
      ensures forall u :: u in ys[i].uses ==> u in ys && u.res == ys[i]
    {
      ImageLinkedAt(rs, m, i);
    }
  }

  lemma {:induction false} ImageLinkedAt(rs: seq<ResultArg>, m: Copies, i: nat)
    requires Linked(rs) && Isomorphic(rs, m) && (forall r :: r in rs ==> r in m) && i < |rs| == |Image(rs, m)|
    ensures var ys := Image(rs, m);
            && (ys[i].res != null ==> ys[i].res in ys[..i + 1] && ys[i] in ys[i].res.uses)
            && (forall u :: u in ys[i].uses ==> u in ys && u.res == ys[i])
  {
    var ys, x := Image(rs, m), rs[i];
    ImageAt(rs, m, i);
    if x.res != null {
      var j :| 0 <= j < i + 1 && rs[..i + 1][j] == x.res;
      ImageAt(rs, m, j);
      assert ys[..i + 1][j] == ys[i].res;
      assert x in x.res.uses;
    }
    forall u | u in ys[i].uses ensures u in ys && u.res == ys[i] {
      ImageOfUse(rs, m, i, u);
    }
  }

  lemma {:induction false} ImageOfUse(rs: seq<ResultArg>, m: Copies, i: nat, u: ResultArg)
    requires Linked(rs) && Isomorphic(rs, m) && (forall r :: r in rs ==> r in m) && i < |rs| == |Image(rs, m)|
    requires u in Image(rs, m)[i].uses
    ensures u in Image(rs, m) && u.res == Image(rs, m)[i]
  {
    var x := rs[i];
    ImageAt(rs, m, i);
    var v :| v in x.uses && v in m && u == m[v];
    assert v in rs && v.res == x;
    var k :| 0 <= k < |rs| && rs[k] == v;
    ImageAt(rs, m, k);
  }

  /** The clone of a valid program is valid. */
  lemma {:induction false} CloneIsValid(calls: seq<CallNode>, m: Copies)
    requires Valid(calls) && Isomorphic(FlatProg(calls), m) && forall r :: r in FlatProg(calls) ==> r in m
    ensures Valid(RenameCalls(calls, m))
    ensures FlatProg(RenameCalls(calls, m)) == Image(FlatProg(calls), m)
  {
    FlatRenameProg(calls, m);
    ImageLinked(FlatProg(calls), m);
    forall y | y in Rets(RenameCalls(calls, m)) ensures y.res == null && y.val == 0 && y.opDiv == 0 && y.opAdd == 0 {
      var x := RetsRename(calls, m, y);
    }
  }

  // ----- inserting calls -----

  /** The links of one result argument. */
  ghost predicate LinkedAt(rs: seq<ResultArg>, i: nat)
    requires i < |rs|
    reads rs
  {
    && (rs[i].res != null ==> rs[i].res in rs[..i + 1] && rs[i] in rs[i].res.uses)
    && (forall u :: u in rs[i].uses ==> u in rs && u.res == rs[i])
  }

  lemma {:induction false} InsertedLinked(pre: seq<ResultArg>, mid: seq<ResultArg>, post: seq<ResultArg>, k: nat)
    requires Linked(mid) && k < |mid|
    ensures LinkedAt(pre + mid + post, |pre| + k)
  {
    var rs, i := pre + mid + post, |pre| + k;
    assert rs[i] == mid[k];
    assert rs[..i + 1] == pre + mid[..k + 1];
  }

  /** Inserting keeps what stands at or before an element, and all elements. */
  lemma {:induction false} StillBefore(pre: seq<ResultArg>, mid: seq<ResultArg>, post: seq<ResultArg>, k: nat, i: nat,
                                       old1: seq<ResultArg>, rs: seq<ResultArg>, before: seq<ResultArg>,
                                           after: seq<ResultArg>)
    requires old1 == pre + post && rs == pre + mid + post && k < |old1| && i == if k < |pre| then k else k + |mid|
    requires before == old1[..k + 1] && after == rs[..i + 1]
    ensures rs[i] == old1[k] && (forall x :: x in before ==> x in after) && (forall x :: x in old1 ==> x in rs)
  {
    if k < |pre| {
      assert before == pre[..k + 1] == after;
    } else {
      var n := k + 1 - |pre|;
      assert before == pre + post[..n];
      assert after == pre + mid + post[..n];
    }
  }

  lemma {:induction false} OthersLinked(pre: seq<ResultArg>, mid: seq<ResultArg>, post: seq<ResultArg>, k: nat, i: nat)
    requires Linked(pre + post) && k < |pre + post| && i == if k < |pre| then k else k + |mid|
    ensures LinkedAt(pre + mid + post, i)
  {
    StillBefore(pre, mid, post, k, i, pre + post, pre + mid + post, (pre + post)[..k + 1], (pre + mid + post)[..i + 1]);
    var x := (pre + post)[k];
    assert x.res != null ==> x.res in (pre + post)[..k + 1] && x in x.res.uses;
  }

  lemma {:induction false} InsertLinked(pre: seq<ResultArg>, mid: seq<ResultArg>, post: seq<ResultArg>)
    requires Linked(pre + post) && Linked(mid)
    ensures Linked(pre + mid + post)
  {
    var rs := pre + mid + post;
    forall i | 0 <= i < |rs|
      ensures rs[i].res != null ==> rs[i].res in rs[..i + 1] && rs[i] in rs[i].res.uses
      ensures forall u :: u in rs[i].uses ==> u in rs && u.res == rs[i]
    {
      if |pre| <= i < |pre| + |mid| {
        InsertedLinked(pre, mid, post, i - |pre|);
      } else {
        OthersLinked(pre, mid, post, if i < |pre| then i else i - |mid|, i);
      }
      assert LinkedAt(rs, i);
    }
  }

  lemma {:induction false} InsertDistinct(pre: seq<ResultArg>, mid: seq<ResultArg>, post: seq<ResultArg>)
    requires Distinct(pre + post) && Distinct(mid) && forall r :: r in mid ==> r !in pre + post
    ensures Distinct(pre + mid + post)
  {
    var rs, old1 := pre + mid + post, pre + post;
    forall i, j | 0 <= i < j < |rs| ensures rs[i] != rs[j] {
      var inI, inJ := |pre| <= i < |pre| + |mid|, |pre| <= j < |pre| + |mid|;
      assert inI ==> rs[i] == mid[i - |pre|];
      assert inJ ==> rs[j] == mid[j - |pre|];
      assert !inI ==> rs[i] == old1[if i < |pre| then i else i - |mid|];
      assert !inJ ==> rs[j] == old1[if j < |pre| then j else j - |mid|];
      assert (inI ==> rs[i] in mid) && (inJ ==> rs[j] in mid) && (!inI ==> rs[i] in old1) && (!inJ ==> rs[j] in old1);
    }
  }

  /** Valid programs stay valid when valid calls with other result arguments are inserted. */
  lemma {:induction false} InsertValid(calls: seq<CallNode>, idx: nat, more: seq<CallNode>)
    requires idx <= |calls| && Valid(calls) && Valid(more)
    requires forall r :: r in FlatProg(more) ==> r !in FlatProg(calls)
    ensures Valid(calls[..idx] + more + calls[idx..])
    ensures forall r :: r in FlatProg(calls[..idx] + more + calls[idx..]) ==>
        r in FlatProg(calls) || r in FlatProg(more)
  {
    var a, b := calls[..idx], calls[idx..];
    assert calls == a + b;
    FlatProgAppend(a, b);
    FlatProgAppend(a + more, b);
    FlatProgAppend(a, more);
    RetsAppend(a, b);
    RetsAppend(a + more, b);
    RetsAppend(a, more);
    InsertLinked(FlatProg(a), FlatProg(more), FlatProg(b));
    InsertDistinct(FlatProg(a), FlatProg(more), FlatProg(b));
  }

  /** Valid for a program whose results have the contents `m`. */
  ghost predicate ValidIn(calls: seq<CallNode>, m: map<ResultArg, Fields>) {
    && (forall r :: r in FlatProg(calls) ==> r in m)
    && Distinct(FlatProg(calls)) && LinkedIn(FlatProg(calls), m)
    && (forall r :: r in Rets(calls) ==>
         r in m && m[r].res == null && m[r].val == 0 && m[r].opDiv == 0 && m[r].opAdd == 0)
  }

  lemma {:induction false} ValidSnapshot(calls: seq<CallNode>, m: map<ResultArg, Fields>)
    requires Snapshot(FlatProg(calls), m)
    ensures Valid(calls) <==> ValidIn(calls, m)
  {
    forall r | r in Rets(calls) ensures r in FlatProg(calls) { RetsInTree(calls, r); }
    if ValidIn(calls, m) { SnapshotLinkedBack(FlatProg(calls), m); }
    if Valid(calls) { SnapshotLinked(FlatProg(calls), m); }
  }

  /** Every result argument of the program has a copy. */
  ghost predicate Covers(m: Copies, calls: seq<CallNode>) {
    forall r :: r in FlatProg(calls) ==> r in m
  }

  /** The same but for who uses it. */
  ghost predicate SameValue(now: Fields, before: Fields) {
    now.typ == before.typ && now.res == before.res && now.opDiv == before.opDiv && now.opAdd == before.opAdd &&
    now.val == before.val
  }

  /** `b` is the copy of a result argument whose fields were those of `before`. */
  ghost predicate IsCopyOf(b: ResultArg, now: Fields, m: Copies, before: map<ResultArg, Fields>) {
    exists r :: r in m && r in before && m[r] == b && SameValue(now, Moved(before[r], m))
  }

  ghost function Moved(f: Fields, m: Copies): Fields {
    f.(res := if f.res == null then null else if f.res in m then m[f.res] else f.res)
  }

  ghost predicate AllCopies(rs: seq<ResultArg>, m: Copies, before: map<ResultArg, Fields>)
    reads rs
  {
    forall b :: b in rs ==> IsCopyOf(b, b.Now(), m, before)
  }

  lemma {:induction false} CopiesOf(rs: seq<ResultArg>, m: Copies, before: map<ResultArg, Fields>)
    requires Isomorphic(rs, m) && Snapshot(rs, before)
    ensures AllCopies(Image(rs, m), m, before)
  {
    forall b | b in Image(rs, m) ensures IsCopyOf(b, b.Now(), m, before) {
      var r := ImageOf(rs, m, b);
      assert r in before && SameValue(b.Now(), Moved(before[r], m));
    }
  }

  lemma {:induction false} ImageOf(rs: seq<ResultArg>, m: Copies, b: ResultArg) returns (r: ResultArg)
    requires (forall r :: r in rs ==> r in m) && b in Image(rs, m)
    ensures r in rs && m[r] == b
    decreases rs
  {
    if m[rs[0]] == b {
      r := rs[0];
    } else {
      r := ImageOf(rs[1..], m, b);
    }
  }

  /** Clone with the validity of its result; the result arguments are new. */
  method ValidClone(calls: seq<CallNode>, ghost links: Links, ghost before: map<ResultArg, Fields>)
    returns (ok: bool, calls1: seq<CallNode>, ghost m: Copies)
    requires Valid(calls) && links.Keys == ToSet(FlatProg(calls)) && Kept(links) && Snapshot(FlatProg(calls), before)
    ensures ok <==> forall r :: r in FlatProg(calls) ==> r.res != r
    ensures ok ==> Valid(calls1) && |calls1| == |calls| && forall r :: r in FlatProg(calls1) ==> fresh(r)
    ensures ok ==> Covers(m, calls) && calls1 == RenameCalls(calls, m)
    ensures ok ==> AllCopies(FlatProg(calls1), m, before)
  {
    ValidSnapshot(calls, before);
    ok, calls1, m := Clone(calls, links);
    if ok {
      FlatRenameProg(calls, m);
      CopiesOf(FlatProg(calls), m, before);
      assert Snapshot(FlatProg(calls), before);
      ValidSnapshot(calls, before);
      CloneIsValid(calls, m);
      ImageInValues(FlatProg(calls), m);
      RenameCallsLen(calls, m);
    }
  }

  /** The first `n` calls, if there are more. */
  function Cut(calls: seq<CallNode>, n: nat): seq<CallNode> {
    if |calls| > n then calls[..n] else calls
  }

  /** Nothing refers to a result of the last call but that call. */
  lemma {:induction false} LastUnreferenced(calls: seq<CallNode>)
    requires Valid(calls) && calls != []
    ensures forall b :: b in FlatProg(calls[..|calls| - 1]) ==> b.res !in FlatCall(calls[|calls| - 1])
  {
    var n := |calls| - 1;
    var pre, last, rs := FlatProg(calls[..n]), FlatCall(calls[n]), FlatProg(calls);
    FlatCallIn(calls, n);
    assert calls[n + 1..] == [];
    assert rs == pre + last;
    forall b | b in pre ensures b.res !in last {
      var i :| 0 <= i < |pre| && pre[i] == b;
      assert rs[i] == b && LinkedAt(rs, i);
      assert forall j :: 0 <= j < |last| ==> rs[|pre| + j] == last[j];
    }
  }

  lemma {:induction false} StillHeld(now: Fields, before: Fields, gone: seq<ResultArg>)
    requires Detached(now, before, ToSet(gone)) && before.res !in gone
    ensures SameValue(now, before)
  {
  }

  method DropLast(p: Prog, ghost all: set<ResultArg>)
    requires Valid(p.calls) && ToSet(FlatProg(p.calls)) <= all && p.calls != []
    modifies p, all
    ensures Valid(p.calls) && ToSet(FlatProg(p.calls)) <= all
    ensures p.calls == old(p.calls)[..|old(p.calls)| - 1]
    ensures forall b :: b in all && b in FlatProg(p.calls) ==> SameValue(b.Now(), old(b.Now()))
  {
    ghost var calls, before := p.calls, map r | r in ToSet(FlatProg(p.calls)) :: r.Now();
    ghost var n := |p.calls| - 1;
    assert forall r :: r in FlatProg(p.calls) ==> r in ToSet(FlatProg(p.calls)) && r in all;
    RemovedSubset(p.calls, n);
    LastUnreferenced(p.calls);
    var broken := p.RemoveCall(|p.calls| - 1, before);
    assert calls[..n] + calls[n + 1..] == calls[..n];
    forall b | b in all && b in FlatProg(p.calls) ensures SameValue(b.Now(), old(b.Now())) {
      assert before[b] == old(b.Now());
      StillHeld(b.Now(), before[b], FlatCall(calls[n]));
    }
  }

  lemma {:induction false} PrefixFlat(calls: seq<CallNode>)
    requires calls != []
    ensures forall b :: b in FlatProg(calls[..|calls| - 1]) ==> b in FlatProg(calls)
  {
    assert calls == calls[..|calls| - 1] + [calls[|calls| - 1]];
    FlatProgAppend(calls[..|calls| - 1], [calls[|calls| - 1]]);
  }

  /** The removal loop of splice: the calls that stay are a prefix, and their results keep their
      values and references. */
  method Truncate(p: Prog, ncalls: nat, ghost all: set<ResultArg>)
    requires Valid(p.calls) && ToSet(FlatProg(p.calls)) <= all
    modifies p, all
    ensures Valid(p.calls) && p.calls == Cut(old(p.calls), ncalls)
    ensures ToSet(FlatProg(p.calls)) <= all
    ensures forall b :: b in all && b in FlatProg(p.calls) ==> SameValue(b.Now(), old(b.Now()))
  {
    ghost var n := |p.calls|;
    assert p.calls == old(p.calls)[..n];
    while |p.calls| > ncalls
      invariant Valid(p.calls) && ToSet(FlatProg(p.calls)) <= all
      invariant |p.calls| == n <= |old(p.calls)| && p.calls == old(p.calls)[..n]
      invariant n >= |Cut(old(p.calls), ncalls)|
      invariant forall b :: b in all && b in FlatProg(p.calls) ==> SameValue(b.Now(), old(b.Now()))
      decreases n
    {
      PrefixFlat(p.calls);
      DropLast(p, all);
      n := n - 1;
    }
  }

  lemma {:induction false} RemovedSubset(calls: seq<CallNode>, idx: nat)
    requires idx < |calls|
    ensures ToSet(FlatProg(calls[..idx] + calls[idx + 1..])) <= ToSet(FlatProg(calls))
  {
    FlatCallIn(calls, idx);
    FlatProgAppend(calls[..idx], calls[idx + 1..]);
  }

  /** What a result argument holds comes from before, or is a copy of what it is the clone of. */
  ghost predicate Origin(b: ResultArg, now: Fields, before: map<ResultArg, Fields>, m: Copies,
                         before0: map<ResultArg, Fields>)
  {
    if b in before then SameValue(now, before[b]) else IsCopyOf(b, now, m, before0)
  }

  lemma {:induction false} OriginKept(b: ResultArg, was: Fields, now: Fields, before: map<ResultArg, Fields>, m: Copies,
                                      before0: map<ResultArg, Fields>)
    requires Origin(b, was, before, m, before0) && SameValue(now, was)
    ensures Origin(b, now, before, m, before0)
  {
  }

  method Put(p: Prog, copy: seq<CallNode>, idx: nat, ghost all: set<ResultArg>)
    requires all == ToSet(FlatProg(p.calls)) + ToSet(FlatProg(copy))
    requires Valid(p.calls) && idx < |p.calls| && Valid(copy)
    requires forall r :: r in FlatProg(copy) ==> r !in FlatProg(p.calls)
    modifies p
    ensures Valid(p.calls) && p.calls == old(p.calls)[..idx] + copy + old(p.calls)[idx..]
    ensures ToSet(FlatProg(p.calls)) <= all
  {
    InsertValid(p.calls, idx, copy);
    p.calls := p.calls[..idx] + copy + p.calls[idx..];
  }

  /** The insertion of calls with other result arguments, and the removal loop. */
  method Insert(p: Prog, copy: seq<CallNode>, idx: nat, ncalls: nat, ghost before: map<ResultArg, Fields>,
                ghost m: Copies, ghost before0: map<ResultArg, Fields>, ghost all: set<ResultArg>)
    requires all == ToSet(FlatProg(p.calls)) + ToSet(FlatProg(copy))
    requires Valid(p.calls) && idx < |p.calls| && Snapshot(FlatProg(p.calls), before) && Valid(copy)
    requires AllCopies(FlatProg(copy), m, before0) && forall r :: r in FlatProg(copy) ==> r !in before
    modifies p, all
    ensures Valid(p.calls) && p.calls == Cut(old(p.calls)[..idx] + copy + old(p.calls)[idx..], ncalls)
    ensures forall b :: b in FlatProg(p.calls) ==> Origin(b, b.Now(), before, m, before0)
  {
    assert forall b :: b in all ==> Origin(b, b.Now(), before, m, before0);
    Put(p, copy, idx, all);
    Truncate(p, ncalls, all);
    forall b | b in FlatProg(p.calls) ensures Origin(b, b.Now(), before, m, before0) {
      OriginKept(b, old(b.Now()), b.Now(), before, m, before0);
    }
  }

  /** splice: insert a clone of `calls0` before call `idx`, then drop calls from the end.
      It fails only where Clone does. */
  method Splice(p: Prog, calls0: seq<CallNode>, idx: nat, ncalls: nat, ghost links0: Links,
                ghost before0: map<ResultArg, Fields>, ghost before: map<ResultArg, Fields>)
    returns (ok: bool, ghost clone: seq<CallNode>, ghost m: Copies)
    requires Valid(p.calls) && idx < |p.calls| && Snapshot(FlatProg(p.calls), before)
    requires Valid(calls0) && links0.Keys == ToSet(FlatProg(calls0)) && Kept(links0)
    requires Snapshot(FlatProg(calls0), before0)
    modifies p, FlatProg(p.calls)
    ensures ok <==> old(forall r :: r in FlatProg(calls0) ==> r.res != r)
    ensures ok ==> Covers(m, calls0) && clone == RenameCalls(calls0, m) && |clone| == |calls0|
    ensures ok ==> Valid(p.calls) && p.calls == Cut(old(p.calls)[..idx] + clone + old(p.calls)[idx..], ncalls)
    ensures ok ==> forall b :: b in FlatProg(p.calls) ==> Origin(b, b.Now(), before, m, before0)
  {
    ValidSnapshot(p.calls, before);
    var copy;
    ok, copy, m := ValidClone(calls0, links0, before0);
    clone := copy;
    if ok {
      assert Snapshot(FlatProg(p.calls), before);
      ValidSnapshot(p.calls, before);
      ghost var mine, theirs := ToSet(FlatProg(p.calls)), ToSet(FlatProg(copy));
      assert forall r :: r in mine + theirs ==> r in FlatProg(p.calls) || fresh(r);
      Insert(p, copy, idx, ncalls, before, m, before0, mine + theirs);
    }
  }

  lemma {:induction false} ImageInValues(rs: seq<ResultArg>, m: Copies)
    requires forall r :: r in rs ==> r in m
    ensures forall y :: y in Image(rs, m) ==> y in m.Values
    decreases rs
  {
    if rs != [] { ImageInValues(rs[1..], m); }
  }

  lemma {:induction false} RenameCallsLen(calls: seq<CallNode>, m: Copies)
    requires forall r :: r in FlatProg(calls) ==> r in m
    ensures |RenameCalls(calls, m)| == |calls|
    decreases calls
  {
    if calls != [] { RenameCallsLen(calls[1..], m); }
  }
}
