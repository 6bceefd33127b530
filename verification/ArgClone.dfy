/**
  Clone (prog/clone.go) and splice (prog/mutation.go) on the def/use graph.

  Clone copies result arguments one by one and looks every referent up in the map of
  copies made so far; a referent that is not there yet is a nil dereference.
 */
module ArgClone {
  import opened Ir
  import opened ArgGraph

  type Copies = map<ResultArg, ResultArg>

  ghost predicate Injective(m: Copies) {
    forall x, y :: x in m && y in m && x != y ==> m[x] != m[y]
  }

  /** `y` is the copy of `x`: same contents, same link, and its users are the copies of the
      users that were copied so far. */
  ghost predicate IsCopy(m: Copies, x: ResultArg, y: ResultArg)
    reads m.Keys, x, y
  {
    && y.typ == x.typ && y.opDiv == x.opDiv && y.opAdd == x.opAdd && y.val == x.val
    && (x.res != null ==> x.res in m)
    && y.res == (if x.res == null then null else m[x.res])
    && y.uses <= m.Values
    && (forall z :: z in m ==> (m[z] in y.uses <==> z.res == x))
  }

  ghost predicate Copied(m: Copies)
    reads m.Keys, m.Values
  {
    && m.Keys !! m.Values
    && Injective(m)
    && forall x :: x in m ==> IsCopy(m, x, m[x])
  }

  /** An argument tree with every result argument replaced by its copy. */
  ghost function Rename(a: ArgNode, m: Copies): ArgNode
    requires forall r :: r in Flat(a) ==> r in m
    decreases a, 0
  {
    match a
    case ResultNode(r) => assert r in Flat(a); ResultNode(m[r])
    case PointerNode(t, addr, size, res) =>
      PointerNode(t, addr, size, if res.Some? then Some(Rename(res.value, m)) else None)
    case GroupNode(t, inner) => GroupNode(t, RenameSeq(inner, m))
    case UnionNode(t, option) => UnionNode(t, Rename(option, m))
    case ConstNode(_, _) => a
    case DataNode(_, _, _) => a
  }

  ghost function RenameSeq(args: seq<ArgNode>, m: Copies): seq<ArgNode>
    requires forall r :: r in FlatSeq(args) ==> r in m
    decreases args, 1
  {
    if args == [] then [] else [Rename(args[0], m)] + RenameSeq(args[1..], m)
  }

  ghost function RenameCall(c: CallNode, m: Copies): CallNode
    requires forall r :: r in FlatCall(c) ==> r in m
  {
    assert c.ret.Some? ==> c.ret.value in FlatCall(c);
    CallNode(c.meta, RenameSeq(c.args, m), if c.ret.Some? then Some(m[c.ret.value]) else None)
  }

  ghost function RenameCalls(calls: seq<CallNode>, m: Copies): seq<CallNode>
    requires forall r :: r in FlatProg(calls) ==> r in m
  {
    if calls == [] then [] else [RenameCall(calls[0], m)] + RenameCalls(calls[1..], m)
  }

  ghost predicate Extends(m: Copies, n: Copies) {
    forall x :: x in m ==> x in n && n[x] == m[x]
  }

  lemma {:induction false} RenameExtends(a: ArgNode, m: Copies, n: Copies)
    requires Extends(m, n) && forall r :: r in Flat(a) ==> r in m
    ensures Rename(a, n) == Rename(a, m)
    decreases a, 0
  {
    match a
    case ResultNode(r) => assert r in Flat(a);
    case PointerNode(_, _, _, res) => if res.Some? { RenameExtends(res.value, m, n); }
    case GroupNode(_, inner) => RenameSeqExtends(inner, m, n);
    case UnionNode(_, option) => RenameExtends(option, m, n);
    case _ =>
  }

  lemma {:induction false} RenameSeqExtends(args: seq<ArgNode>, m: Copies, n: Copies)
    requires Extends(m, n) && forall r :: r in FlatSeq(args) ==> r in m
    ensures RenameSeq(args, n) == RenameSeq(args, m)
    decreases args, 1
  {
    if args != [] {
      RenameExtends(args[0], m, n);
      RenameSeqExtends(args[1..], m, n);
    }
  }

  /** The links of the original program; Clone must not change them. */
  type Links = map<ResultArg, ResultArg?>

  ghost predicate Kept(links: Links)
    reads links.Keys
  {
    forall r :: r in links ==> r.res == links[r]
  }

  /** Every referent is in `known` or comes no later in `rs`. */
  ghost predicate Backward(rs: seq<ResultArg>, known: set<ResultArg>, links: Links)
    decreases rs
  {
    rs == [] ||
    (rs[0] in links && (links[rs[0]] == null || links[rs[0]] in known + {rs[0]})
     && Backward(rs[1..], known + {rs[0]}, links))
  }

  ghost predicate NoSelf(rs: seq<ResultArg>, links: Links) {
    forall r :: r in rs && r in links ==> links[r] != r
  }

  lemma {:induction false} BackwardSplit(xs: seq<ResultArg>, ys: seq<ResultArg>, known: set<ResultArg>, links: Links)
    requires Backward(xs + ys, known, links)
    ensures Backward(xs, known, links) && Backward(ys, known + ToSet(xs), links)
    decreases xs
  {
    if xs == [] {
      assert xs + ys == ys && known + ToSet(xs) == known;
    } else {
      assert (xs + ys)[1..] == xs[1..] + ys;
      BackwardSplit(xs[1..], ys, known + {xs[0]}, links);
      assert known + {xs[0]} + ToSet(xs[1..]) == known + ToSet(xs);
    }
  }

  lemma {:induction false} DistinctSplit(xs: seq<ResultArg>, ys: seq<ResultArg>)
    requires Distinct(xs + ys)
    ensures Distinct(xs) && Distinct(ys) && ToSet(xs) !! ToSet(ys)
  {
    var rs := xs + ys;
    forall i, j | 0 <= i < j < |xs| ensures xs[i] != xs[j] { assert rs[i] == xs[i] && rs[j] == xs[j]; }
    forall i, j | 0 <= i < j < |ys| ensures ys[i] != ys[j] { assert rs[|xs| + i] == ys[i] && rs[|xs| + j] == ys[j]; }
    forall i, j | 0 <= i < |xs| && 0 <= j < |ys|
      ensures xs[i] != ys[j]
    {
      assert rs[i] == xs[i] && rs[|xs| + j] == ys[j];
    }
  }

  /** What a step of Clone may assume and must keep: the copies so far are right, the
      originals are as they were, and `todo` are originals that are not copied yet. */
  ghost predicate Ready(m: Copies, todo: seq<ResultArg>, links: Links)
    reads m.Keys, m.Values, links.Keys
  {
    && Copied(m) && m.Keys <= links.Keys && links.Keys !! m.Values && Kept(links)
    && Distinct(todo) && ToSet(todo) !! m.Keys && ToSet(todo) <= links.Keys && Backward(todo, m.Keys, links)
  }

  /** The copies of `todo` were added. */
  ghost predicate Grown(m: Copies, n: Copies, todo: seq<ResultArg>, links: Links)
    reads n.Keys, n.Values, links.Keys
  {
    && Copied(n) && n.Keys == m.Keys + ToSet(todo) && Extends(m, n) && m.Values <= n.Values
    && links.Keys !! n.Values && Kept(links)
  }

  /** Copied, in terms of a snapshot of originals and copies. */
  ghost predicate CopiedIn(m: Copies, now: map<ResultArg, Fields>) {
    && m.Keys <= now.Keys && m.Values <= now.Keys && m.Keys !! m.Values && Injective(m)
    && forall x :: x in m ==> CopyIn(m, now, x)
  }

  ghost predicate CopyIn(m: Copies, now: map<ResultArg, Fields>, x: ResultArg)
    requires x in m && m.Keys <= now.Keys && m.Values <= now.Keys
  {
    var fx, fy := now[x], now[m[x]];
    && fy.typ == fx.typ && fy.opDiv == fx.opDiv && fy.opAdd == fx.opAdd && fy.val == fx.val
    && (fx.res != null ==> fx.res in m)
    && fy.res == (if fx.res == null then null else m[fx.res])
    && fy.uses <= m.Values
    && (forall z :: z in m ==> (m[z] in fy.uses <==> now[z].res == x))
  }

  /** The snapshot holds the contents of all originals and copies. */
  ghost predicate Shot(m: Copies, now: map<ResultArg, Fields>)
    reads m.Keys, m.Values
  {
    && (forall x :: x in m ==> x in now && now[x] == x.Now())
    && (forall y :: y in m.Values ==> y in now && now[y] == y.Now())
  }

  lemma {:induction false} CopiedShot(m: Copies, now: map<ResultArg, Fields>)
    requires Shot(m, now)
    ensures Copied(m) <==> CopiedIn(m, now)
  {
    forall x | x in m
      ensures IsCopy(m, x, m[x]) <==> (m.Keys <= now.Keys && m.Values <= now.Keys && CopyIn(m, now, x))
    {
      assert m[x] in m.Values && now[x] == x.Now() && now[m[x]] == m[x].Now();
      forall z | z in m ensures now[z].res == z.res { assert now[z] == z.Now(); }
    }
  }

  /** One more copy: `a1` has the contents of `a`, and the copy of its referent has one user more. */
  ghost predicate OneCopy(m: Copies, before: map<ResultArg, Fields>, after: map<ResultArg, Fields>, a: ResultArg,
      a1: ResultArg) {
    && a in before && a !in m && a !in m.Values && a1 !in before && after.Keys == before.Keys + {a1}
    && (before[a].res == null || before[a].res in m)
    && var r := if before[a].res == null then null else m[before[a].res];
       && after[a1] == before[a].(res := r, uses := {})
       && forall x :: x in before ==>
            after[x] == if x == r then before[x].(uses := before[x].uses + {a1}) else before[x]
  }

  /** The copies made before are still right. */
  lemma {:induction false} StillCopy(m: Copies, before: map<ResultArg, Fields>, after: map<ResultArg, Fields>,
      a: ResultArg, a1: ResultArg,
                                     x: ResultArg)
    requires CopiedIn(m, before) && OneCopy(m, before, after, a, a1) && x in m
    requires m[a := a1].Keys == m.Keys + {a} && m[a := a1].Values == m.Values + {a1}
    ensures CopyIn(m[a := a1], after, x)
  {
    var n := m[a := a1];
    assert CopyIn(m, before, x);
    assert n[x] == m[x];
    forall z | z in n ensures n[z] in after[n[x]].uses <==> after[z].res == x {
      if z != a { assert n[z] == m[z] && m[z] != a1; }
    }
  }

  lemma {:induction false} CopiedMore(m: Copies, before: map<ResultArg, Fields>, after: map<ResultArg, Fields>,
      a: ResultArg, a1: ResultArg)
    requires CopiedIn(m, before) && OneCopy(m, before, after, a, a1)
    ensures CopiedIn(m[a := a1], after)
  {
    var n := m[a := a1];
    OneMore(m, a, a1);
    forall x | x in m ensures CopyIn(n, after, x) { StillCopy(m, before, after, a, a1, x); }
    forall z | z in n ensures after[z].res != a {
      if z in m { assert CopyIn(m, before, z); }
    }
    assert CopyIn(n, after, a);
  }

  lemma {:induction false} OneMore(m: Copies, a: ResultArg, a1: ResultArg)
    requires a !in m
    ensures m[a := a1].Keys == m.Keys + {a} && m[a := a1].Values == m.Values + {a1} && Extends(m, m[a := a1])
  {
    var n := m[a := a1];
    forall y | y in m.Values ensures y in n.Values {
      var x: ResultArg :| x in m && m[x] == y;
      assert n[x] == y;
    }
    assert n[a] == a1;
  }

  /** A copy of `a` that refers to `r`, and is entered among its users. */
  method CopyOne(a: ResultArg, r: ResultArg?) returns (a1: ResultArg)
    requires r != a
    modifies r
    ensures fresh(a1) && a1.Now() == old(a.Now()).(res := r, uses := {})
    ensures r != null ==> r.Now() == old(r.Now()).(uses := old(r.uses) + {a1})
  {
    a1 := new ResultArg(a.typ, a.val);
    a1.opDiv, a1.opAdd, a1.res := a.opDiv, a.opAdd, r;
    if r != null {
      r.uses := r.uses + {a1};
    }
  }

  method CloneResult(a: ResultArg, m: Copies) returns (ok: bool, a1: ResultArg, n: Copies)
    requires Copied(m) && a !in m && a !in m.Values
    modifies m.Values
    ensures ok <==> a.res == null || a.res in m
    ensures ok ==> Copied(n) && n.Keys == m.Keys + {a} && Extends(m, n) && n[a] == a1
    ensures ok ==> fresh(a1) && n.Values == m.Values + {a1}
  {
    ghost var before := map x | x in m.Keys + m.Values + {a} :: x.Now();
    CopiedShot(m, before);
    if a.res != null && a.res !in m {
      return false, a, m; // nil dereference
    }
    var r := if a.res == null then null else m[a.res];
    a1 := CopyOne(a, r);
    ok, n := true, m[a := a1];
    OneMore(m, a, a1);
    ghost var after := map x | x in m.Keys + m.Values + {a, a1} :: x.Now();
    assert OneCopy(m, before, after, a, a1);
    CopiedMore(m, before, after, a, a1);
    CopiedShot(n, after);
  }

  method CloneArg(a: ArgNode, m: Copies, ghost links: Links) returns (ok: bool, a1: ArgNode, n: Copies)
    requires Ready(m, Flat(a), links)
    modifies m.Values
    ensures ok <==> NoSelf(Flat(a), links)
    ensures ok ==> Grown(m, n, Flat(a), links) && fresh(n.Values - m.Values) && a1 == Rename(a, n)
    decreases a, 0
  {
    match a
    case ResultNode(r) =>
      assert ToSet(Flat(a)) == {r} && r in ToSet(Flat(a));
      var r1;
      ok, r1, n := CloneResult(r, m);
      a1 := ResultNode(r1);
    case PointerNode(t, addr, size, res) =>
      ok, a1, n := true, a, m;
      assert m.Keys + ToSet([]) == m.Keys;
      if res.Some? {
        var inner;
        ok, inner, n := CloneArg(res.value, m, links);
        a1 := PointerNode(t, addr, size, Some(inner));
      }
    case GroupNode(t, inner) =>
      var inner1;
      ok, inner1, n := CloneSeq(inner, m, links);
      a1 := GroupNode(t, inner1);
    case UnionNode(t, option) =>
      var option1;
      ok, option1, n := CloneArg(option, m, links);
      a1 := UnionNode(t, option1);
    case _ =>
      ok, a1, n := true, a, m;
      assert m.Keys + ToSet([]) == m.Keys;
  }

  /** `rest` can be copied once `first` is. */
  ghost predicate ReadyLater(m: Copies, first: seq<ResultArg>, rest: seq<ResultArg>, links: Links) {
    && m.Keys <= links.Keys && ToSet(first) <= links.Keys
    && Distinct(rest) && ToSet(rest) !! m.Keys + ToSet(first) && ToSet(rest) <= links.Keys
    && Backward(rest, m.Keys + ToSet(first), links)
  }

  lemma {:induction false} ReadyNext(m: Copies, n: Copies, first: seq<ResultArg>, rest: seq<ResultArg>, links: Links)
    requires ReadyLater(m, first, rest, links) && Grown(m, n, first, links)
    ensures Ready(n, rest, links)
  {
  }

  lemma {:induction false} ReadySplit(m: Copies, first: seq<ResultArg>, rest: seq<ResultArg>, links: Links)
    requires Ready(m, first + rest, links)
    ensures Ready(m, first, links)
    ensures ReadyLater(m, first, rest, links)
    ensures NoSelf(first + rest, links) <==> NoSelf(first, links) && NoSelf(rest, links)
  {
    BackwardSplit(first, rest, m.Keys, links);
    DistinctSplit(first, rest);
    assert ToSet(first + rest) == ToSet(first) + ToSet(rest);
  }

  lemma {:induction false} GrownTrans(m: Copies, mid: Copies, n: Copies, first: seq<ResultArg>, rest: seq<ResultArg>,
      links: Links)
    requires mid.Keys == m.Keys + ToSet(first) && Extends(m, mid) && m.Values <= mid.Values
    requires Grown(mid, n, rest, links)
    ensures Grown(m, n, first + rest, links)
  {
    assert ToSet(first + rest) == ToSet(first) + ToSet(rest);
  }

  method CloneSeq(args: seq<ArgNode>, m: Copies, ghost links: Links) returns (ok: bool, args1: seq<ArgNode>, n: Copies)
    requires Ready(m, FlatSeq(args), links)
    modifies m.Values
    ensures ok <==> NoSelf(FlatSeq(args), links)
    ensures ok ==> Grown(m, n, FlatSeq(args), links) && fresh(n.Values - m.Values) && args1 == RenameSeq(args, n)
    decreases args, 1
  {
    ok, args1, n := true, [], m;
    if args == [] {
      assert m.Keys + ToSet([]) == m.Keys;
    } else {
      ghost var first, rest := Flat(args[0]), FlatSeq(args[1..]);
      ReadySplit(m, first, rest, links);
      var one, more;
      ok, one, n := CloneArg(args[0], m, links);
      if ok {
        ReadyNext(m, n, first, rest, links);
        ghost var mid := n;
        ok, more, n := CloneSeq(args[1..], n, links);
        args1 := [one] + more;
        if ok {
          RenameExtends(args[0], mid, n);
          GrownTrans(m, mid, n, first, rest, links);
        }
      }
    }
  }

  // ----- calls and programs -----

  lemma {:induction false} BackwardMore(rs: seq<ResultArg>, known: set<ResultArg>, more: set<ResultArg>, links: Links)
    requires Backward(rs, known, links) && known <= more
    ensures Backward(rs, more, links)
    decreases rs
  {
    if rs != [] { BackwardMore(rs[1..], known + {rs[0]}, more + {rs[0]}, links); }
  }

  method CloneCall(c: CallNode, m: Copies, ghost links: Links) returns (ok: bool, c1: CallNode, n: Copies)
    requires Ready(m, FlatCall(c), links)
    requires c.ret.Some? ==> c.ret.value in links && links[c.ret.value] == null
    modifies m.Values
    ensures ok <==> NoSelf(FlatCall(c), links)
    ensures ok ==> Grown(m, n, FlatCall(c), links) && fresh(n.Values - m.Values) && c1 == RenameCall(c, n)
  {
    var args1;
    if c.ret.None? {
      assert FlatCall(c) == FlatSeq(c.args);
      ok, args1, n := CloneSeq(c.args, m, links);
      c1 := CallNode(c.meta, args1, None);
    } else {
      var ret := c.ret.value;
      RetFirst(m, FlatSeq(c.args), ret, links);
      var r1, mid;
      ok, r1, mid := CloneResult(ret, m);
      RetReady(m, mid, FlatSeq(c.args), ret, links);
      ok, args1, n := CloneSeq(c.args, mid, links);
      c1 := CallNode(c.meta, args1, Some(r1));
      assert ToSet(FlatCall(c)) == ToSet(FlatSeq(c.args)) + {ret};
    }
  }

  /** The return value can be copied before the arguments although validate visits it last. */
  lemma {:induction false} RetFirst(m: Copies, args: seq<ResultArg>, ret: ResultArg, links: Links)
    requires Ready(m, args + [ret], links) && ret in links && links[ret] == null
    ensures ret !in m && ret !in m.Values && ret !in args
    ensures Distinct(args) && ToSet(args) !! m.Keys && ToSet(args) <= links.Keys
    ensures Backward(args, m.Keys + {ret}, links)
    ensures NoSelf(args + [ret], links) <==> NoSelf(args, links)
  {
    ReadySplit(m, args, [ret], links);
    assert ret in ToSet(args + [ret]) && ret in ToSet([ret]);
    BackwardMore(args, m.Keys, m.Keys + {ret}, links);
  }

  lemma {:induction false} RetReady(m: Copies, mid: Copies, args: seq<ResultArg>, ret: ResultArg, links: Links)
    requires Copied(mid) && mid.Keys == m.Keys + {ret} && links.Keys !! mid.Values && Kept(links)
    requires m.Keys <= links.Keys && ret in links && ret !in args
    requires Distinct(args) && ToSet(args) !! m.Keys && ToSet(args) <= links.Keys
    requires Backward(args, m.Keys + {ret}, links)
    ensures Ready(mid, args, links)
  {
  }

  method CloneCalls(calls: seq<CallNode>, m: Copies, ghost links: Links)
    returns (ok: bool, calls1: seq<CallNode>, n: Copies)
    requires Ready(m, FlatProg(calls), links)
    requires forall r :: r in Rets(calls) ==> r in links && links[r] == null
    modifies m.Values
    ensures ok <==> NoSelf(FlatProg(calls), links)
    ensures ok ==> Grown(m, n, FlatProg(calls), links) && fresh(n.Values - m.Values) && calls1 == RenameCalls(calls, n)
    decreases |calls|
  {
    ok, calls1, n := true, [], m;
    if calls == [] {
      assert m.Keys + ToSet([]) == m.Keys;
    } else {
      ghost var first, rest := FlatCall(calls[0]), FlatProg(calls[1..]);
      ReadySplit(m, first, rest, links);
      assert calls[0].ret.Some? ==> calls[0].ret.value in Rets(calls);
      var one, more;
      ok, one, n := CloneCall(calls[0], m, links);
      if ok {
        ReadyNext(m, n, first, rest, links);
        ghost var mid := n;
        ok, more, n := CloneCalls(calls[1..], n, links);
        calls1 := [one] + more;
        if ok {
          RenameCallExtends(calls[0], mid, n);
          GrownTrans(m, mid, n, first, rest, links);
        }
      }
    }
  }

  lemma {:induction false} RenameCallExtends(c: CallNode, m: Copies, n: Copies)
    requires Extends(m, n) && forall r :: r in FlatCall(c) ==> r in m
    ensures RenameCall(c, n) == RenameCall(c, m)
  {
    assert c.ret.Some? ==> c.ret.value in FlatCall(c);
    RenameSeqExtends(c.args, m, n);
  }

  lemma {:induction false} LinkedBackward(rs: seq<ResultArg>, done: nat, links: Links)
    requires done <= |rs| && Linked(rs) && Kept(links) && ToSet(rs) <= links.Keys
    ensures Backward(rs[done..], ToSet(rs[..done]), links)
    decreases |rs| - done
  {
    if done < |rs| {
      LinkedBackward(rs, done + 1, links);
      assert rs[done] in ToSet(rs);
      assert ToSet(rs[..done + 1]) == ToSet(rs[..done]) + {rs[done]};
      assert rs[done..][1..] == rs[done + 1..];
      assert rs[done].res != null ==> rs[done].res in ToSet(rs[..done + 1]);
    }
  }

  /** `m` is an isomorphism from the results of `rs` onto their clones, links and users included. */
  ghost predicate Isomorphic(rs: seq<ResultArg>, m: Copies)
    reads rs, m.Values
  {
    && m.Keys == ToSet(rs)
    && Injective(m)
    && forall x :: x in rs && x in m ==>
         var y := m[x];
         && y.typ == x.typ && y.opDiv == x.opDiv && y.opAdd == x.opAdd && y.val == x.val
         && (x.res == null ==> y.res == null)
         && (x.res != null ==> x.res in m && y.res == m[x.res])
         && x.uses <= m.Keys && y.uses == set u | u in x.uses && u in m :: m[u]
  }

  lemma {:induction false} CopiedIsomorphic(rs: seq<ResultArg>, m: Copies)
    requires Linked(rs) && Copied(m) && m.Keys == ToSet(rs)
    ensures Isomorphic(rs, m)
  {
    forall x | x in rs && x in m
      ensures x.uses <= m.Keys && m[x].uses == set u | u in x.uses && u in m :: m[u]
    {
      UsesAreCopies(rs, m, x);
    }
    forall x | x in m ensures IsCopy(m, x, m[x]) { }
  }

  lemma {:induction false} UsesAreCopies(rs: seq<ResultArg>, m: Copies, x: ResultArg)
    requires Linked(rs) && Copied(m) && m.Keys == ToSet(rs) && x in rs
    ensures x.uses <= m.Keys && m[x].uses == set u | u in x.uses && u in m :: m[u]
  {
    assert x in m && IsCopy(m, x, m[x]);
    var i :| 0 <= i < |rs| && rs[i] == x;
    assert x.uses <= m.Keys;
    forall u | u in m ensures u in x.uses <==> u.res == x {
      var j :| 0 <= j < |rs| && rs[j] == u;
      assert u.res == x ==> rs[j] in x.uses;
    }
    forall y | y in m[x].uses ensures exists u :: u in x.uses && u in m && y == m[u] {
      assert y in m.Values;
      var u :| u in m && m[u] == y;
    }
  }

  /** Clone of a valid program: it succeeds exactly when no argument refers to itself (which
      validate does not rule out); then the clone is isomorphic, shares no result argument
      with the original, and the original is untouched. */
  method Clone(calls: seq<CallNode>, ghost links: Links) returns (ok: bool, calls1: seq<CallNode>, ghost m: Copies)
    requires Valid(calls) && links.Keys == ToSet(FlatProg(calls)) && Kept(links)
    ensures ok <==> forall r :: r in FlatProg(calls) ==> r.res != r
    ensures ok ==> Isomorphic(FlatProg(calls), m) && calls1 == RenameCalls(calls, m)
    ensures ok ==> fresh(m.Values) && Kept(links)
  {
    ghost var rs := FlatProg(calls);
    var none: Copies := map[];
    StartReady(calls, links, none);
    ghost var before := map r | r in ToSet(rs) :: r.Now();
    SnapshotLinked(rs, before);
    var n;
    ok, calls1, n := CloneCalls(calls, none, links);
    m := n;
    if ok {
      GrownFromNothing(none, n, rs, links);
      SnapshotLinkedBack(rs, before);
      CopiedIsomorphic(rs, n);
    }
    SelfIs(rs, links);
  }

  lemma {:induction false} SelfIs(rs: seq<ResultArg>, links: Links)
    requires links.Keys == ToSet(rs) && Kept(links)
    ensures NoSelf(rs, links) <==> forall r :: r in rs ==> r.res != r
  {
    assert forall r :: r in rs ==> r in ToSet(rs);
  }

  lemma {:induction false} GrownFromNothing(none: Copies, n: Copies, rs: seq<ResultArg>, links: Links)
    requires Grown(none, n, rs, links) && none == map[]
    ensures Copied(n) && n.Keys == ToSet(rs) && Kept(links)
  {
    assert none.Keys == {};
  }

  lemma {:induction false} StartReady(calls: seq<CallNode>, links: Links, none: Copies)
    requires Valid(calls) && links.Keys == ToSet(FlatProg(calls)) && Kept(links) && none == map[]
    ensures Ready(none, FlatProg(calls), links)
    ensures forall r :: r in Rets(calls) ==> r in links && links[r] == null
  {
    var rs := FlatProg(calls);
    LinkedBackward(rs, 0, links);
    assert rs[0..] == rs && ToSet(rs[..0]) == {};
    forall r | r in Rets(calls) ensures r in links { RetsInTree(calls, r); }
    assert none.Keys == {} && none.Values == {};
  }

  /** One call whose only argument refers to itself. */
  lemma {:induction false} SelfLinked(calls: seq<CallNode>, r: ResultArg, t: Type)
    requires calls == [CallNode(Syscall(0, "f", [t], None), [ResultNode(r)], None)] && r.res == r && r.uses == {r}
    ensures FlatProg(calls) == [r] && Rets(calls) == [] && Valid(calls)
  {
    assert calls[1..] == [] && [ResultNode(r)][1..] == [];
    assert FlatSeq([ResultNode(r)]) == [r];
    assert [r][..1] == [r];
    assert Linked([r]);
  }

  /** validate accepts a self-reference, which Clone cannot copy. */
  method SelfReferenceIsValid(t: Type) returns (calls: seq<CallNode>, ok: bool)
    ensures Valid(calls) && (exists r :: r in FlatProg(calls) && r.res == r) && !ok
  {
    var r := new ResultArg(t, 0);
    r.res, r.uses := r, {r};
    calls := [CallNode(Syscall(0, "f", [t], None), [ResultNode(r)], None)];
    SelfLinked(calls, r, t);
    ghost var links: Links := map[r := r];
    assert r in FlatProg(calls) && links.Keys == ToSet(FlatProg(calls));
    var calls1;
    ghost var m;
    ok, calls1, m := Clone(calls, links);
  }
}
