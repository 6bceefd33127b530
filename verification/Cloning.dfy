/**
  Cloning programs as values (prog/clone.go).

  The source looks the copy of a referent up in a map of the results copied so far and
  dereferences what it finds.  Here the map is the set of places copied so far; a place that is
  not in it is the nil dereference.  Edits keep programs that can be cloned so.
 */
module Cloning {
  import opened Ir
  import opened Defaults
  import opened Sizes
  import opened ArgEdit

  function RefOf(a: Arg): Option<Loc> {
    if a.ResultArg? then a.ref else None
  }

  /** The reference is to a result copied before ordinal `k` of call `c`: the return value of a
      call is copied before its arguments. */
  predicate Copied(p: Program, l: Loc, c: nat, k: nat) {
    Exists(p, l) && (l.call < c || (l.call == c && l.idx < k))
  }

  /** Every result refers to one that was copied before it. */
  ghost predicate Clonable(p: Program) {
    forall c | 0 <= c < |p| :: CallClonable(p, c, ResultsSeq(p[c].args))
  }

  /** `rs` are the results of call `c` other than the return value. */
  ghost predicate CallClonable(p: Program, c: nat, rs: seq<Arg>) {
    forall j | 0 <= j < |rs| :: RefOf(rs[j]).Some? ==> Copied(p, RefOf(rs[j]).value, c, j + 1)
  }

  // ----- clone -----

  /** References of the results `rs`, which stand at ordinal `k` of call `c` and on, are known. */
  ghost predicate Known(seen: set<Loc>, c: nat, k: nat, rs: seq<Arg>) {
    forall j | 0 <= j < |rs| :: RefOf(rs[j]).Some? ==> RefOf(rs[j]).value in seen + Block(c, k, j)
  }

  /** `n` results of call `c` from ordinal `k` on. */
  ghost function Block(c: nat, k: nat, n: nat): set<Loc> {
    set i | k <= i < k + n :: Loc(c, i)
  }

  lemma {:induction false} KnownJoin(seen: set<Loc>, c: nat, k: nat, r: seq<Arg>, s: seq<Arg>)
    ensures Known(seen, c, k, r + s) <==> Known(seen, c, k, r) && Known(seen + Block(c, k, |r|), c, k + |r|, s)
  {
    var rs, after := r + s, seen + Block(c, k, |r|);
    if Known(seen, c, k, rs) {
      forall j | 0 <= j < |r| && RefOf(r[j]).Some? ensures RefOf(r[j]).value in seen + Block(c, k, j) {
        assert rs[j] == r[j];
      }
      forall j | 0 <= j < |s| && RefOf(s[j]).Some? ensures RefOf(s[j]).value in after + Block(c, k + |r|, j) {
        assert rs[|r| + j] == s[j];
      }
    }
    if Known(seen, c, k, r) && Known(after, c, k + |r|, s) {
      forall j | 0 <= j < |rs| && RefOf(rs[j]).Some? ensures RefOf(rs[j]).value in seen + Block(c, k, j) {
        if j >= |r| { assert rs[j] == s[j - |r|]; }
      }
    }
  }

  /** clone.  `seen` are the results copied so far. */
  method CloneArg(a: Arg, c: nat, k: nat, seen: set<Loc>) returns (r: Option<Arg>, after: set<Loc>)
    ensures r == if Known(seen, c, k, Results(a)) then Some(a) else None
    ensures r.Some? ==> after == seen + Block(c, k, NumResults(a))
    decreases a, 1
  {
    r, after := Some(a), seen;
    match a {
      case PointerArg(t, address, vmaSize, res) =>
        if res.Some? {
          r, after := CloneArg(res.value, c, k, seen);
          r := if r.Some? then Some(PointerArg(t, address, vmaSize, r)) else None;
        }
      case GroupArg(t, inner) =>
        var args;
        args, after := CloneArgs(inner, c, k, seen);
        r := if args.Some? then Some(GroupArg(t, args.value)) else None;
      case UnionArg(t, option) =>
        r, after := CloneArg(option, c, k, seen);
        r := if r.Some? then Some(UnionArg(t, r.value)) else None;
      case ResultArg(_, ref, _, _, _) =>
        assert Block(c, k, 0) == {} && Block(c, k, 1) == {Loc(c, k)} && Results(a)[0] == a;
        if ref.Some? && ref.value !in seen {
          return None, seen;
        }
        after := seen + {Loc(c, k)};
      case _ =>
    }
  }

  method CloneArgs(args: seq<Arg>, c: nat, k: nat, seen: set<Loc>) returns (r: Option<seq<Arg>>, after: set<Loc>)
    ensures r == if Known(seen, c, k, ResultsSeq(args)) then Some(args) else None
    ensures r.Some? ==> after == seen + Block(c, k, NumResultsSeq(args))
    decreases args, 0
  {
    var copies: seq<Arg> := [];
    after := seen;
    var i, k1: nat := 0, k;
    while i < |args|
      invariant i <= |args| && CopiedUpto(args, i, seen, c, k, copies, k1, after)
    {
      Upto(args, i, seen, c, k);
      var one;
      one, after := CloneArg(args[i], c, k1, after);
      if one.None? {
        NotKnown(args, i + 1, seen, c, k);
        return None, after;
      }
      OneMore(args, i, seen, c, k, copies, k1);
      copies, i, k1 := copies + [one.value], i + 1, k1 + NumResults(args[i]);
    }
    assert args[..|args|] == args;
    r := Some(copies);
  }

  /** The first `i` arguments are copied. */
  ghost predicate CopiedUpto(args: seq<Arg>, i: nat, seen: set<Loc>, c: nat, k: nat, copies: seq<Arg>, k1: nat,
      after: set<Loc>)
    requires i <= |args|
  {
    && copies == args[..i] && k1 == k + NumResultsSeq(args[..i])
    && after == seen + Block(c, k, NumResultsSeq(args[..i]))
    && Known(seen, c, k, ResultsSeq(args[..i]))
  }

  lemma {:induction false} OneMore(args: seq<Arg>, i: nat, seen: set<Loc>, c: nat, k: nat, copies: seq<Arg>, k1: nat)
    requires i < |args| && CopiedUpto(args, i, seen, c, k, copies, k1, seen + Block(c, k, NumResultsSeq(args[..i])))
    requires Known(seen + Block(c, k, NumResultsSeq(args[..i])), c, k1, Results(args[i]))
    ensures CopiedUpto(args, i + 1, seen, c, k, copies + [args[i]], k1 + NumResults(args[i]),
                       (seen + Block(c, k, NumResultsSeq(args[..i]))) + Block(c, k1, NumResults(args[i])))
  {
    Upto(args, i, seen, c, k);
    var n := NumResultsSeq(args[..i]);
    UnionAssoc(seen, Block(c, k, n), Block(c, k1, NumResults(args[i])));
  }

  lemma {:induction false} UnionAssoc(a: set<Loc>, b: set<Loc>, c: set<Loc>)
    ensures (a + b) + c == a + (b + c)
  {
  }

  lemma {:induction false} NotKnown(args: seq<Arg>, i: nat, seen: set<Loc>, c: nat, k: nat)
    requires i <= |args| && !Known(seen, c, k, ResultsSeq(args[..i]))
    ensures !Known(seen, c, k, ResultsSeq(args))
  {
    ResultsJoin(args[..i], args[i..]);
    assert args[..i] + args[i..] == args;
    KnownJoin(seen, c, k, ResultsSeq(args[..i]), ResultsSeq(args[i..]));
  }

  /** One argument more. */
  lemma {:induction false} Upto(args: seq<Arg>, i: nat, seen: set<Loc>, c: nat, k: nat)
    requires i < |args|
    ensures args[..i + 1] == args[..i] + [args[i]]
    ensures NumResultsSeq(args[..i + 1]) == NumResultsSeq(args[..i]) + NumResults(args[i])
    ensures var n := NumResultsSeq(args[..i]);
      && Block(c, k, n + NumResults(args[i])) == Block(c, k, n) + Block(c, k + n, NumResults(args[i]))
      && (Known(seen, c, k, ResultsSeq(args[..i + 1])) <==>
          Known(seen, c, k, ResultsSeq(args[..i])) && Known(seen + Block(c, k, n), c, k + n, Results(args[i])))
  {
    assert args[..i + 1] == args[..i] + [args[i]];
    ResultsJoin(args[..i], [args[i]]);
    assert [args[i]][1..] == [] && Results(args[i]) + [] == Results(args[i]);
    ResultsCountSeq(args[..i]);
    ResultsCountSeq(args[..i + 1]);
    ResultsCount(args[i]);
    KnownJoin(seen, c, k, ResultsSeq(args[..i]), Results(args[i]));
  }

  /** Prog.Clone: it fails exactly when a result refers to one that is not copied before it. */
  method CloneProg(p: Program) returns (r: Option<Program>)
    ensures r == if Clonable(p) then Some(p) else None
  {
    var seen: set<Loc> := {};
    var calls: Program := [];
    for c := 0 to |p|
      invariant calls == p[..c]
      invariant forall l :: l in seen <==> Exists(p, l) && l.call < c
      invariant forall d | 0 <= d < c :: CallClonable(p, d, ResultsSeq(p[d].args))
    {
      if p[c].ret.Some? {
        seen := seen + {Loc(c, 0)};
      }
      KnownIsClonable(p, c, seen);
      var args;
      args, seen := CloneArgs(p[c].args, c, 1, seen);
      if args.None? {
        return None;
      }
      calls := calls + [Call(p[c].meta, args.value, p[c].ret)];
    }
    assert p[..|p|] == p;
    r := Some(calls);
  }

  lemma {:induction false} KnownIsClonable(p: Program, c: nat, seen: set<Loc>)
    requires c < |p|
    requires forall l :: l in seen <==> Exists(p, l) && (l.call < c || l == Loc(c, 0))
    ensures Known(seen, c, 1, ResultsSeq(p[c].args)) <==> CallClonable(p, c, ResultsSeq(p[c].args))
  {
    var rs := ResultsSeq(p[c].args);
    ResultsCountSeq(p[c].args);
    forall j | 0 <= j < |rs| && RefOf(rs[j]).Some?
      ensures RefOf(rs[j]).value in seen + Block(c, 1, j) <==> Copied(p, RefOf(rs[j]).value, c, j + 1)
    {
      var l := RefOf(rs[j]).value;
      assert l in Block(c, 1, j) <==> l.call == c && 1 <= l.idx < 1 + j;
    }
  }

  // ----- valid programs -----

  /** Result `j` of call `c` refers to itself. */
  predicate SelfAt(p: Program, c: nat, j: nat)
    requires c < |p|
  {
    var rs := ResultsSeq(p[c].args);
    j < |rs| && RefOf(rs[j]) == Some(Loc(c, j + 1))
  }

  ghost predicate NoSelf(p: Program) {
    forall c, j: nat | 0 <= c < |p| :: !SelfAt(p, c, j)
  }

  lemma {:induction false} LinksOkAt(a: Arg, c: nat, k: nat, j: nat)
    requires LinksOk(a, c, k) && j < |Results(a)| && RefOf(Results(a)[j]).Some?
    ensures var l := RefOf(Results(a)[j]).value; Before(l, c, k + j) || l == Loc(c, k + j)
    decreases a, 1
  {
    match a
    case PointerArg(_, _, _, res) => if res.Some? { LinksOkAt(res.value, c, k, j); }
    case GroupArg(_, inner) => LinksOkAtSeq(inner, c, k, j);
    case UnionArg(_, option) => LinksOkAt(option, c, k, j);
    case _ =>
  }

  lemma {:induction false} LinksOkAtSeq(args: seq<Arg>, c: nat, k: nat, j: nat)
    requires LinksOkSeq(args, c, k) && j < |ResultsSeq(args)| && RefOf(ResultsSeq(args)[j]).Some?
    ensures var l := RefOf(ResultsSeq(args)[j]).value; Before(l, c, k + j) || l == Loc(c, k + j)
    decreases args, 0
  {
    ResultsCount(args[0]);
    var n := NumResults(args[0]);
    if j < n {
      LinksOkAt(args[0], c, k, j);
    } else {
      assert ResultsSeq(args)[j] == ResultsSeq(args[1..])[j - n];
      LinksOkAtSeq(args[1..], c, k + n, j - n);
    }
  }

  lemma {:induction false} RefInRefs(a: Arg, j: nat)
    requires j < |Results(a)| && RefOf(Results(a)[j]).Some?
    ensures RefOf(Results(a)[j]).value in Refs(a)
    decreases a, 1
  {
    match a
    case PointerArg(_, _, _, res) => if res.Some? { RefInRefs(res.value, j); }
    case GroupArg(_, inner) => RefInRefsSeq(inner, j);
    case UnionArg(_, option) => RefInRefs(option, j);
    case _ =>
  }

  lemma {:induction false} RefInRefsSeq(args: seq<Arg>, j: nat)
    requires j < |ResultsSeq(args)| && RefOf(ResultsSeq(args)[j]).Some?
    ensures RefOf(ResultsSeq(args)[j]).value in RefsSeq(args)
    decreases args, 0
  {
    ResultsCount(args[0]);
    var n := NumResults(args[0]);
    if j < n {
      RefInRefs(args[0], j);
    } else {
      assert ResultsSeq(args)[j] == ResultsSeq(args[1..])[j - n];
      RefInRefsSeq(args[1..], j - n);
    }
  }

  lemma {:induction false} RefsOfCall(p: Program, c: nat)
    requires c < |p|
    ensures RefsSeq(p[c].args) <= RefsProg(p)
  {
    if c > 0 { RefsOfCall(p[1..], c - 1); }
  }

  /** A valid program can be cloned if and only if no result refers to itself. */
  lemma {:induction false} ValidClonable(tgt: Target, p: Program)
    requires ValidProg(tgt, p)
    ensures Clonable(p) <==> NoSelf(p)
  {
    forall c, j: nat | 0 <= c < |p| && j < |ResultsSeq(p[c].args)| && RefOf(ResultsSeq(p[c].args)[j]).Some?
      ensures Copied(p, RefOf(ResultsSeq(p[c].args)[j]).value, c, j + 1) <==> !SelfAt(p, c, j)
    {
      assert ValidCall(tgt, p[c], c);
      LinksOkAtSeq(p[c].args, c, 1, j);
      RefInRefsSeq(p[c].args, j);
      RefsOfCall(p, c);
      assert Exists(p, RefOf(ResultsSeq(p[c].args)[j]).value);
    }
    if Clonable(p) {
      forall c, j: nat | 0 <= c < |p| ensures !SelfAt(p, c, j) {
        assert CallClonable(p, c, ResultsSeq(p[c].args));
      }
    }
    if NoSelf(p) {
      forall c | 0 <= c < |p| ensures CallClonable(p, c, ResultsSeq(p[c].args)) {
        forall j | 0 <= j < |ResultsSeq(p[c].args)| && RefOf(ResultsSeq(p[c].args)[j]).Some?
          ensures Copied(p, RefOf(ResultsSeq(p[c].args)[j]).value, c, j + 1) { assert !SelfAt(p, c, j); }
      }
    }
  }

  /** A valid program that cannot be cloned: the only argument refers to itself. */
  lemma {:induction false} SelfReferenceFails()
    ensures exists tgt, p :: ValidProg(tgt, p) && !Clonable(p)
  {
    var t := ResourceT(Common("fd", "a", 4, DirIn, false, false), Native, 0);
    var meta := Syscall(0, "f", [t], None);
    var tgt := Target(4096, 4, 0, [0], [meta], []);
    var a := ResultArg(t, Some(Loc(0, 1)), 0, 0, 0);
    var p := [Call(meta, [a], None)];
    assert [a][1..] == [] && [t][1..] == [] && p[1..] == [];
    assert ValidArg(tgt, a, t) && ValidSeq(tgt, [a][1..], Fields([t][1..]));
    assert ValidSeq(tgt, [a], Fields([t]));
    assert LinksOk(a, 0, 1) && LinksOkSeq([a][1..], 0, 2);
    assert LinksOkSeq([a], 0, 1);
    assert RefsProg(p) == {Loc(0, 1)} by { assert RefsSeq([a]) == {Loc(0, 1)}; }
    assert NumResultsSeq([a]) == 1 by { assert NumResultsSeq([a][1..]) == 0; }
    assert ValidProg(tgt, p);
    assert ResultsSeq([a]) == [a] by { assert ResultsSeq([a][1..]) == []; }
    assert SelfAt(p, 0, 0);
    ValidClonable(tgt, p);
  }

  // ----- edits keep programs that can be cloned so -----

  /** The results `s` refer to nothing that the results `r` at the same places do not. */
  ghost predicate NoNewRefs(r: seq<Arg>, s: seq<Arg>) {
    |s| == |r| && forall j | 0 <= j < |s| :: RefOf(s[j]).Some? ==> RefOf(s[j]) == RefOf(r[j])
  }

  /** Another list of arguments for a call, with as many results and no new references. */
  lemma {:induction false} SetArgsClonable(p: Program, c: nat, args: seq<Arg>)
    requires c < |p| && Clonable(p) && NoNewRefs(ResultsSeq(p[c].args), ResultsSeq(args))
    ensures Clonable(p[c := p[c].(args := args)])
  {
    var q := p[c := p[c].(args := args)];
    ResultsCountSeq(p[c].args);
    ResultsCountSeq(args);
    forall d | 0 <= d < |q| ensures CallClonable(q, d, ResultsSeq(q[d].args)) {
      assert CallClonable(p, d, ResultsSeq(p[d].args));
      forall l, k | Copied(p, l, d, k) ensures Copied(q, l, d, k) {}
    }
  }

  lemma {:induction false} MappedResults(f: Loc -> Option<Loc>, a: Arg)
    ensures |Results(MapRefs(f, a))| == |Results(a)|
    ensures forall j | 0 <= j < |Results(a)| :: Results(MapRefs(f, a))[j] == MapRefs(f, Results(a)[j])
    decreases a, 1
  {
    match a
    case PointerArg(_, _, _, res) => if res.Some? { MappedResults(f, res.value); }
    case UnionArg(_, option) => MappedResults(f, option);
    case GroupArg(_, inner) => MappedResultsSeq(f, inner);
    case _ =>
  }

  lemma {:induction false} MappedResultsSeq(f: Loc -> Option<Loc>, args: seq<Arg>)
    ensures |ResultsSeq(MapRefsSeq(f, args))| == |ResultsSeq(args)|
    ensures forall j | 0 <= j < |ResultsSeq(args)| ::
        ResultsSeq(MapRefsSeq(f, args))[j] == MapRefs(f, ResultsSeq(args)[j])
    decreases args, 0
  {
    if args != [] {
      MappedResults(f, args[0]);
      MappedResultsSeq(f, args[1..]);
      assert MapRefsSeq(f, args)[1..] == MapRefsSeq(f, args[1..]);
    }
  }

  lemma {:induction false} ResultsAre(args: seq<Arg>, j: nat)
    requires j < |ResultsSeq(args)|
    ensures ResultsSeq(args)[j].ResultArg?
    decreases args, 0
  {
    if j < |Results(args[0])| {
      ResultIs(args[0], j);
    } else {
      ResultsAre(args[1..], j - |Results(args[0])|);
    }
  }

  lemma {:induction false} ResultIs(a: Arg, j: nat)
    requires j < |Results(a)|
    ensures Results(a)[j].ResultArg?
    decreases a, 1
  {
    match a
    case PointerArg(_, _, _, res) => ResultIs(res.value, j);
    case UnionArg(_, option) => ResultIs(option, j);
    case GroupArg(_, inner) => ResultsAre(inner, j);
    case _ =>
  }

  /** `f` moves the results of `p` to places of `q`: what came before still does. */
  ghost predicate Moves(f: Loc -> Option<Loc>, p: Program, q: Program, c: nat, j: nat, d: nat, i: nat) {
    forall l | Copied(p, l, c, j + 1) && f(l).Some? :: Copied(q, f(l).value, d, i + 1)
  }

  /** References after a move: result `j` of call `c` in `p` stands at `i` of call `d` in `q`. */
  lemma {:induction false} MovedRef(f: Loc -> Option<Loc>, p: Program, q: Program, c: nat, j: nat, d: nat, i: nat,
      a: Arg)
    requires RefOf(a).Some? ==> Copied(p, RefOf(a).value, c, j + 1)
    requires Moves(f, p, q, c, j, d, i)
    ensures RefOf(MapRefs(f, a)).Some? ==> Copied(q, RefOf(MapRefs(f, a)).value, d, i + 1)
  {
  }

  /** removeCall keeps it. */
  lemma {:induction false} RemoveCallClonable(p: Program, c: nat)
    requires c < |p| && Clonable(p)
    ensures Clonable(RemoveCall(p, c))
  {
    var f, rest, q := WithoutCall(c), p[..c] + p[c + 1..], RemoveCall(p, c);
    forall d | 0 <= d < |q| ensures CallClonable(q, d, ResultsSeq(q[d].args)) {
      var e := if d < c then d else d + 1;
      assert q[d] == MapCall(f, p[e]);
      assert CallClonable(p, e, ResultsSeq(p[e].args));
      MappedResultsSeq(f, p[e].args);
      forall j | 0 <= j < |ResultsSeq(p[e].args)| && RefOf(ResultsSeq(q[d].args)[j]).Some?
        ensures Copied(q, RefOf(ResultsSeq(q[d].args)[j]).value, d, j + 1)
      {
        RemoveCallMoves(p, c, e, j);
        MovedRef(f, p, q, e, j, d, j, ResultsSeq(p[e].args)[j]);
      }
    }
  }

  lemma {:induction false} RemoveCallMoves(p: Program, c: nat, e: nat, j: nat)
    requires c < |p| && e < |p| && e != c
    ensures Moves(WithoutCall(c), p, RemoveCall(p, c), e, j, if e < c then e else e - 1, j)
  {
    var f, q := WithoutCall(c), RemoveCall(p, c);
    forall l | Copied(p, l, e, j + 1) && f(l).Some? ensures Copied(q, f(l).value, if e < c then e else e - 1, j + 1) {
      var m := f(l).value;
      assert q[m.call] == MapCall(f, p[l.call]);
      SameCount(f, p[l.call].args);
    }
  }

  lemma {:induction false} SameCount(f: Loc -> Option<Loc>, args: seq<Arg>)
    ensures NumResultsSeq(MapRefsSeq(f, args)) == NumResultsSeq(args)
  {
    MappedResultsSeq(f, args);
    ResultsCountSeq(args);
    ResultsCountSeq(MapRefsSeq(f, args));
  }

  /** Assigning sizes changes no result. */
  lemma {:induction false} OutlineResults(a: Arg)
    ensures Results(Outline(a)) == Results(a)
    decreases a, 1
  {
    match a
    case PointerArg(_, _, _, res) => if res.Some? { OutlineResults(res.value); }
    case UnionArg(_, option) => OutlineResults(option);
    case GroupArg(_, inner) => OutlineResultsSeq(inner);
    case _ =>
  }

  lemma {:induction false} OutlineResultsSeq(args: seq<Arg>)
    ensures ResultsSeq(OutlineSeq(args)) == ResultsSeq(args)
    decreases args, 0
  {
    if args != [] {
      OutlineResults(args[0]);
      OutlineResultsSeq(args[1..]);
      assert OutlineSeq(args)[1..] == OutlineSeq(args[1..]);
    }
  }

  /** Arguments of the same outline have the same results. */
  lemma {:induction false} SameResults(x: seq<Arg>, y: seq<Arg>)
    requires OutlineSeq(x) == OutlineSeq(y)
    ensures ResultsSeq(x) == ResultsSeq(y)
  {
    OutlineResultsSeq(x);
    OutlineResultsSeq(y);
  }

  /** What is gone from call `c`: its results were `pre`, `mid` and `post`, and `mid` goes. */
  ghost predicate TakesOut(p: Program, c: nat, args: seq<Arg>, pre: seq<Arg>, mid: seq<Arg>, post: seq<Arg>) {
    c < |p| && ResultsSeq(p[c].args) == pre + (mid + post) && ResultsSeq(args) == pre + post
  }

  function Without(p: Program, c: nat, args: seq<Arg>, at: nat, gone: nat): (r: Program)
    requires c < |p|
    ensures |r| == |p|
  {
    MapProg(WithoutResults(c, at + 1, gone), p[c := p[c].(args := args)])
  }

  /** Where result `i` of call `d` of the rest stood before. */
  function Stood(c: nat, at: nat, gone: nat, d: nat, i: nat): nat {
    if d != c || i < at then i else i + gone
  }

  lemma {:induction false} WithoutExists(p: Program, c: nat, args: seq<Arg>, pre: seq<Arg>, mid: seq<Arg>,
      post: seq<Arg>, l: Loc)
    requires TakesOut(p, c, args, pre, mid, post) && Exists(p, l)
    requires WithoutResults(c, |pre| + 1, |mid|)(l).Some?
    ensures Exists(Without(p, c, args, |pre|, |mid|), WithoutResults(c, |pre| + 1, |mid|)(l).value)
  {
    var f, q := WithoutResults(c, |pre| + 1, |mid|), Without(p, c, args, |pre|, |mid|);
    var m := f(l).value;
    var p1 := p[c := p[c].(args := args)];
    assert q[l.call] == MapCall(f, p1[l.call]);
    SameCount(f, p1[l.call].args);
    ResultsCountSeq(p[c].args);
    ResultsCountSeq(args);
  }

  lemma {:induction false} WithoutMoves(p: Program, c: nat, args: seq<Arg>, pre: seq<Arg>, mid: seq<Arg>,
      post: seq<Arg>, d: nat, i: nat)
    requires TakesOut(p, c, args, pre, mid, post)
    ensures Moves(WithoutResults(c, |pre| + 1, |mid|), p, Without(p, c, args, |pre|, |mid|), d,
        Stood(c, |pre|, |mid|, d, i), d, i)
  {
    var f, q := WithoutResults(c, |pre| + 1, |mid|), Without(p, c, args, |pre|, |mid|);
    forall l | Copied(p, l, d, Stood(c, |pre|, |mid|, d, i) + 1) && f(l).Some? ensures Copied(q, f(l).value, d, i + 1) {
      WithoutExists(p, c, args, pre, mid, post, l);
    }
  }

  /** The result that stands at `i` is the mapped one that stood at `Stood`. */
  lemma {:induction false} WithoutResult(p: Program, c: nat, args: seq<Arg>, pre: seq<Arg>, mid: seq<Arg>,
      post: seq<Arg>, d: nat, i: nat)
    requires TakesOut(p, c, args, pre, mid, post) && d < |p|
    ensures var q := Without(p, c, args, |pre|, |mid|);
      i < |ResultsSeq(q[d].args)| ==>
        && Stood(c, |pre|, |mid|, d, i) < |ResultsSeq(p[d].args)|
        && ResultsSeq(q[d].args)[i] ==
           MapRefs(WithoutResults(c, |pre| + 1, |mid|), ResultsSeq(p[d].args)[Stood(c, |pre|, |mid|, d, i)])
  {
    var f, q := WithoutResults(c, |pre| + 1, |mid|), Without(p, c, args, |pre|, |mid|);
    var p1 := p[c := p[c].(args := args)];
    assert q[d] == MapCall(f, p1[d]);
    MappedResultsSeq(f, p1[d].args);
    if d == c && i < |pre + post| { Spliced(pre, mid, post, i); }
  }

  lemma {:induction false} Spliced(pre: seq<Arg>, mid: seq<Arg>, post: seq<Arg>, i: nat)
    requires i < |pre + post|
    ensures var j := if i < |pre| then i
        else i + |mid|; j < |pre + (mid + post)| && (pre + post)[i] == (pre + (mid + post))[j]
  {
  }

  lemma {:induction false} WithoutClonable(p: Program, c: nat, args: seq<Arg>, pre: seq<Arg>, mid: seq<Arg>,
      post: seq<Arg>)
    requires TakesOut(p, c, args, pre, mid, post) && Clonable(p)
    ensures Clonable(Without(p, c, args, |pre|, |mid|))
  {
    var f, q := WithoutResults(c, |pre| + 1, |mid|), Without(p, c, args, |pre|, |mid|);
    forall d | 0 <= d < |q| ensures CallClonable(q, d, ResultsSeq(q[d].args)) {
      assert CallClonable(p, d, ResultsSeq(p[d].args));
      forall i | 0 <= i < |ResultsSeq(q[d].args)| && RefOf(ResultsSeq(q[d].args)[i]).Some?
        ensures Copied(q, RefOf(ResultsSeq(q[d].args)[i]).value, d, i + 1)
      {
        var j := Stood(c, |pre|, |mid|, d, i);
        WithoutResult(p, c, args, pre, mid, post, d, i);
        WithoutMoves(p, c, args, pre, mid, post, d, i);
        MovedRef(f, p, q, d, j, d, i, ResultsSeq(p[d].args)[j]);
      }
    }
  }

  /** Rewrites that take the results of one subtree out keep it. */
  lemma {:induction false} RewriteClonable(p: Program, c: nat, pos: Pos, b: Arg, pre: seq<Arg>, mid: seq<Arg>,
      post: seq<Arg>)
    requires c < |p| && Has(p[c].args, pos) && Clonable(p) && TakesOut(p, c, Put(p[c].args, pos, b), pre, mid, post)
    ensures Clonable(Rewrite(p, c, pos, b, |pre|, |mid|))
  {
    var q := Without(p, c, Put(p[c].args, pos, b), |pre|, |mid|);
    WithoutClonable(p, c, Put(p[c].args, pos, b), pre, mid, post);
    AssignKeepsOutline(q[c].args);
    SameResults(q[c].args, AssignSizes(q[c].args));
    SetArgsClonable(q, c, AssignSizes(q[c].args));
  }

  /** A pointer made null. */
  lemma {:induction false} NullClonable(p: Program, c: nat, pos: Pos, b: Arg)
    requires c < |p| && Has(p[c].args, pos) && Clonable(p) && NumResults(b) == 0
    ensures Clonable(Rewrite(p, c, pos, b, ResultsBefore(p[c].args, pos), NumResults(At(p[c].args, pos))))
  {
    var pre, post := ResultsPut(p[c].args, pos, b);
    ResultsCount(b);
    ResultsCount(At(p[c].args, pos));
    assert Results(b) == [] && [] + post == post;
    RewriteClonable(p, c, pos, b, pre, Results(At(p[c].args, pos)), post);
  }

  /** An array without one element. */
  lemma {:induction false} ElemClonable(p: Program, c: nat, pos: Pos, k: nat)
    requires c < |p| && Has(p[c].args, pos) && Clonable(p)
    requires At(p[c].args, pos).GroupArg? && k < |At(p[c].args, pos).inner| && Has(p[c].args, pos + [k])
    ensures var a := At(p[c].args, pos);
      Clonable(Rewrite(p, c, pos, GroupArg(a.typ, a.inner[..k] + a.inner[k + 1..]),
                       ResultsBefore(p[c].args, pos + [k]), NumResults(a.inner[k])))
  {
    var a := At(p[c].args, pos);
    var pre, post := RemovedElement(p[c].args, pos, k);
    ResultsCount(a.inner[k]);
    RewriteClonable(p, c, pos, GroupArg(a.typ, a.inner[..k] + a.inner[k + 1..]), pre, Results(a.inner[k]), post);
  }

  /** Another argument with as many results and no new references. */
  lemma {:induction false} PutClonable(p: Program, c: nat, pos: Pos, b: Arg)
    requires c < |p| && Has(p[c].args, pos) && Clonable(p) && NoNewRefs(Results(At(p[c].args, pos)), Results(b))
    ensures Clonable(p[c := p[c].(args := Put(p[c].args, pos, b))])
  {
    var pre, post := ResultsPut(p[c].args, pos, b);
    SetArgsClonable(p, c, Put(p[c].args, pos, b));
  }
}
