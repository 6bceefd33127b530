/**
  When the exec compiler resolves every reference.  References inside one call are valid, but
  their referents have no index yet: if the referent is an argument of the call itself, the
  compiler panics ("no copyout index"); if it lies in memory, the reference carries index 0,
  whichever result that is.  Both conditions are exact.
 */
module CopyoutLaws {
  import opened Ir
  import opened Defaults
  import opened ExecFormat
  import opened ExecCompile
  import opened CopyoutIndices

  // ----- the references that are emitted -----

  /** References that the copyins of a tree carry, in order. */
  function Emits(a: Arg, inMem: bool): seq<Loc>
    decreases a, 0
  {
    match a
    case ResultArg(_, _, _, _, _) => OwnRefs(a, inMem)
    case GroupArg(_, inner) => EmitsSeq(inner, inMem)
    case PointerArg(_, _, _, res) => if res.Some? then Emits(res.value, true) else []
    case UnionArg(_, option) => Emits(option, inMem)
    case _ => []
  }

  function EmitsSeq(args: seq<Arg>, inMem: bool): seq<Loc>
    decreases args, 1
  {
    if args == [] then [] else Emits(args[0], inMem) + EmitsSeq(args[1..], inMem)
  }

  function OwnRefs(a: Arg, inMem: bool): seq<Loc> {
    if inMem && a.ResultArg? && !NoCopyin(a) && a.ref.Some? then [a.ref.value] else []
  }

  /** The reference that an argument of the call itself carries. */
  function Passes(a: Arg): seq<Loc> {
    match a
    case UnionArg(_, option) => Passes(option)
    case ResultArg(_, ref, _, _, _) => if ref.Some? then [ref.value] else []
    case _ => []
  }

  function PassesSeq(args: seq<Arg>): seq<Loc> {
    if args == [] then [] else Passes(args[0]) + PassesSeq(args[1..])
  }

  function EmittedRefs(call: Call): seq<Loc> {
    EmitsSeq(call.args, false) + PassesSeq(call.args)
  }

  lemma {:induction false} EmitsAreRefs(a: Arg, inMem: bool)
    ensures forall l :: l in Emits(a, inMem) ==> l in Refs(a)
    decreases a, 0
  {
    match a
    case GroupArg(_, inner) => EmitsAreRefsSeq(inner, inMem);
    case PointerArg(_, _, _, res) => if res.Some? { EmitsAreRefs(res.value, true); }
    case UnionArg(_, option) => EmitsAreRefs(option, inMem);
    case _ =>
  }

  lemma {:induction false} EmitsAreRefsSeq(args: seq<Arg>, inMem: bool)
    ensures forall l :: l in EmitsSeq(args, inMem) ==> l in RefsSeq(args)
    decreases args, 1
  {
    if args != [] {
      EmitsAreRefs(args[0], inMem);
      EmitsAreRefsSeq(args[1..], inMem);
    }
  }

  lemma {:induction false} PassesAreRefs(a: Arg)
    ensures forall l :: l in Passes(a) ==> l in Refs(a)
  {
    match a
    case UnionArg(_, option) => PassesAreRefs(option);
    case _ =>
  }

  lemma {:induction false} PassesAreRefsSeq(args: seq<Arg>)
    ensures forall l :: l in PassesSeq(args) ==> l in RefsSeq(args)
  {
    if args != [] {
      PassesAreRefs(args[0]);
      PassesAreRefsSeq(args[1..]);
    }
  }

  // ----- the same tree with fewer infos -----

  ghost predicate Fewer(i0: Infos, i1: Infos) {
    forall l :: l in i0 ==> l in i1
  }

  /** Both know the same index for `l`. */
  ghost predicate SameIndex(i0: Infos, i1: Infos, l: Loc) {
    l in i0 && l in i1 && i0[l].idx % TWO64 == i1[l].idx % TWO64
  }

  /** `x`, with infos `i0`, against `y`, with `i1`, where `refs` are looked up: `x` fails more often
      exactly by the missing ones, and is the same exactly if all indices are. */
  ghost predicate Compare<T(!new)>(x: Option<seq<T>>, y: Option<seq<T>>, refs: seq<Loc>, i0: Infos, i1: Infos) {
    && (y.None? ==> x.None?)
    && (y.Some? ==> (x.Some? <==> forall l :: l in refs ==> l in i0))
    && (y.Some? && x.Some? ==> |x.value| == |y.value| && (x == y <==> forall l :: l in refs ==> SameIndex(i0, i1, l)))
  }

  lemma {:induction false} CompareJoin<T(!new)>(x: Option<seq<T>>, y: Option<seq<T>>, r: seq<Loc>,
                                                  x1: Option<seq<T>>, y1: Option<seq<T>>, r1: seq<Loc>, i0: Infos,
                                                      i1: Infos)
    requires Compare(x, y, r, i0, i1) && Compare(x1, y1, r1, i0, i1)
    ensures Compare(Join(x, x1), Join(y, y1), r + r1, i0, i1)
  {
    if x.Some? && x1.Some? && y.Some? && y1.Some? {
      SplitEqual(x.value, x1.value, y.value, y1.value);
      assert (forall l :: l in r + r1 ==> SameIndex(i0, i1, l)) <==>
             (forall l :: l in r ==> SameIndex(i0, i1, l)) && (forall l :: l in r1 ==> SameIndex(i0, i1, l));
    }
  }

  lemma {:induction false} SplitEqual<T>(a: seq<T>, b: seq<T>, c: seq<T>, d: seq<T>)
    requires |a| == |c|
    ensures a + b == c + d <==> a == c && b == d
  {
    if a + b == c + d {
      assert a == (a + b)[..|a|] && c == (c + d)[..|a|];
      assert b == (a + b)[|a|..] && d == (c + d)[|a|..];
    }
  }

  /** One word list of the argument. */
  function Single<T>(x: Option<T>): Option<seq<T>> {
    if x.None? then None else Some([x.value])
  }

  lemma {:induction false} PassesCompare(tgt: Target, i0: Infos, i1: Infos, a: Arg)
    requires Fewer(i0, i1)
    ensures Compare(Single(WriteArg(tgt, i0, a)), Single(WriteArg(tgt, i1, a)), Passes(a), i0, i1)
    decreases a
  {
    match a
    case UnionArg(_, option) => PassesCompare(tgt, i0, i1, option);
    case ResultArg(_, ref, _, _, _) => if ref.Some? { assert ref.value in Passes(a); }
    case _ =>
  }

  lemma {:induction false} PassesCompareSeq(tgt: Target, i0: Infos, i1: Infos, args: seq<Arg>)
    requires Fewer(i0, i1)
    ensures Compare(WriteArgs(tgt, i0, args), WriteArgs(tgt, i1, args), PassesSeq(args), i0, i1)
    decreases args
  {
    if args != [] {
      PassesCompare(tgt, i0, i1, args[0]);
      PassesCompareSeq(tgt, i0, i1, args[1..]);
      CompareJoin(Single(WriteArg(tgt, i0, args[0])), Single(WriteArg(tgt, i1, args[0])), Passes(args[0]),
                  WriteArgs(tgt, i0, args[1..]), WriteArgs(tgt, i1, args[1..]), PassesSeq(args[1..]), i0, i1);
    }
  }

  lemma {:induction false} OwnCompare(tgt: Target, i0: Infos, i1: Infos, a: Arg, base: Option<U64>, off: nat)
    requires Fewer(i0, i1)
    ensures Compare(OwnCopyin(tgt, i0, a, base, off), OwnCopyin(tgt, i1, a, base, off), OwnRefs(a, base.Some?), i0, i1)
  {
    if base.Some? && !NoCopyin(a) {
      PassesCompare(tgt, i0, i1, a);
      var x, y := WriteArg(tgt, i0, a), WriteArg(tgt, i1, a);
      if x.Some? && y.Some? {
        var at := AddrAt(base.value, off, a.typ);
        assert [Copyin(at, x.value)] == [Copyin(at, y.value)] <==> [x.value] == [y.value] by {
          assert [Copyin(at, x.value)][0].arg == x.value && [Copyin(at, y.value)][0].arg == y.value;
          assert [x.value][0] == x.value && [y.value][0] == y.value;
        }
      }
    }
  }

  lemma {:induction false} EmitsCompare(tgt: Target, i0: Infos, i1: Infos, a: Arg, base: Option<U64>, off: nat)
    requires Fewer(i0, i1)
    ensures Compare(StaticCopyins(tgt, i0, a, base, off), StaticCopyins(tgt, i1, a, base, off),
        Emits(a, base.Some?), i0, i1)
    decreases a, 0
  {
    OwnCompare(tgt, i0, i1, a, base, off);
    var own0, own1 := OwnCopyin(tgt, i0, a, base, off), OwnCopyin(tgt, i1, a, base, off);
    var none: Option<seq<Copyin>> := Some([]);
    match a
    case GroupArg(_, inner) =>
      EmitsCompareSeq(tgt, i0, i1, inner, base, off);
      CompareJoin(own0, own1, [], StaticCopyinsSeq(tgt, i0, inner, base, off),
          StaticCopyinsSeq(tgt, i1, inner, base, off),
                  EmitsSeq(inner, base.Some?), i0, i1);
      assert [] + EmitsSeq(inner, base.Some?) == EmitsSeq(inner, base.Some?);
    case PointerArg(_, _, _, res) =>
      if res.Some? {
        var at := Some(PointeeBase(tgt, a));
        EmitsCompare(tgt, i0, i1, res.value, at, 0);
        CompareJoin(own0, own1, [], StaticCopyins(tgt, i0, res.value, at, 0), StaticCopyins(tgt, i1, res.value, at, 0),
                    Emits(res.value, true), i0, i1);
        assert [] + Emits(res.value, true) == Emits(res.value, true);
      } else {
        CompareJoin(own0, own1, [], none, none, [], i0, i1);
      }
    case UnionArg(_, option) =>
      EmitsCompare(tgt, i0, i1, option, base, off);
      CompareJoin(own0, own1, [], StaticCopyins(tgt, i0, option, base, off), StaticCopyins(tgt, i1, option, base, off),
                  Emits(option, base.Some?), i0, i1);
      assert [] + Emits(option, base.Some?) == Emits(option, base.Some?);
    case _ =>
      CompareJoin(own0, own1, OwnRefs(a, base.Some?), none, none, [], i0, i1);
      assert OwnRefs(a, base.Some?) + [] == Emits(a, base.Some?);
  }

  lemma {:induction false} EmitsCompareSeq(tgt: Target, i0: Infos, i1: Infos, args: seq<Arg>, base: Option<U64>,
      off: nat)
    requires Fewer(i0, i1)
    ensures Compare(StaticCopyinsSeq(tgt, i0, args, base, off), StaticCopyinsSeq(tgt, i1, args, base, off),
        EmitsSeq(args, base.Some?), i0, i1)
    decreases args, 1
  {
    if args != [] {
      var off1 := off + Size(args[0]);
      EmitsCompare(tgt, i0, i1, args[0], base, off);
      EmitsCompareSeq(tgt, i0, i1, args[1..], base, off1);
      CompareJoin(StaticCopyins(tgt, i0, args[0], base, off), StaticCopyins(tgt, i1, args[0], base, off),
          Emits(args[0], base.Some?),
                  StaticCopyinsSeq(tgt, i0, args[1..], base, off1), StaticCopyinsSeq(tgt, i1, args[1..], base, off1),
                  EmitsSeq(args[1..], base.Some?), i0, i1);
    }
  }

  lemma {:induction false} EmitsCompareTop(tgt: Target, i0: Infos, i1: Infos, args: seq<Arg>)
    requires Fewer(i0, i1)
    ensures Compare(StaticCopyinsTop(tgt, i0, args), StaticCopyinsTop(tgt, i1, args), EmitsSeq(args, false), i0, i1)
    decreases args
  {
    if args != [] {
      EmitsCompare(tgt, i0, i1, args[0], None, 0);
      EmitsCompareTop(tgt, i0, i1, args[1..]);
      CompareJoin(StaticCopyins(tgt, i0, args[0], None, 0), StaticCopyins(tgt, i1, args[0], None, 0),
          Emits(args[0], false),
                  StaticCopyinsTop(tgt, i0, args[1..]), StaticCopyinsTop(tgt, i1, args[1..]),
                      EmitsSeq(args[1..], false), i0, i1);
    }
  }

  lemma {:induction false} CallCompare(tgt: Target, used: set<Loc>, i0: Infos, i1: Infos, c: nat, call: Call,
      csums: seq<Copyin>)
    requires Fewer(i0, i1)
    ensures Compare(Single(StaticCall(tgt, used, i0, c, call, csums)),
        Single(StaticCall(tgt, used, i1, c, call, csums)),
                    EmittedRefs(call), i0, i1)
  {
    EmitsCompareTop(tgt, i0, i1, call.args);
    PassesCompareSeq(tgt, i0, i1, call.args);
    var x, y := StaticCall(tgt, used, i0, c, call, csums), StaticCall(tgt, used, i1, c, call, csums);
    var ins0, ins1 := StaticCopyinsTop(tgt, i0, call.args), StaticCopyinsTop(tgt, i1, call.args);
    var args0, args1 := WriteArgs(tgt, i0, call.args), WriteArgs(tgt, i1, call.args);
    assert x.Some? <==> ins0.Some? && args0.Some?;
    assert y.Some? <==> ins1.Some? && args1.Some?;
    if x.Some? && y.Some? {
      SplitEqual(ins0.value, csums, ins1.value, csums);
      assert x == y <==> ins0 == ins1 && args0 == args1;
      assert [x.value] == [y.value] <==> x == y by { assert [x.value][0] == x.value && [y.value][0] == y.value; }
    }
  }

  // ----- whole programs -----

  lemma {:induction false} CollectParts(one: nat -> Option<ExecCall>, c: nat, n: nat)
    requires c <= n
    ensures Collect(one, c, n).Some? <==> forall i | c <= i < n :: one(i).Some?
    ensures Collect(one, c, n).Some? ==>
              && |Collect(one, c, n).value| == n - c
              && forall i | c <= i < n :: one(i).Some? && Collect(one, c, n).value[i - c] == one(i).value
    decreases n - c
  {
    if c < n {
      CollectParts(one, c + 1, n);
      var all, rest := Collect(one, c, n), Collect(one, c + 1, n);
      if all.Some? {
        forall i | c <= i < n ensures one(i).Some? && all.value[i - c] == one(i).value {
          if i > c { assert all.value[i - c] == rest.value[i - (c + 1)]; }
        }
      }
    }
  }

  /** A reference of call `c` to a result of the call that is not in memory. */
  ghost predicate Missing(p: Program, c: nat, l: Loc)
    requires c < |p|
  {
    l in EmittedRefs(p[c]) && l.call == c && l !in InMemory(p, c)
  }

  /** The reference is to an earlier call, or to the result of rank 0 in memory. */
  ghost predicate Resolves(p: Program, c: nat, l: Loc)
    requires c < |p|
  {
    l.call < c || (l in InMemory(p, c) && Rank(RefsProg(p), l) % TWO64 == 0)
  }

  ghost predicate AllResolve(p: Program) {
    forall c, l | 0 <= c < |p| && l in EmittedRefs(p[c]) :: Resolves(p, c, l)
  }

  lemma {:induction false} EmittedAreRefs(p: Program, c: nat)
    requires Backward(p) && c < |p|
    ensures forall l | l in EmittedRefs(p[c]) :: l in RefsProg(p) && l.call <= c
  {
    EmitsAreRefsSeq(p[c].args, false);
    PassesAreRefsSeq(p[c].args);
    RefsProgHas(p, c);
    LinksBelowSeq(p[c].args, c, 1, 1 + NumResultsSeq(p[c].args));
  }

  /** What the pass knows about the emitted references of call `c`. */
  lemma {:induction false} RefLaw(p: Program, c: nat, l: Loc)
    requires Backward(p) && c < |p| && l in EmittedRefs(p[c])
    ensures var i0, i1 := PassInfos(RefsProg(p), InMemory(p, c), c), StaticInfos(RefsProg(p));
      (l in i0 <==> !Missing(p, c, l)) && (SameIndex(i0, i1, l) <==> Resolves(p, c, l))
  {
    EmittedAreRefs(p, c);
    IndexLaw(RefsProg(p), InMemory(p, c), c, l);
  }

  lemma {:induction false} IndexLaw(used: set<Loc>, mem: set<Loc>, c: nat, l: Loc)
    requires l in used && l.call <= c
    ensures l in PassInfos(used, mem, c) <==> l.call < c || l in mem
    ensures SameIndex(PassInfos(used, mem, c), StaticInfos(used), l) <==>
            l.call < c || (l in mem && Rank(used, l) % TWO64 == 0)
  {
  }

  /** One call against the reference. */
  lemma {:induction false} CallLaw(tgt: Target, p: Program, csums: seq<seq<Copyin>>, c: nat)
    requires |csums| == |p| && Backward(p) && c < |p|
    ensures var x, y := PassOne(tgt, p, csums)(c), StaticOne(tgt, RefsProg(p), p, csums)(c);
      && (y.None? ==> x.None?)
      && (y.Some? ==> (x.None? <==> exists l :: Missing(p, c, l)))
      && (y.Some? ==> (x == y <==> forall l | l in EmittedRefs(p[c]) :: Resolves(p, c, l)))
  {
    var used := RefsProg(p);
    var i0, i1 := PassInfos(used, InMemory(p, c), c), StaticInfos(used);
    var x, y := StaticCall(tgt, used, i0, c, p[c], csums[c]), StaticCall(tgt, used, i1, c, p[c], csums[c]);
    CallCompare(tgt, used, i0, i1, c, p[c], csums[c]);
    forall l | l in EmittedRefs(p[c])
      ensures (l in i0 <==> !Missing(p, c, l)) && (SameIndex(i0, i1, l) <==> Resolves(p, c, l))
    {
      RefLaw(p, c, l);
    }
    CompareSays(x, y, p, c, i0, i1);
  }

  lemma {:induction false} CompareSays(x: Option<ExecCall>, y: Option<ExecCall>, p: Program, c: nat, i0: Infos,
      i1: Infos)
    requires c < |p| && Compare(Single(x), Single(y), EmittedRefs(p[c]), i0, i1)
    requires forall l | l in EmittedRefs(p[c]) ::
               (l in i0 <==> !Missing(p, c, l)) && (SameIndex(i0, i1, l) <==> Resolves(p, c, l))
    ensures y.None? ==> x.None?
    ensures y.Some? ==> (x.None? <==> exists l :: Missing(p, c, l))
    ensures y.Some? ==> (x == y <==> forall l | l in EmittedRefs(p[c]) :: Resolves(p, c, l))
  {
    if x.Some? && y.Some? {
      assert Single(x) == Single(y) <==> x == y by {
        assert Single(x).value[0] == x.value && Single(y).value[0] == y.value;
      }
    }
    if y.Some? && x.None? {
      var l :| l in EmittedRefs(p[c]) && l !in i0;
      assert Missing(p, c, l) && !Resolves(p, c, l);
    }
  }

  /** Where nothing else is wrong with a program, the compiler panics if and only if some emitted
      reference is to a result of its own call that is not behind a pointer. */
  lemma {:induction false} PanicsIff(tgt: Target, p: Program, csums: seq<seq<Copyin>>)
    requires |csums| == |p| && Backward(p) && StaticProg(tgt, p, csums).Some?
    ensures CompileProg(tgt, p, csums).None? <==> exists c, l :: 0 <= c < |p| && Missing(p, c, l)
  {
    CompileIsPass(tgt, p, csums);
    var pass, one := PassOne(tgt, p, csums), StaticOne(tgt, RefsProg(p), p, csums);
    CollectParts(pass, 0, |p|);
    CollectParts(one, 0, |p|);
    if CompileProg(tgt, p, csums).None? {
      var c :| 0 <= c < |p| && pass(c).None?;
      CallLaw(tgt, p, csums, c);
    } else {
      forall c, l | 0 <= c < |p| ensures !Missing(p, c, l) { CallLaw(tgt, p, csums, c); }
    }
  }

  /** The one-pass compiler emits the reference program if and only if that panics as well or all
      emitted references resolve. */
  lemma {:induction false} CompileIsStatic(tgt: Target, p: Program, csums: seq<seq<Copyin>>)
    requires |csums| == |p| && Backward(p)
    ensures CompileProg(tgt, p, csums) == StaticProg(tgt, p, csums) <==>
        StaticProg(tgt, p, csums).None? || AllResolve(p)
  {
    CompileIsPass(tgt, p, csums);
    var pass, one := PassOne(tgt, p, csums), StaticOne(tgt, RefsProg(p), p, csums);
    CollectParts(pass, 0, |p|);
    CollectParts(one, 0, |p|);
    var x, y := CompileProg(tgt, p, csums), StaticProg(tgt, p, csums);
    forall c | 0 <= c < |p|
      ensures one(c).None? ==> pass(c).None?
      ensures one(c).Some? ==> (pass(c) == one(c) <==> forall l | l in EmittedRefs(p[c]) :: Resolves(p, c, l))
    {
      CallLaw(tgt, p, csums, c);
    }
    if y.Some? {
      assert x == y <==> forall c | 0 <= c < |p| :: pass(c) == one(c) by { SameCollected(pass, one, |p|); }
    }
  }

  lemma {:induction false} SameCollected(f: nat -> Option<ExecCall>, g: nat -> Option<ExecCall>, n: nat)
    requires Collect(g, 0, n).Some?
    ensures Collect(f, 0, n) == Collect(g, 0, n) <==> forall c | 0 <= c < n :: f(c) == g(c)
  {
    CollectParts(f, 0, n);
    CollectParts(g, 0, n);
    var x, y := Collect(f, 0, n), Collect(g, 0, n);
    if x == y {
      forall c | 0 <= c < n
        ensures f(c) == g(c)
      {
        assert x.value[c - 0] == f(c).value && y.value[c - 0] == g(c).value;
      }
    }
    if forall c | 0 <= c < n :: f(c) == g(c) {
      assert x.Some? by { forall i | 0 <= i < n ensures f(i).Some? { assert g(i).Some?; } }
      forall i | 0 <= i < n ensures x.value[i] == y.value[i] {
        assert f(i) == g(i) && x.value[i - 0] == f(i).value && y.value[i - 0] == g(i).value;
      }
      assert x.value == y.value;
    }
  }

  // ----- the indices that references carry -----

  /** The result words among arguments. */
  function ResultWords(xs: seq<ExecArg>): seq<U64> {
    if xs == [] then []
    else (if xs[0].ExecResult? then [xs[0].index] else []) + ResultWords(xs[1..])
  }

  function IndicesOf(infos: Infos, refs: seq<Loc>): seq<U64> {
    if refs == [] then []
    else [if refs[0] in infos then infos[refs[0]].idx % TWO64 else 0] + IndicesOf(infos, refs[1..])
  }

  lemma {:induction false} WordsAssoc(a: seq<U64>, b: seq<U64>, c: seq<U64>)
    ensures (a + b) + c == a + (b + c)
  {
  }

  lemma {:induction false} WordsJoin(x: seq<ExecArg>, y: seq<ExecArg>)
    ensures ResultWords(x + y) == ResultWords(x) + ResultWords(y)
  {
    if x == [] {
      assert x + y == y;
    } else {
      assert (x + y)[1..] == x[1..] + y && (x + y)[0] == x[0];
      WordsJoin(x[1..], y);
      WordsAssoc(if x[0].ExecResult? then [x[0].index] else [], ResultWords(x[1..]), ResultWords(y));
    }
  }

  lemma {:induction false} ArgsJoin(x: seq<Copyin>, y: seq<Copyin>)
    ensures CopyinArgs(x + y) == CopyinArgs(x) + CopyinArgs(y)
  {
    if x == [] {
      assert x + y == y;
    } else {
      assert (x + y)[1..] == x[1..] + y;
      ArgsJoin(x[1..], y);
    }
  }

  lemma {:induction false} IndicesJoin(infos: Infos, x: seq<Loc>, y: seq<Loc>)
    ensures IndicesOf(infos, x + y) == IndicesOf(infos, x) + IndicesOf(infos, y)
  {
    if x == [] {
      assert x + y == y;
    } else {
      assert (x + y)[1..] == x[1..] + y && (x + y)[0] == x[0];
      IndicesJoin(infos, x[1..], y);
      WordsAssoc([if x[0] in infos then infos[x[0]].idx % TWO64 else 0], IndicesOf(infos, x[1..]), IndicesOf(infos, y));
    }
  }

  /** The copyins carry the indices of `refs`, in order. */
  ghost predicate Carries(ins: Option<seq<Copyin>>, infos: Infos, refs: seq<Loc>) {
    ins.Some? ==> ResultWords(CopyinArgs(ins.value)) == IndicesOf(infos, refs)
  }

  lemma {:induction false} CarriesJoin(x: Option<seq<Copyin>>, r: seq<Loc>, y: Option<seq<Copyin>>, s: seq<Loc>,
      infos: Infos)
    requires Carries(x, infos, r) && Carries(y, infos, s)
    ensures Carries(Join(x, y), infos, r + s)
  {
    if x.Some? && y.Some? {
      ArgsJoin(x.value, y.value);
      WordsJoin(CopyinArgs(x.value), CopyinArgs(y.value));
      IndicesJoin(infos, r, s);
    }
  }

  /** An argument that carries a reference is one result word; others are none. */
  lemma {:induction false} PassWord(tgt: Target, infos: Infos, a: Arg)
    ensures WriteArg(tgt, infos, a).Some? ==>
        ResultWords([WriteArg(tgt, infos, a).value]) == IndicesOf(infos, Passes(a))
    decreases a
  {
    var x := WriteArg(tgt, infos, a);
    assert x.Some? ==> [x.value][1..] == [];
    match a
    case UnionArg(_, option) => PassWord(tgt, infos, option);
    case ResultArg(_, ref, _, _, _) => if ref.Some? { assert [ref.value][1..] == []; }
    case _ =>
  }

  lemma {:induction false} PassWords(tgt: Target, infos: Infos, args: seq<Arg>)
    ensures WriteArgs(tgt, infos, args).Some? ==>
        ResultWords(WriteArgs(tgt, infos, args).value) == IndicesOf(infos, PassesSeq(args))
    decreases args
  {
    if args != [] {
      PassWord(tgt, infos, args[0]);
      PassWords(tgt, infos, args[1..]);
      var x, y := WriteArg(tgt, infos, args[0]), WriteArgs(tgt, infos, args[1..]);
      if x.Some? && y.Some? {
        WordsJoin([x.value], y.value);
        IndicesJoin(infos, Passes(args[0]), PassesSeq(args[1..]));
      }
    }
  }

  lemma {:induction false} OwnCarries(tgt: Target, infos: Infos, a: Arg, base: Option<U64>, off: nat)
    ensures Carries(OwnCopyin(tgt, infos, a, base, off), infos, OwnRefs(a, base.Some?))
  {
    if base.Some? && !NoCopyin(a) {
      PassWord(tgt, infos, a);
      var x := WriteArg(tgt, infos, a);
      if x.Some? {
        var in_ := Copyin(AddrAt(base.value, off, a.typ), x.value);
        assert CopyinArgs([in_]) == [x.value] by { assert [in_][1..] == []; }
        assert OwnRefs(a, true) == Passes(a);
      }
    }
  }

  lemma {:induction false} CopyinsCarry(tgt: Target, infos: Infos, a: Arg, base: Option<U64>, off: nat)
    ensures Carries(StaticCopyins(tgt, infos, a, base, off), infos, Emits(a, base.Some?))
    decreases a, 0
  {
    var own := OwnCopyin(tgt, infos, a, base, off);
    var none: Option<seq<Copyin>> := Some([]);
    OwnCarries(tgt, infos, a, base, off);
    var refs := Emits(a, base.Some?);
    assert [] + refs == refs && refs + [] == refs;
    match a
    case GroupArg(_, inner) =>
      CopyinsCarrySeq(tgt, infos, inner, base, off);
      CarriesJoin(own, [], StaticCopyinsSeq(tgt, infos, inner, base, off), refs, infos);
    case PointerArg(_, _, _, res) =>
      if res.Some? {
        CopyinsCarry(tgt, infos, res.value, Some(PointeeBase(tgt, a)), 0);
        CarriesJoin(own, [], StaticCopyins(tgt, infos, res.value, Some(PointeeBase(tgt, a)), 0), refs, infos);
      } else {
        CarriesJoin(own, [], none, [], infos);
      }
    case UnionArg(_, option) =>
      CopyinsCarry(tgt, infos, option, base, off);
      CarriesJoin(own, [], StaticCopyins(tgt, infos, option, base, off), refs, infos);
    case _ => CarriesJoin(own, refs, none, [], infos);
  }

  lemma {:induction false} CopyinsCarrySeq(tgt: Target, infos: Infos, args: seq<Arg>, base: Option<U64>, off: nat)
    ensures Carries(StaticCopyinsSeq(tgt, infos, args, base, off), infos, EmitsSeq(args, base.Some?))
    decreases args, 1
  {
    if args != [] {
      var off1 := off + Size(args[0]);
      CopyinsCarry(tgt, infos, args[0], base, off);
      CopyinsCarrySeq(tgt, infos, args[1..], base, off1);
      CarriesJoin(StaticCopyins(tgt, infos, args[0], base, off), Emits(args[0], base.Some?),
                  StaticCopyinsSeq(tgt, infos, args[1..], base, off1), EmitsSeq(args[1..], base.Some?), infos);
    }
  }

  lemma {:induction false} CopyinsCarryTop(tgt: Target, infos: Infos, args: seq<Arg>)
    ensures Carries(StaticCopyinsTop(tgt, infos, args), infos, EmitsSeq(args, false))
    decreases args
  {
    if args != [] {
      CopyinsCarry(tgt, infos, args[0], None, 0);
      CopyinsCarryTop(tgt, infos, args[1..]);
      CarriesJoin(StaticCopyins(tgt, infos, args[0], None, 0), Emits(args[0], false),
                  StaticCopyinsTop(tgt, infos, args[1..]), EmitsSeq(args[1..], false), infos);
    }
  }

  /** The indices that the one-pass compiler puts into call `c`: in the order of the references,
      the rank of an earlier referent, and 0 for one of the same call. */
  function PassIndices(p: Program, c: nat, refs: seq<Loc>): seq<U64> {
    if refs == [] then []
    else [if refs[0].call < c then Rank(RefsProg(p), refs[0]) % TWO64 else 0] + PassIndices(p, c, refs[1..])
  }

  lemma {:induction false} PassIndicesAre(p: Program, c: nat, refs: seq<Loc>)
    requires c < |p| && forall l | l in refs :: l in RefsProg(p)
    ensures IndicesOf(PassInfos(RefsProg(p), InMemory(p, c), c), refs) == PassIndices(p, c, refs)
  {
    if refs != [] {
      assert refs[0] in RefsProg(p);
      PassIndicesAre(p, c, refs[1..]);
    }
  }

  lemma {:induction false} ReferencesCarry(tgt: Target, p: Program, csums: seq<seq<Copyin>>, c: nat)
    requires |csums| == |p| && Backward(p) && c < |p| && CompileProg(tgt, p, csums).Some?
    ensures |CompileProg(tgt, p, csums).value| == |p|
    ensures var call := CompileProg(tgt, p, csums).value[c];
      && ResultWords(CopyinArgs(call.copyin)) ==
           PassIndices(p, c, EmitsSeq(p[c].args, false)) + ResultWords(CopyinArgs(csums[c]))
      && ResultWords(call.args) == PassIndices(p, c, PassesSeq(p[c].args))
  {
    CompileIsPass(tgt, p, csums);
    CollectParts(PassOne(tgt, p, csums), 0, |p|);
    var infos := PassInfos(RefsProg(p), InMemory(p, c), c);
    var x := PassOne(tgt, p, csums)(c);
    assert CompileProg(tgt, p, csums).value[c - 0] == x.value;
    CopyinsCarryTop(tgt, infos, p[c].args);
    PassWords(tgt, infos, p[c].args);
    var ins := StaticCopyinsTop(tgt, infos, p[c].args);
    ArgsJoin(ins.value, csums[c]);
    WordsJoin(CopyinArgs(ins.value), CopyinArgs(csums[c]));
    EmittedAreRefs(p, c);
    assert forall l | l in EmitsSeq(p[c].args, false) :: l in EmittedRefs(p[c]);
    assert forall l | l in PassesSeq(p[c].args) :: l in EmittedRefs(p[c]);
    PassIndicesAre(p, c, EmitsSeq(p[c].args, false));
    PassIndicesAre(p, c, PassesSeq(p[c].args));
  }

  // ----- valid programs -----

  lemma {:induction false} ValidBackward(tgt: Target, p: Program)
    requires ValidProg(tgt, p)
    ensures Backward(p)
  {
    forall c | 0 <= c < |p| ensures LinksOkSeq(p[c].args, c, 1) { assert ValidCall(tgt, p[c], c); }
  }

  /** What may be an argument of a call itself: anything but groups and output data. */
  predicate Writable(a: Arg) {
    match a
    case UnionArg(_, option) => Writable(option)
    case GroupArg(_, _) => false
    case DataArg(t, _, _) => t.com.dir != DirOut
    case _ => true
  }

  ghost predicate AllWritable(p: Program) {
    forall c, i | 0 <= c < |p| && 0 <= i < |p[c].args| :: Writable(p[c].args[i])
  }

  ghost predicate Knows(infos: Infos, refs: set<Loc>) {
    forall l :: l in refs ==> l in infos
  }

  lemma {:induction false} WriteArgWorks(tgt: Target, infos: Infos, a: Arg, t: Type)
    requires ValidArg(tgt, a, t) && Writable(a) && Knows(infos, Refs(a))
    ensures WriteArg(tgt, infos, a).Some?
    decreases a
  {
    match a
    case UnionArg(_, option) => WriteArgWorks(tgt, infos, option, FindOption(t.options, option.typ.com.field).value);
    case ResultArg(_, ref, _, _, _) => if ref.Some? { assert ref.value in Refs(a); }
    case _ =>
  }

  lemma {:induction false} WriteArgsWork(tgt: Target, infos: Infos, args: seq<Arg>, sh: Shape)
    requires ValidSeq(tgt, args, sh) && Knows(infos, RefsSeq(args)) && forall i | 0 <= i < |args| :: Writable(args[i])
    ensures WriteArgs(tgt, infos, args).Some?
    decreases args
  {
    if args != [] {
      WriteArgWorks(tgt, infos, args[0], Head(sh).value);
      WriteArgsWork(tgt, infos, args[1..], Tail(sh));
    }
  }

  lemma {:induction false} OwnWorks(tgt: Target, infos: Infos, a: Arg, t: Type, base: Option<U64>, off: nat)
    requires ValidArg(tgt, a, t) && Knows(infos, Refs(a))
    ensures OwnCopyin(tgt, infos, a, base, off).Some?
  {
    if base.Some? && !NoCopyin(a) { WriteArgWorks(tgt, infos, a, t); }
  }

  lemma {:induction false} CopyinsWork(tgt: Target, infos: Infos, a: Arg, t: Type, base: Option<U64>, off: nat)
    requires ValidArg(tgt, a, t) && Knows(infos, Refs(a))
    ensures StaticCopyins(tgt, infos, a, base, off).Some?
    decreases a, 0
  {
    OwnWorks(tgt, infos, a, t, base, off);
    match a
    case GroupArg(_, inner) => CopyinsWorkSeq(tgt, infos, inner, ShapeOf(t), base, off);
    case PointerArg(_, _, _, res) =>
      if res.Some? { CopyinsWork(tgt, infos, res.value, tgt.pointees[t.pointee], Some(PointeeBase(tgt, a)), 0); }
    case UnionArg(_, option) =>
        CopyinsWork(tgt, infos, option, FindOption(t.options, option.typ.com.field).value, base, off);
    case _ =>
  }

  lemma {:induction false} CopyinsWorkSeq(tgt: Target, infos: Infos, args: seq<Arg>, sh: Shape, base: Option<U64>,
      off: nat)
    requires ValidSeq(tgt, args, sh) && Knows(infos, RefsSeq(args))
    ensures StaticCopyinsSeq(tgt, infos, args, base, off).Some?
    decreases args, 1
  {
    if args != [] {
      CopyinsWork(tgt, infos, args[0], Head(sh).value, base, off);
      CopyinsWorkSeq(tgt, infos, args[1..], Tail(sh), base, off + Size(args[0]));
    }
  }

  lemma {:induction false} CopyinsWorkTop(tgt: Target, infos: Infos, args: seq<Arg>, sh: Shape)
    requires ValidSeq(tgt, args, sh) && Knows(infos, RefsSeq(args))
    ensures StaticCopyinsTop(tgt, infos, args).Some?
    decreases args
  {
    if args != [] {
      CopyinsWork(tgt, infos, args[0], Head(sh).value, None, 0);
      CopyinsWorkTop(tgt, infos, args[1..], Tail(sh));
    }
  }

  /** Nothing but references can be wrong with a valid program. */
  lemma {:induction false} ValidCompiles(tgt: Target, p: Program, csums: seq<seq<Copyin>>)
    requires |csums| == |p| && ValidProg(tgt, p) && AllWritable(p)
    ensures StaticProg(tgt, p, csums).Some?
  {
    var infos := StaticInfos(RefsProg(p));
    var one := StaticOne(tgt, RefsProg(p), p, csums);
    forall c | 0 <= c < |p| ensures one(c).Some? {
      assert ValidCall(tgt, p[c], c);
      RefsProgHas(p, c);
      CopyinsWorkTop(tgt, infos, p[c].args, Fields(p[c].meta.args));
      WriteArgsWork(tgt, infos, p[c].args, Fields(p[c].meta.args));
    }
    CollectParts(one, 0, |p|);
  }

  /** The two laws for valid programs. */
  lemma {:induction false} ValidLaws(tgt: Target, p: Program, csums: seq<seq<Copyin>>)
    requires |csums| == |p| && ValidProg(tgt, p) && AllWritable(p)
    ensures CompileProg(tgt, p, csums).None? <==> exists c, l :: 0 <= c < |p| && Missing(p, c, l)
    ensures CompileProg(tgt, p, csums) == StaticProg(tgt, p, csums) <==> AllResolve(p)
  {
    ValidBackward(tgt, p);
    ValidCompiles(tgt, p, csums);
    PanicsIff(tgt, p, csums);
    CompileIsStatic(tgt, p, csums);
  }

  // ----- two valid programs -----

  lemma {:induction false} TwoValid(tgt: Target, x: Arg, y: Arg, t: Type, u: Type)
    requires ValidArg(tgt, x, t) && ValidArg(tgt, y, u)
    ensures ValidSeq(tgt, [x, y], Fields([t, u]))
  {
    assert [x, y][1..] == [y] && [y][1..] == [] && [t, u][1..] == [u] && [u][1..] == [];
    assert ValidSeq(tgt, [], Fields([]));
    assert Head(Fields([u])) == Some(u) && Tail(Fields([u])) == Fields([]);
    assert ValidSeq(tgt, [y], Fields([u]));
    assert Head(Fields([t, u])) == Some(t) && Tail(Fields([t, u])) == Fields([u]);
  }

  lemma {:induction false} TwoParts(x: Arg, y: Arg)
    ensures NumResultsSeq([x, y]) == NumResults(x) + NumResults(y) && RefsSeq([x, y]) == Refs(x) + Refs(y)
    ensures PassesSeq([x, y]) == Passes(x) + Passes(y) && SizeSeq([x, y]) == Size(x) + Size(y)
    ensures forall m :: EmitsSeq([x, y], m) == Emits(x, m) + Emits(y, m)
  {
    var s := [y];
    assert [x, y][1..] == s && s[1..] == [];
    assert NumResultsSeq([]) == 0 && RefsSeq([]) == {} && PassesSeq([]) == [] && SizeSeq([]) == 0;
    assert NumResultsSeq(s) == NumResults(y) && RefsSeq(s) == Refs(y) && PassesSeq(s) == Passes(y);
    assert SizeSeq(s) == Size(y);
    forall m ensures EmitsSeq([x, y], m) == Emits(x, m) + Emits(y, m) {
      assert EmitsSeq(s, m) == Emits(y, m) + EmitsSeq([], m);
    }
  }

  lemma {:induction false} TwoLinks(x: Arg, y: Arg, c: nat, k: nat)
    requires LinksOk(x, c, k) && LinksOk(y, c, k + NumResults(x))
    ensures LinksOkSeq([x, y], c, k)
    ensures BehindSeq(c, [x, y], false, k) == Behind(c, x, false, k) + Behind(c, y, false, k + NumResults(x))
    ensures BehindSeq(c, [x, y], true, k) == Behind(c, x, true, k) + Behind(c, y, true, k + NumResults(x))
  {
    var s, k1 := [y], k + NumResults(x);
    assert [x, y][1..] == s && s[1..] == [];
    assert LinksOkSeq([], c, k1 + NumResults(y));
    assert LinksOkSeq(s, c, k1);
    assert BehindSeq(c, s, false, k1) == Behind(c, y, false, k1) by {
      assert BehindSeq(c, [], false, k1 + NumResults(y)) == {};
    }
    assert BehindSeq(c, s, true, k1) == Behind(c, y, true, k1) by {
      assert BehindSeq(c, [], true, k1 + NumResults(y)) == {};
    }
  }

  const FD := ResourceT(Common("fd", "a", 4, DirIn, false, false), Native, 0)
  const NEW_FD := ResultArg(FD, None, 0, 0, 0)

  function FdOf(l: Loc): Arg {
    ResultArg(FD, Some(l), 0, 0, 0)
  }

  /** f(a fd, b fd) with b = a. */
  const TWO := Syscall(0, "f", [FD, FD], None)
  const TWO_TARGET := Target(4096, 4, 0, [0], [TWO], [])
  const ITSELF := [Call(TWO, [NEW_FD, FdOf(Loc(0, 1))], None)]

  /** A valid program that the compiler panics on: the second argument of the call is the first. */
  lemma {:induction false} SameCallPanics(csums: seq<seq<Copyin>>)
    requires |csums| == 1
    ensures ValidProg(TWO_TARGET, ITSELF) && CompileProg(TWO_TARGET, ITSELF, csums).None?
  {
    var a, b := NEW_FD, FdOf(Loc(0, 1));
    TwoValid(TWO_TARGET, a, b, FD, FD);
    TwoParts(a, b);
    TwoLinks(a, b, 0, 1);
    assert ITSELF[0].args == [a, b] && ITSELF[1..] == [];
    assert RefsProg(ITSELF) == {Loc(0, 1)} by { assert RefsProg(ITSELF[1..]) == {}; }
    assert ValidProg(TWO_TARGET, ITSELF);
    assert EmittedRefs(ITSELF[0]) == [Loc(0, 1)];
    assert Loc(0, 1) in EmittedRefs(ITSELF[0]) by { assert EmittedRefs(ITSELF[0])[0] == Loc(0, 1); }
    assert Missing(ITSELF, 0, Loc(0, 1));
    ValidLaws(TWO_TARGET, ITSELF, csums);
  }

  /** fd = f(); g(fd, &{a, b = a}): the struct refers to its own first field. */
  const PAIR := StructT(Common("pair", "", 8, DirIn, false, false), [FD, FD], 0)
  const PAIR_PTR := PtrT(Common("ptr", "p", 8, DirIn, false, false), 0)
  const NEW_RET := ResourceT(Common("fd", "ret", 4, DirOut, false, false), Native, 0)
  const OPEN := Syscall(0, "f", [], Some(NEW_RET))
  const USE := Syscall(1, "g", [FD, PAIR_PTR], None)
  const PAIR_TARGET := Target(4096, 4, 0, [0], [OPEN, USE], [PAIR])
  const PAIR_ARG := GroupArg(PAIR, [NEW_FD, FdOf(Loc(1, 2))])
  const PAIR_REF := PointerArg(PAIR_PTR, 0, 0, Some(PAIR_ARG))
  const PAIR_PROG := [Call(OPEN, [], Some(ReturnArg(NEW_RET))), Call(USE, [FdOf(Loc(0, 0)), PAIR_REF], None)]

  lemma {:induction false} PairParts()
    ensures RefsProg(PAIR_PROG) == {Loc(0, 0), Loc(1, 2)} && NumResultsSeq(PAIR_PROG[1].args) == 3 &&
        Size(PAIR_ARG) == 8
    ensures EmitsSeq(PAIR_PROG[1].args, false) == [Loc(1, 2)] && PassesSeq(PAIR_PROG[1].args) == [Loc(0, 0)]
    ensures InMemory(PAIR_PROG, 1) == {Loc(1, 2), Loc(1, 3)} && LinksOkSeq(PAIR_PROG[1].args, 1, 1)
  {
    TwoParts(NEW_FD, FdOf(Loc(1, 2)));
    TwoParts(FdOf(Loc(0, 0)), PAIR_REF);
    TwoLinks(NEW_FD, FdOf(Loc(1, 2)), 1, 2);
    assert LinksOk(PAIR_REF, 1, 2) && LinksOk(FdOf(Loc(0, 0)), 1, 1);
    TwoLinks(FdOf(Loc(0, 0)), PAIR_REF, 1, 1);
    assert Behind(1, PAIR_ARG, true, 2) == {Loc(1, 2)} + {Loc(1, 3)};
    assert Emits(PAIR_ARG, true) == [] + [Loc(1, 2)];
    assert EmitsSeq(PAIR_PROG[1].args, false) == [] + Emits(PAIR_REF, false);
    assert InMemory(PAIR_PROG, 1) == {} + Behind(1, PAIR_REF, false, 2);
    assert PAIR_PROG[0].args == [] && PAIR_PROG[1..][1..] == [];
    assert RefsProg(PAIR_PROG[1..]) == {Loc(0, 0), Loc(1, 2)} by { assert RefsProg(PAIR_PROG[1..][1..]) == {}; }
  }

  lemma {:induction false} PairIsValid()
    ensures ValidProg(PAIR_TARGET, PAIR_PROG) && AllWritable(PAIR_PROG)
  {
    PairParts();
    TwoValid(PAIR_TARGET, NEW_FD, FdOf(Loc(1, 2)), FD, FD);
    assert ValidArg(PAIR_TARGET, PAIR_ARG, PAIR);
    assert PointerOk(PAIR_TARGET, PAIR_REF);
    TwoValid(PAIR_TARGET, FdOf(Loc(0, 0)), PAIR_REF, FD, PAIR_PTR);
    assert ValidSeq(PAIR_TARGET, [], Fields([])) && LinksOkSeq([], 0, 1);
    assert ValidCall(PAIR_TARGET, PAIR_PROG[0], 0) && ValidCall(PAIR_TARGET, PAIR_PROG[1], 1);
  }

  lemma {:induction false} PairRanks()
    ensures Rank(RefsProg(PAIR_PROG), Loc(0, 0)) == 0 && Rank(RefsProg(PAIR_PROG), Loc(1, 2)) == 1
  {
    PairParts();
    var used := RefsProg(PAIR_PROG);
    assert Preceding(used, Loc(0, 0)) == {} && Preceding(used, Loc(1, 2)) == {Loc(0, 0)};
  }

  /** A valid program that is compiled wrongly: index 0 is that of the first call's result, which
      the struct does not refer to. */
  lemma {:induction false} SameCallMisses()
    ensures ValidProg(PAIR_TARGET, PAIR_PROG)
    ensures var r := CompileProg(PAIR_TARGET, PAIR_PROG, [[], []]);
      && r.Some? && |r.value| == 2 && r != StaticProg(PAIR_TARGET, PAIR_PROG, [[], []])
      && ResultWords(CopyinArgs(r.value[1].copyin)) == [0] && ResultWords(r.value[1].args) == [0]
    ensures Rank(RefsProg(PAIR_PROG), Loc(0, 0)) == 0 && Rank(RefsProg(PAIR_PROG), Loc(1, 2)) == 1
  {
    PairParts();
    PairIsValid();
    PairRanks();
    var csums: seq<seq<Copyin>> := [[], []];
    ValidLaws(PAIR_TARGET, PAIR_PROG, csums);
    forall c, l | 0 <= c < 2 ensures !Missing(PAIR_PROG, c, l) {
      if c == 0 { assert EmittedRefs(PAIR_PROG[0]) == []; }
    }
    assert Loc(1, 2) in EmittedRefs(PAIR_PROG[1]) by { assert EmitsSeq(PAIR_PROG[1].args, false)[0] == Loc(1, 2); }
    assert !Resolves(PAIR_PROG, 1, Loc(1, 2));
    ValidBackward(PAIR_TARGET, PAIR_PROG);
    ReferencesCarry(PAIR_TARGET, PAIR_PROG, csums, 1);
    assert [Loc(1, 2)][1..] == [] && [Loc(0, 0)][1..] == [];
    assert PassIndices(PAIR_PROG, 1, [Loc(1, 2)]) == [0] && PassIndices(PAIR_PROG, 1, [Loc(0, 0)]) == [0];
  }
}
