/**
  Copyout indices.  The one-pass compiler emits, for every reference to an earlier call, the
  rank of its referent; ranks are distinct and dense from 0.  A reference inside one call either
  has no index, if its referent is not in memory, or gets index 0.  So the pass emits what the
  reference compiler emits exactly when every emitted reference is to an earlier call, or to the
  result of rank 0 in memory.
 */
module CopyoutIndices {
  import opened Ir
  import opened ExecFormat
  import opened ExecCompile
  import opened Defaults

  // ----- ranks -----

  /** References go to result arguments of the program that come earlier, or to themselves: what
      validate demands of links. */
  ghost predicate Backward(p: Program) {
    && (forall c | 0 <= c < |p| :: LinksOkSeq(p[c].args, c, 1))
    && (forall l | l in RefsProg(p) :: Exists(p, l))
  }

  function Preceding(used: set<Loc>, l: Loc): set<Loc> {
    set x | x in used && Less(x, l)
  }

  lemma {:induction false} RankNext(used: set<Loc>, c: nat, k: nat)
    ensures Rank(used, Loc(c, k + 1)) == Rank(used, Loc(c, k)) + if Loc(c, k) in used then 1 else 0
  {
    var s, t := Preceding(used, Loc(c, k)), Preceding(used, Loc(c, k + 1));
    if Loc(c, k) in used {
      assert t == s + {Loc(c, k)};
    } else {
      assert t == s;
    }
  }

  lemma {:induction false} RankCall(used: set<Loc>, c: nat, k: nat)
    requires forall l :: l in used && l.call == c ==> l.idx < k
    ensures Rank(used, Loc(c + 1, 0)) == Rank(used, Loc(c, k))
  {
    assert Preceding(used, Loc(c + 1, 0)) == Preceding(used, Loc(c, k));
  }

  lemma {:induction false} RankZero(used: set<Loc>)
    ensures Rank(used, Loc(0, 0)) == 0
  {
    assert Preceding(used, Loc(0, 0)) == {};
  }

  lemma {:induction false} SubsetSize<T>(s: set<T>, t: set<T>)
    requires s <= t
    ensures |s| <= |t|
  {
    if s != {} {
      var x :| x in s;
      SubsetSize(s - {x}, t - {x});
    }
  }

  /** Ranks follow program order, so different results get different indices. */
  lemma {:induction false} RankStrict(used: set<Loc>, a: Loc, b: Loc)
    requires a in used && Less(a, b)
    ensures Rank(used, a) < Rank(used, b)
  {
    var s, t := Preceding(used, a), Preceding(used, b);
    assert s + {a} <= t;
    SubsetSize(s + {a}, t);
  }

  lemma {:induction false} RankBound(used: set<Loc>, a: Loc)
    requires a in used
    ensures Rank(used, a) < |used|
  {
    var s := Preceding(used, a);
    assert s + {a} <= used;
    SubsetSize(s + {a}, used);
  }

  /** The largest of a non-empty set of results. */
  lemma {:induction false} LastOf(used: set<Loc>) returns (m: Loc)
    requires used != {}
    ensures m in used && forall x :: x in used && x != m ==> Less(x, m)
  {
    var x :| x in used;
    m := x;
    if used - {x} != {} {
      var y := LastOf(used - {x});
      if Less(x, y) {
        m := y;
      }
      forall z | z in used && z != m ensures Less(z, m) {
        if z != x && z != y { assert Less(z, y); }
      }
    } else {
      assert used == {x};
    }
  }

  /** Every index below the number of used results is the rank of one of them. */
  lemma {:induction false} RankOnto(used: set<Loc>, i: nat) returns (l: Loc)
    requires i < |used|
    ensures l in used && Rank(used, l) == i
    decreases |used|
  {
    var m := LastOf(used);
    assert Preceding(used, m) == used - {m};
    if i == |used| - 1 {
      l := m;
    } else {
      l := RankOnto(used - {m}, i);
      assert Preceding(used, l) == Preceding(used - {m}, l);
    }
  }

  // ----- the pass keeps the infos of earlier calls -----

  /** All used results of calls before `c` have their final index. */
  ghost predicate Settled(used: set<Loc>, c: nat, infos: Infos) {
    forall l :: l in used && l.call < c ==> l in infos && infos[l].idx == Rank(used, l)
  }

  /** What writeCopyin records below one argument. */
  ghost function Recorded(tgt: Target, used: set<Loc>, c: nat, a: Arg, base: Option<U64>, off: nat, k: nat): Infos
    decreases a, 0
  {
    match a
    case ResultArg(t, _, _, _, _) =>
      if base.Some? && Loc(c, k) in used then map[Loc(c, k) := Info(AddrAt(base.value, off, t), 0, false)] else map[]
    case GroupArg(_, inner) => RecordedSeq(tgt, used, c, inner, base, off, k)
    case PointerArg(_, _, _, res) =>
      if res.Some? then Recorded(tgt, used, c, res.value, Some(PointeeBase(tgt, a)), 0, k) else map[]
    case UnionArg(_, option) => Recorded(tgt, used, c, option, base, off, k)
    case _ => map[]
  }

  ghost function RecordedSeq(tgt: Target, used: set<Loc>, c: nat, args: seq<Arg>, base: Option<U64>, off: nat,
      k: nat): Infos
    decreases args, 1
  {
    if args == [] then map[]
    else Recorded(tgt, used, c, args[0], base, off, k)
         + RecordedSeq(tgt, used, c, args[1..], base, off + Size(args[0]), k + NumResults(args[0]))
  }

  ghost function RecordedTop(tgt: Target, used: set<Loc>, c: nat, args: seq<Arg>, k: nat): Infos
    decreases args
  {
    if args == [] then map[]
    else Recorded(tgt, used, c, args[0], None, 0, k) + RecordedTop(tgt, used, c, args[1..], k + NumResults(args[0]))
  }

  ghost predicate KeysIn(m: Infos, c: nat, lo: nat, hi: nat) {
    forall l :: l in m ==> l.call == c && lo <= l.idx < hi && !m[l].ret
  }

  lemma {:induction false} RecordedKeys(tgt: Target, used: set<Loc>, c: nat, a: Arg, base: Option<U64>, off: nat,
      k: nat)
    ensures KeysIn(Recorded(tgt, used, c, a, base, off, k), c, k, k + NumResults(a))
    decreases a, 0
  {
    match a
    case GroupArg(_, inner) => RecordedKeysSeq(tgt, used, c, inner, base, off, k);
    case PointerArg(_, _, _, res) =>
      if res.Some? { RecordedKeys(tgt, used, c, res.value, Some(PointeeBase(tgt, a)), 0, k); }
    case UnionArg(_, option) => RecordedKeys(tgt, used, c, option, base, off, k);
    case _ =>
  }

  lemma {:induction false} RecordedKeysSeq(tgt: Target, used: set<Loc>, c: nat, args: seq<Arg>, base: Option<U64>,
      off: nat, k: nat)
    ensures KeysIn(RecordedSeq(tgt, used, c, args, base, off, k), c, k, k + NumResultsSeq(args))
    decreases args, 1
  {
    if args != [] {
      RecordedKeys(tgt, used, c, args[0], base, off, k);
      RecordedKeysSeq(tgt, used, c, args[1..], base, off + Size(args[0]), k + NumResults(args[0]));
    }
  }

  lemma {:induction false} RecordedKeysTop(tgt: Target, used: set<Loc>, c: nat, args: seq<Arg>, k: nat)
    ensures KeysIn(RecordedTop(tgt, used, c, args, k), c, k, k + NumResultsSeq(args))
    decreases args
  {
    if args != [] {
      RecordedKeys(tgt, used, c, args[0], None, 0, k);
      RecordedKeysTop(tgt, used, c, args[1..], k + NumResults(args[0]));
    }
  }

  // ----- what is known of a referent when a reference to it is emitted -----

  /** The results of call `c` that lie in memory, behind a pointer. */
  ghost function Behind(c: nat, a: Arg, inMem: bool, k: nat): set<Loc>
    decreases a, 0
  {
    match a
    case ResultArg(_, _, _, _, _) => if inMem then {Loc(c, k)} else {}
    case GroupArg(_, inner) => BehindSeq(c, inner, inMem, k)
    case PointerArg(_, _, _, res) => if res.Some? then Behind(c, res.value, true, k) else {}
    case UnionArg(_, option) => Behind(c, option, inMem, k)
    case _ => {}
  }

  ghost function BehindSeq(c: nat, args: seq<Arg>, inMem: bool, k: nat): set<Loc>
    decreases args, 1
  {
    if args == [] then {} else Behind(c, args[0], inMem, k) + BehindSeq(c, args[1..], inMem, k + NumResults(args[0]))
  }

  ghost function InMemory(p: Program, c: nat): set<Loc>
    requires c < |p|
  {
    BehindSeq(c, p[c].args, false, 1)
  }

  ghost predicate Within(s: set<Loc>, c: nat, lo: nat, hi: nat) {
    forall l :: l in s ==> l.call == c && lo <= l.idx < hi
  }

  lemma {:induction false} BehindWithin(c: nat, a: Arg, inMem: bool, k: nat)
    ensures Within(Behind(c, a, inMem, k), c, k, k + NumResults(a))
    decreases a, 0
  {
    match a
    case GroupArg(_, inner) => BehindWithinSeq(c, inner, inMem, k);
    case PointerArg(_, _, _, res) => if res.Some? { BehindWithin(c, res.value, true, k); }
    case UnionArg(_, option) => BehindWithin(c, option, inMem, k);
    case _ =>
  }

  lemma {:induction false} BehindWithinSeq(c: nat, args: seq<Arg>, inMem: bool, k: nat)
    ensures Within(BehindSeq(c, args, inMem, k), c, k, k + NumResultsSeq(args))
    decreases args, 1
  {
    if args != [] {
      BehindWithin(c, args[0], inMem, k);
      BehindWithinSeq(c, args[1..], inMem, k + NumResults(args[0]));
    }
  }

  /** What is recorded are the used results in memory, still with index 0. */
  ghost predicate Records(m: Infos, used: set<Loc>, s: set<Loc>) {
    (forall l :: l in m <==> l in used && l in s) && (forall l :: l in m ==> m[l].idx == 0)
  }

  lemma {:induction false} RecordedIs(tgt: Target, used: set<Loc>, c: nat, a: Arg, base: Option<U64>, off: nat, k: nat)
    ensures Records(Recorded(tgt, used, c, a, base, off, k), used, Behind(c, a, base.Some?, k))
    decreases a, 0
  {
    match a
    case GroupArg(_, inner) => RecordedIsSeq(tgt, used, c, inner, base, off, k);
    case PointerArg(_, _, _, res) =>
      if res.Some? { RecordedIs(tgt, used, c, res.value, Some(PointeeBase(tgt, a)), 0, k); }
    case UnionArg(_, option) => RecordedIs(tgt, used, c, option, base, off, k);
    case _ =>
  }

  lemma {:induction false} RecordedIsSeq(tgt: Target, used: set<Loc>, c: nat, args: seq<Arg>, base: Option<U64>,
      off: nat, k: nat)
    ensures Records(RecordedSeq(tgt, used, c, args, base, off, k), used, BehindSeq(c, args, base.Some?, k))
    decreases args, 1
  {
    if args != [] {
      RecordedIs(tgt, used, c, args[0], base, off, k);
      RecordedIsSeq(tgt, used, c, args[1..], base, off + Size(args[0]), k + NumResults(args[0]));
    }
  }

  lemma {:induction false} RecordedIsTop(tgt: Target, used: set<Loc>, c: nat, args: seq<Arg>, k: nat)
    ensures Records(RecordedTop(tgt, used, c, args, k), used, BehindSeq(c, args, false, k))
    decreases args
  {
    if args != [] {
      RecordedIs(tgt, used, c, args[0], None, 0, k);
      RecordedIsTop(tgt, used, c, args[1..], k + NumResults(args[0]));
    }
  }

  /** What the pass knows when it emits references of call `c`, whose results in memory are `mem`:
      earlier results have their index, results in memory have index 0 and others none. */
  function PassInfos(used: set<Loc>, mem: set<Loc>, c: nat): Infos {
    map l | l in used && (l.call < c || l in mem) :: Info(0, if l.call < c then Rank(used, l) else 0, false)
  }

  /** The infos when writeCopyin has come to ordinal `k` of call `c`. */
  ghost predicate Ready(used: set<Loc>, mem: set<Loc>, c: nat, k: nat, infos: Infos) {
    && Settled(used, c, infos)
    && (forall l :: l in infos && l.call == c && l.idx >= 1 ==> l.idx < k && l in mem && infos[l].idx == 0)
    && (forall l :: l in used && l in mem && l.call == c && l.idx < k ==> l in infos)
  }

  /** `sub` are the members of `mem` among the ordinals from `lo` to `hi`. */
  ghost predicate Local(mem: set<Loc>, c: nat, lo: nat, hi: nat, sub: set<Loc>) {
    forall i :: lo <= i < hi ==> (Loc(c, i) in mem <==> Loc(c, i) in sub)
  }

  lemma {:induction false} LocalSplit(mem: set<Loc>, c: nat, lo: nat, mid: nat, hi: nat, s0: set<Loc>, s1: set<Loc>)
    requires lo <= mid <= hi && Local(mem, c, lo, hi, s0 + s1) && Within(s0, c, lo, mid) && Within(s1, c, mid, hi)
    ensures Local(mem, c, lo, mid, s0) && Local(mem, c, mid, hi, s1)
  {
    forall i | lo <= i < mid ensures Loc(c, i) in mem <==> Loc(c, i) in s0 { assert Loc(c, i) !in s1; }
    forall i | mid <= i < hi ensures Loc(c, i) in mem <==> Loc(c, i) in s1 { assert Loc(c, i) !in s0; }
  }

  lemma {:induction false} ReadyPlus(used: set<Loc>, mem: set<Loc>, c: nat, lo: nat, hi: nat, infos: Infos, rec: Infos,
      sub: set<Loc>)
    requires 1 <= lo <= hi && Ready(used, mem, c, lo, infos) && Local(mem, c, lo, hi, sub)
    requires Within(sub, c, lo, hi) && Records(rec, used, sub)
    ensures Ready(used, mem, c, hi, infos + rec)
  {
    forall l | l in infos + rec && l.call == c && l.idx >= 1
      ensures l.idx < hi && l in mem && (infos + rec)[l].idx == 0
    {
      if l in rec { assert l == Loc(c, l.idx) && l in sub; }
    }
    forall l | l in used && l in mem && l.call == c && l.idx < hi ensures l in infos + rec {
      if l.idx >= lo { assert l == Loc(c, l.idx) && l in sub; }
    }
  }

  lemma {:induction false} LinksBelow(a: Arg, c: nat, k: nat, hi: nat)
    requires LinksOk(a, c, k) && 1 <= k && k + NumResults(a) <= hi
    ensures forall l :: l in Refs(a) ==> Before(l, c, hi)
    decreases a, 0
  {
    match a
    case PointerArg(_, _, _, res) => if res.Some? { LinksBelow(res.value, c, k, hi); }
    case GroupArg(_, inner) => LinksBelowSeq(inner, c, k, hi);
    case UnionArg(_, option) => LinksBelow(option, c, k, hi);
    case _ =>
  }

  lemma {:induction false} LinksBelowSeq(args: seq<Arg>, c: nat, k: nat, hi: nat)
    requires LinksOkSeq(args, c, k) && 1 <= k && k + NumResultsSeq(args) <= hi
    ensures forall l :: l in RefsSeq(args) ==> Before(l, c, hi)
    decreases args, 1
  {
    if args != [] {
      LinksBelow(args[0], c, k, hi);
      LinksBelowSeq(args[1..], c, k + NumResults(args[0]), hi);
    }
  }

  // ----- arguments and copyins -----

  /** References to what came before are looked up alike in the infos of the pass. */
  lemma {:induction false} WriteArgAgrees(tgt: Target, used: set<Loc>, mem: set<Loc>, c: nat, k: nat, a: Arg,
      infos: Infos)
    requires Ready(used, mem, c, k, infos) && forall l :: l in Refs(a) ==> l in used && Before(l, c, k)
    ensures WriteArg(tgt, infos, a) == WriteArg(tgt, PassInfos(used, mem, c), a)
    decreases a
  {
    match a
    case UnionArg(_, option) => WriteArgAgrees(tgt, used, mem, c, k, option, infos);
    case ResultArg(_, ref, _, _, _) => if ref.Some? { assert ref.value in Refs(a); }
    case _ =>
  }

  lemma {:induction false} WriteArgsAgree(tgt: Target, used: set<Loc>, mem: set<Loc>, c: nat, k: nat, args: seq<Arg>,
      infos: Infos)
    requires Ready(used, mem, c, k, infos) && forall l :: l in RefsSeq(args) ==> l in used && Before(l, c, k)
    ensures WriteArgs(tgt, infos, args) == WriteArgs(tgt, PassInfos(used, mem, c), args)
    decreases args
  {
    if args != [] {
      WriteArgAgrees(tgt, used, mem, c, k, args[0], infos);
      WriteArgsAgree(tgt, used, mem, c, k, args[1..], infos);
    }
  }

  /** The result the pass must deliver for copyins: the static list and the recorded infos. */
  function Deliver(ins: Option<seq<Copyin>>, infos: Infos): Emitted {
    if ins.None? then None else Some((ins.value, infos))
  }

  lemma {:induction false} DeliverThen(one: Option<seq<Copyin>>, infos1: Infos, more: Option<seq<Copyin>>,
      infos2: Infos)
    ensures Then(Deliver(one, infos1), Deliver(more, infos2)) == Deliver(Join(one, more), infos2)
  {
  }

  lemma {:induction false} MapPlusAssoc(a: Infos, b: Infos, c: Infos)
    ensures (a + b) + c == a + (b + c)
  {
  }

  /** The infos before the copyin of an argument: its own place is recorded already. */
  ghost function OwnInfos(used: set<Loc>, c: nat, a: Arg, base: Option<U64>, off: nat, k: nat, infos: Infos): Infos {
    if base.Some? && a.ResultArg? && Loc(c, k) in used
        then infos[Loc(c, k) := Info(AddrAt(base.value, off, a.typ), 0, false)] else infos
  }

  lemma {:induction false} OwnAgrees(tgt: Target, used: set<Loc>, mem: set<Loc>, c: nat, a: Arg, base: Option<U64>,
      off: nat, k: nat, infos: Infos)
    requires 1 <= k && Ready(used, mem, c, k, infos) && LinksOk(a, c, k) && Refs(a) <= used
    requires Local(mem, c, k, k + NumResults(a), Behind(c, a, base.Some?, k))
    ensures OwnCopyin(tgt, OwnInfos(used, c, a, base, off, k, infos), a, base, off) ==
        OwnCopyin(tgt, PassInfos(used, mem, c), a, base, off)
  {
    if base.Some? && a.ResultArg? {
      var infos1 := OwnInfos(used, c, a, base, off, k, infos);
      assert Loc(c, k) in Behind(c, a, true, k);
      assert Loc(c, k) in mem;
      LinksBelow(a, c, k, k + 1);
      WriteArgAgrees(tgt, used, mem, c, k + 1, a, infos1);
    }
  }

  lemma {:induction false} CopyinsAgree(tgt: Target, used: set<Loc>, mem: set<Loc>, c: nat, a: Arg, base: Option<U64>,
      off: nat, k: nat, infos: Infos)
    requires 1 <= k && Ready(used, mem, c, k, infos) && LinksOk(a, c, k) && Refs(a) <= used
    requires Local(mem, c, k, k + NumResults(a), Behind(c, a, base.Some?, k))
    ensures Copyins(tgt, used, c, a, base, off, k, infos)
         == Deliver(StaticCopyins(tgt, PassInfos(used, mem, c), a, base, off),
             infos + Recorded(tgt, used, c, a, base, off, k))
    decreases a, 0
  {
    var infos1 := OwnInfos(used, c, a, base, off, k, infos);
    OwnAgrees(tgt, used, mem, c, a, base, off, k, infos);
    match a
    case GroupArg(_, inner) => CopyinsSeqAgree(tgt, used, mem, c, inner, base, off, k, infos1);
    case PointerArg(_, _, _, res) =>
      if res.Some? {
        CopyinsAgree(tgt, used, mem, c, res.value, Some(PointeeBase(tgt, a)), 0, k, infos1);
      } else {
        assert infos + map[] == infos;
      }
    case UnionArg(_, option) => CopyinsAgree(tgt, used, mem, c, option, base, off, k, infos1);
    case ResultArg(_, _, _, _, _) =>
      assert infos1 == infos + Recorded(tgt, used, c, a, base, off, k);
    case _ => assert infos + map[] == infos;
  }

  lemma {:induction false} CopyinsSeqAgree(tgt: Target, used: set<Loc>, mem: set<Loc>, c: nat, args: seq<Arg>,
      base: Option<U64>, off: nat, k: nat, infos: Infos)
    requires 1 <= k && Ready(used, mem, c, k, infos) && LinksOkSeq(args, c, k) && RefsSeq(args) <= used
    requires Local(mem, c, k, k + NumResultsSeq(args), BehindSeq(c, args, base.Some?, k))
    ensures CopyinsSeq(tgt, used, c, args, base, off, k, infos)
         == Deliver(StaticCopyinsSeq(tgt, PassInfos(used, mem, c), args, base, off),
             infos + RecordedSeq(tgt, used, c, args, base, off, k))
    decreases args, 1
  {
    if args == [] {
      assert infos + map[] == infos;
    } else {
      var off1, k1, inMem := off + Size(args[0]), k + NumResults(args[0]), base.Some?;
      BehindWithin(c, args[0], inMem, k);
      BehindWithinSeq(c, args[1..], inMem, k1);
      LocalSplit(mem, c, k, k1, k + NumResultsSeq(args), Behind(c, args[0], inMem, k),
          BehindSeq(c, args[1..], inMem, k1));
      CopyinsAgree(tgt, used, mem, c, args[0], base, off, k, infos);
      RecordedIs(tgt, used, c, args[0], base, off, k);
      var r0, r1 := Recorded(tgt, used, c, args[0], base, off, k), RecordedSeq(tgt, used, c, args[1..], base, off1, k1);
      ReadyPlus(used, mem, c, k, k1, infos, r0, Behind(c, args[0], inMem, k));
      CopyinsSeqAgree(tgt, used, mem, c, args[1..], base, off1, k1, infos + r0);
      MapPlusAssoc(infos, r0, r1);
      var pass := PassInfos(used, mem, c);
      var s0, s1 := StaticCopyins(tgt, pass, args[0], base, off), StaticCopyinsSeq(tgt, pass, args[1..], base, off1);
      DeliverThen(s0, infos + r0, s1, infos + (r0 + r1));
      SeqStep(tgt, used, c, args, base, off, k, infos, s0, infos + r0, s1, infos + (r0 + r1));
    }
  }

  /** CopyinsSeq in terms of what its first argument and the rest deliver. */
  lemma {:induction false} SeqStep(tgt: Target, used: set<Loc>, c: nat, args: seq<Arg>, base: Option<U64>, off: nat,
      k: nat, infos: Infos,
                                   s0: Option<seq<Copyin>>, i0: Infos, s1: Option<seq<Copyin>>, i1: Infos)
    requires args != [] && Copyins(tgt, used, c, args[0], base, off, k, infos) == Deliver(s0, i0)
    requires CopyinsSeq(tgt, used, c, args[1..], base, off + Size(args[0]), k + NumResults(args[0]), i0) ==
        Deliver(s1, i1)
    ensures CopyinsSeq(tgt, used, c, args, base, off, k, infos) == Then(Deliver(s0, i0), Deliver(s1, i1))
  {
  }

  lemma {:induction false} CopyinsTopAgree(tgt: Target, used: set<Loc>, mem: set<Loc>, c: nat, args: seq<Arg>, k: nat,
      infos: Infos)
    requires 1 <= k && Ready(used, mem, c, k, infos) && LinksOkSeq(args, c, k) && RefsSeq(args) <= used
    requires Local(mem, c, k, k + NumResultsSeq(args), BehindSeq(c, args, false, k))
    ensures CopyinsTop(tgt, used, c, args, k, infos)
         == Deliver(StaticCopyinsTop(tgt, PassInfos(used, mem, c), args), infos + RecordedTop(tgt, used, c, args, k))
    decreases args
  {
    if args == [] {
      assert infos + map[] == infos;
    } else {
      var k1 := k + NumResults(args[0]);
      BehindWithin(c, args[0], false, k);
      BehindWithinSeq(c, args[1..], false, k1);
      LocalSplit(mem, c, k, k1, k + NumResultsSeq(args), Behind(c, args[0], false, k),
          BehindSeq(c, args[1..], false, k1));
      CopyinsAgree(tgt, used, mem, c, args[0], None, 0, k, infos);
      RecordedIs(tgt, used, c, args[0], None, 0, k);
      var r0, r1 := Recorded(tgt, used, c, args[0], None, 0, k), RecordedTop(tgt, used, c, args[1..], k1);
      ReadyPlus(used, mem, c, k, k1, infos, r0, Behind(c, args[0], false, k));
      CopyinsTopAgree(tgt, used, mem, c, args[1..], k1, infos + r0);
      MapPlusAssoc(infos, r0, r1);
      var pass := PassInfos(used, mem, c);
      DeliverThen(StaticCopyins(tgt, pass, args[0], None, 0), infos + r0,
                  StaticCopyinsTop(tgt, pass, args[1..]), infos + (r0 + r1));
    }
  }

  // ----- copyouts -----

  /** Below the argument `a` the infos are what writeCopyin recorded. */
  ghost predicate Holds(infos: Infos, m: Infos, c: nat, lo: nat, hi: nat) {
    forall i :: lo <= i < hi ==>
      var l := Loc(c, i);
      (l in infos <==> l in m) && (l in m ==> infos[l] == m[l])
  }

  /** After copyouts: indices of [lo, hi) of call `c` are ranks, everything else is as before. */
  ghost predicate HandsOut(used: set<Loc>, before: Infos, after: Infos, c: nat, lo: nat, hi: nat) {
    && (forall l :: l in before && !(l.call == c && lo <= l.idx < hi) ==> l in after && after[l] == before[l])
    && (forall l :: l in after && !(l.call == c && lo <= l.idx < hi) ==> l in before)
    && (forall l :: l in used && l.call == c && lo <= l.idx < hi ==> l in after && after[l].idx == Rank(used, l))
  }

  /** What copyouts over the results [lo, hi) give: the instructions `st`, ranks as indices, and
      the next index. */
  ghost predicate Handed(used: set<Loc>, c: nat, lo: nat, hi: nat, before: Infos, r: (seq<Copyout>, Infos, nat),
      st: seq<Copyout>) {
    r.0 == st && HandsOut(used, before, r.1, c, lo, hi) && r.2 == Rank(used, Loc(c, hi))
  }

  lemma {:induction false} HandedTwice(used: set<Loc>, c: nat, lo: nat, mid: nat, hi: nat, infos: Infos,
                                       r: (seq<Copyout>, Infos, nat), st: seq<Copyout>, r1: (seq<Copyout>, Infos, nat),
                                           st1: seq<Copyout>)
    requires lo <= mid <= hi && Handed(used, c, lo, mid, infos, r, st) && Handed(used, c, mid, hi, r.1, r1, st1)
    ensures Handed(used, c, lo, hi, infos, (r.0 + r1.0, r1.1, r1.2), st + st1)
  {
  }

  /** Infos recorded for a list hold for its head. */
  lemma {:induction false} HoldsHead(infos: Infos, m0: Infos, m1: Infos, c: nat, lo: nat, mid: nat, hi: nat)
    requires lo <= mid <= hi && KeysIn(m1, c, mid, hi) && Holds(infos, m0 + m1, c, lo, hi)
    ensures Holds(infos, m0, c, lo, mid)
  {
    forall i | lo <= i < mid
      ensures (Loc(c, i) in infos <==> Loc(c, i) in m0) && (Loc(c, i) in m0 ==> infos[Loc(c, i)] == m0[Loc(c, i)])
    {
      assert Loc(c, i) !in m1;
      assert Loc(c, i) in infos <==> Loc(c, i) in m0 + m1;
    }
  }

  /** After the head's copyouts they still hold for the rest. */
  lemma {:induction false} HoldsRest(used: set<Loc>, infos: Infos, after: Infos, m0: Infos, m1: Infos, c: nat, lo: nat,
      mid: nat, hi: nat)
    requires lo <= mid <= hi && KeysIn(m0, c, lo, mid) && Holds(infos, m0 + m1, c, lo, hi)
    requires HandsOut(used, infos, after, c, lo, mid)
    ensures Holds(after, m1, c, mid, hi)
  {
    forall i | mid <= i < hi
      ensures (Loc(c, i) in after <==> Loc(c, i) in m1) && (Loc(c, i) in m1 ==> after[Loc(c, i)] == m1[Loc(c, i)])
    {
      assert Loc(c, i) !in m0;
      assert Loc(c, i) in infos <==> Loc(c, i) in m0 + m1;
    }
  }

  lemma {:induction false} CopyoutsAgree(tgt: Target, used: set<Loc>, c: nat, a: Arg, base: Option<U64>, off: nat,
      k: nat, infos: Infos)
    requires Holds(infos, Recorded(tgt, used, c, a, base, off, k), c, k, k + NumResults(a))
    ensures Handed(used, c, k, k + NumResults(a), infos, Copyouts(used, c, a, k, infos, Rank(used, Loc(c, k))),
                   StaticCopyouts(tgt, used, c, a, base, off, k))
    decreases a, 0
  {
    match a
    case ResultArg(_, _, _, _, _) =>
      RankNext(used, c, k);
      assert Loc(c, k) in infos <==> Loc(c, k) in Recorded(tgt, used, c, a, base, off, k);
    case GroupArg(_, inner) => CopyoutsSeqAgree(tgt, used, c, inner, base, off, k, infos);
    case PointerArg(_, _, _, res) =>
      if res.Some? { CopyoutsAgree(tgt, used, c, res.value, Some(PointeeBase(tgt, a)), 0, k, infos); }
    case UnionArg(_, option) => CopyoutsAgree(tgt, used, c, option, base, off, k, infos);
    case _ =>
  }

  lemma {:induction false} CopyoutsSeqAgree(tgt: Target, used: set<Loc>, c: nat, args: seq<Arg>, base: Option<U64>,
      off: nat, k: nat, infos: Infos)
    requires Holds(infos, RecordedSeq(tgt, used, c, args, base, off, k), c, k, k + NumResultsSeq(args))
    ensures Handed(used, c, k, k + NumResultsSeq(args), infos,
        CopyoutsSeq(used, c, args, k, infos, Rank(used, Loc(c, k))),
                   StaticCopyoutsSeq(tgt, used, c, args, base, off, k))
    decreases args, 1
  {
    if args != [] {
      var off1, k1, hi := off + Size(args[0]), k + NumResults(args[0]), k + NumResultsSeq(args);
      var m0, m1 := Recorded(tgt, used, c, args[0], base, off, k), RecordedSeq(tgt, used, c, args[1..], base, off1, k1);
      RecordedKeys(tgt, used, c, args[0], base, off, k);
      RecordedKeysSeq(tgt, used, c, args[1..], base, off1, k1);
      HoldsHead(infos, m0, m1, c, k, k1, hi);
      CopyoutsAgree(tgt, used, c, args[0], base, off, k, infos);
      var one := Copyouts(used, c, args[0], k, infos, Rank(used, Loc(c, k)));
      HoldsRest(used, infos, one.1, m0, m1, c, k, k1, hi);
      CopyoutsSeqAgree(tgt, used, c, args[1..], base, off1, k1, one.1);
      HandedTwice(used, c, k, k1, hi, infos, one, StaticCopyouts(tgt, used, c, args[0], base, off, k),
                  CopyoutsSeq(used, c, args[1..], k1, one.1, one.2),
                      StaticCopyoutsSeq(tgt, used, c, args[1..], base, off1, k1));
    }
  }

  lemma {:induction false} CopyoutsTopAgree(tgt: Target, used: set<Loc>, c: nat, args: seq<Arg>, k: nat, infos: Infos)
    requires Holds(infos, RecordedTop(tgt, used, c, args, k), c, k, k + NumResultsSeq(args))
    ensures Handed(used, c, k, k + NumResultsSeq(args), infos,
        CopyoutsSeq(used, c, args, k, infos, Rank(used, Loc(c, k))),
                   StaticCopyoutsTop(tgt, used, c, args, k))
    decreases args
  {
    if args != [] {
      var k1, hi := k + NumResults(args[0]), k + NumResultsSeq(args);
      var m0, m1 := Recorded(tgt, used, c, args[0], None, 0, k), RecordedTop(tgt, used, c, args[1..], k1);
      RecordedKeys(tgt, used, c, args[0], None, 0, k);
      RecordedKeysTop(tgt, used, c, args[1..], k1);
      HoldsHead(infos, m0, m1, c, k, k1, hi);
      CopyoutsAgree(tgt, used, c, args[0], None, 0, k, infos);
      var one := Copyouts(used, c, args[0], k, infos, Rank(used, Loc(c, k)));
      HoldsRest(used, infos, one.1, m0, m1, c, k, k1, hi);
      CopyoutsTopAgree(tgt, used, c, args[1..], k1, one.1);
      HandedTwice(used, c, k, k1, hi, infos, one, StaticCopyouts(tgt, used, c, args[0], None, 0, k),
                  CopyoutsSeq(used, c, args[1..], k1, one.1, one.2), StaticCopyoutsTop(tgt, used, c, args[1..], k1));
    }
  }

  // ----- calls and programs -----

  /** State between calls: everything before `c` settled, nothing of `c` or later recorded. */
  ghost predicate Between(used: set<Loc>, c: nat, infos: Infos, n: nat) {
    Settled(used, c, infos) && (forall l :: l in infos ==> l.call < c) && n == Rank(used, Loc(c, 0))
  }

  /** The compiled call `r` is the reference call `s`, and the state is ready for call `c + 1`. */
  ghost predicate Agree(used: set<Loc>, c: nat, r: Option<(ExecCall, Infos, nat)>, s: Option<ExecCall>) {
    && (r.None? <==> s.None?)
    && (r.Some? ==> r.value.0 == s.value && Between(used, c + 1, r.value.1, r.value.2))
  }

  /** The infos when the call itself is emitted. */
  ghost function AtCall(used: set<Loc>, c: nat, call: Call, infos1: Infos, n: nat): Infos {
    if call.ret.Some? && Loc(c, 0) in used then infos1[Loc(c, 0) := Info(0, n, true)] else infos1
  }

  lemma {:induction false} AtCallHolds(used: set<Loc>, c: nat, call: Call, infos: Infos, rec: Infos, hi: nat, n: nat)
    requires Between(used, c, infos, n) && KeysIn(rec, c, 1, hi)
    ensures Loc(c, 0) !in infos + rec
    ensures Settled(used, c, AtCall(used, c, call, infos + rec, n))
    ensures Holds(AtCall(used, c, call, infos + rec, n), rec, c, 1, hi)
  {
  }

  lemma {:induction false} AfterCopyouts(used: set<Loc>, p: Program, c: nat, infos: Infos, rec: Infos, n: nat,
      after: Infos, m: nat)
    requires c < |p| && Between(used, c, infos, n)
    requires forall l :: l in used ==> Exists(p, l)
    requires KeysIn(rec, c, 1, 1 + NumResultsSeq(p[c].args))
    requires HandsOut(used, AtCall(used, c, p[c], infos + rec, n), after, c, 1, 1 + NumResultsSeq(p[c].args))
    requires m == Rank(used, Loc(c, 1 + NumResultsSeq(p[c].args)))
    ensures Between(used, c + 1, after, m)
  {
    var hi := 1 + NumResultsSeq(p[c].args);
    var at := AtCall(used, c, p[c], infos + rec, n);
    forall l | l in used && l.call == c ensures l.idx < hi { assert Exists(p, l); }
    RankCall(used, c, hi);
    forall l | l in used && l.call < c + 1 ensures l in after && after[l].idx == Rank(used, l) {
      assert Exists(p, l);
      if l.call == c && l.idx == 0 {
        assert l == Loc(c, 0) && l in at && at[l].idx == n;
      } else if l.call < c {
        assert l in infos && l in at && at[l] == infos[l];
      }
    }
    forall l | l in after ensures l.call < c + 1 {
      if !(l.call == c && 1 <= l.idx < hi) { assert l in at; }
    }
  }

  /** When the call itself is emitted all its results in memory are recorded. */
  lemma {:induction false} AtCallReady(tgt: Target, used: set<Loc>, p: Program, c: nat, infos: Infos, n: nat)
    requires c < |p| && Between(used, c, infos, n)
    ensures Ready(used, InMemory(p, c), c, 1 + NumResultsSeq(p[c].args),
                  AtCall(used, c, p[c], infos + RecordedTop(tgt, used, c, p[c].args, 1), n))
  {
    var mem, rec, hi := InMemory(p, c), RecordedTop(tgt, used, c, p[c].args, 1), 1 + NumResultsSeq(p[c].args);
    RecordedIsTop(tgt, used, c, p[c].args, 1);
    BehindWithinSeq(c, p[c].args, false, 1);
    ReadyPlus(used, mem, c, 1, hi, infos, rec, mem);
  }

  lemma {:induction false} FinishAgrees(tgt: Target, used: set<Loc>, p: Program, c: nat, ins: seq<Copyin>,
      infos: Infos, n: nat)
    requires c < |p| && Between(used, c, infos, n)
    requires forall l :: l in used ==> Exists(p, l)
    requires RefsSeq(p[c].args) <= used && LinksOkSeq(p[c].args, c, 1)
    ensures Agree(used, c, FinishCall(tgt, used, c, p[c], ins, infos + RecordedTop(tgt, used, c, p[c].args, 1), n),
                  StaticFinish(tgt, used, PassInfos(used, InMemory(p, c), c), c, p[c], ins))
  {
    var call := p[c];
    var rec := RecordedTop(tgt, used, c, call.args, 1);
    var at := AtCall(used, c, call, infos + rec, n);
    AtCallReady(tgt, used, p, c, infos, n);
    LinksBelowSeq(call.args, c, 1, 1 + NumResultsSeq(call.args));
    WriteArgsAgree(tgt, used, InMemory(p, c), c, 1 + NumResultsSeq(call.args), call.args, at);
    var outs := OutsAgree(tgt, used, p, c, infos, n);
    FinishStep(tgt, used, c, call, ins, infos + rec, n, outs);
  }

  /** The copyouts of a call, after which the state is ready for the next call. */
  lemma {:induction false} OutsAgree(tgt: Target, used: set<Loc>, p: Program, c: nat, infos: Infos, n: nat)
    returns (outs: (seq<Copyout>, Infos, nat))
    requires c < |p| && Between(used, c, infos, n)
    requires forall l :: l in used ==> Exists(p, l)
    ensures var infos1 := infos + RecordedTop(tgt, used, c, p[c].args, 1);
      && Loc(c, 0) !in infos1
      && outs == CopyoutsSeq(used, c, p[c].args, 1, AtCall(used, c, p[c], infos1, n),
                             if p[c].ret.Some? && Loc(c, 0) in used then n + 1 else n)
      && outs.0 == StaticCopyoutsTop(tgt, used, c, p[c].args, 1) && Between(used, c + 1, outs.1, outs.2)
  {
    var call := p[c];
    var rec := RecordedTop(tgt, used, c, call.args, 1);
    RecordedKeysTop(tgt, used, c, call.args, 1);
    AtCallHolds(used, c, call, infos, rec, 1 + NumResultsSeq(call.args), n);
    var at := AtCall(used, c, call, infos + rec, n);
    CopyoutsTopAgree(tgt, used, c, call.args, 1, at);
    RankNext(used, c, 0);
    if Loc(c, 0) in used { assert Exists(p, Loc(c, 0)); }
    var next := if call.ret.Some? && Loc(c, 0) in used then n + 1 else n;
    assert next == Rank(used, Loc(c, 1));
    outs := CopyoutsSeq(used, c, call.args, 1, at, next);
    AfterCopyouts(used, p, c, infos, rec, n, outs.1, outs.2);
  }

  /** FinishCall, once it is clear that the return value was not recorded before. */
  lemma {:induction false} FinishStep(tgt: Target, used: set<Loc>, c: nat, call: Call, ins: seq<Copyin>, infos1: Infos,
      n: nat,
                                      outs: (seq<Copyout>, Infos, nat))
    requires Loc(c, 0) !in infos1
    requires outs == CopyoutsSeq(used, c, call.args, 1, AtCall(used, c, call, infos1, n),
                                 if call.ret.Some? && Loc(c, 0) in used then n + 1 else n)
    ensures var args := WriteArgs(tgt, AtCall(used, c, call, infos1, n), call.args);
      FinishCall(tgt, used, c, call, ins, infos1, n) ==
      if args.None? then None
      else Some((ExecCall(call.meta.id % TWO64, if call.ret.Some? && Loc(c, 0) in used then n % TWO64 else NO_COPYOUT,
                          args.value, ins, outs.0), outs.1, outs.2))
  {
  }

  lemma {:induction false} CallAgrees(tgt: Target, used: set<Loc>, p: Program, c: nat, csums: seq<Copyin>,
      infos: Infos, n: nat)
    requires c < |p| && Between(used, c, infos, n)
    requires forall l :: l in used ==> Exists(p, l)
    requires RefsSeq(p[c].args) <= used && LinksOkSeq(p[c].args, c, 1)
    ensures Agree(used, c, CompileCall(tgt, used, c, p[c], csums, infos, n),
                  StaticCall(tgt, used, PassInfos(used, InMemory(p, c), c), c, p[c], csums))
  {
    var pass := PassInfos(used, InMemory(p, c), c);
    BehindWithinSeq(c, p[c].args, false, 1);
    CopyinsTopAgree(tgt, used, InMemory(p, c), c, p[c].args, 1, infos);
    var ins := StaticCopyinsTop(tgt, pass, p[c].args);
    if ins.Some? {
      FinishAgrees(tgt, used, p, c, ins.value + csums, infos, n);
    }
  }

  /** In state `s` step `f` emits what `one` says for call `c`, and `inv` is kept. */
  ghost predicate StepAgrees<S>(f: (nat, S) -> Option<(ExecCall, S)>, one: nat -> Option<ExecCall>,
                                inv: (nat, S) -> bool, c: nat, s: S)
  {
    && (f(c, s).None? <==> one(c).None?)
    && (f(c, s).Some? ==> f(c, s).value.0 == one(c).value && inv(c + 1, f(c, s).value.1))
  }

  lemma {:induction false} RunsAgree<S(!new)>(f: (nat, S) -> Option<(ExecCall, S)>, one: nat -> Option<ExecCall>,
                                               inv: (nat, S) -> bool, c: nat, n: nat, s: S)
    requires c <= n && inv(c, s)
    requires forall i: nat, x: S :: i < n && inv(i, x) ==> StepAgrees(f, one, inv, i, x)
    ensures RunFrom(f, c, n, s) == Collect(one, c, n)
    decreases n - c
  {
    if c < n {
      assert StepAgrees(f, one, inv, c, s);
      var x := f(c, s);
      if x.Some? {
        RunsAgree(f, one, inv, c + 1, n, x.value.1);
      }
    }
  }

  ghost function BetweenCalls(used: set<Loc>): (nat, State) -> bool {
    (c: nat, s: State) => Between(used, c, s.infos, s.copyoutSeq)
  }

  /** Call `c` as the pass emits it. */
  ghost function PassOne(tgt: Target, p: Program, csums: seq<seq<Copyin>>): nat -> Option<ExecCall>
    requires |csums| == |p|
  {
    (c: nat) =>
      if c >= |p| then None
      else StaticCall(tgt, RefsProg(p), PassInfos(RefsProg(p), InMemory(p, c), c), c, p[c], csums[c])
  }

  lemma {:induction false} CompileStepAgrees(tgt: Target, p: Program, csums: seq<seq<Copyin>>, c: nat, s: State)
    requires |csums| == |p| && Backward(p) && c < |p| && BetweenCalls(RefsProg(p))(c, s)
    ensures StepAgrees(CompileStep(tgt, RefsProg(p), p, csums), PassOne(tgt, p, csums), BetweenCalls(RefsProg(p)), c, s)
  {
    RefsProgHas(p, c);
    CallAgrees(tgt, RefsProg(p), p, c, csums[c], s.infos, s.copyoutSeq);
  }

  lemma {:induction false} RefsProgHas(p: Program, c: nat)
    requires c < |p|
    ensures RefsSeq(p[c].args) <= RefsProg(p)
  {
    if c > 0 { RefsProgHas(p[1..], c - 1); }
  }

  /** What the one-pass compiler emits, or that it panics, whatever the references of the program:
      an earlier referent has its rank for an index, one of the same call 0 or none. */
  lemma {:induction false} CompileIsPass(tgt: Target, p: Program, csums: seq<seq<Copyin>>)
    requires |csums| == |p| && Backward(p)
    ensures CompileProg(tgt, p, csums) == Collect(PassOne(tgt, p, csums), 0, |p|)
  {
    var used := RefsProg(p);
    var f, one, inv := CompileStep(tgt, used, p, csums), PassOne(tgt, p, csums), BetweenCalls(used);
    forall i: nat, x: State | i < |p| && inv(i, x) ensures StepAgrees(f, one, inv, i, x) {
      CompileStepAgrees(tgt, p, csums, i, x);
    }
    RankZero(used);
    RunsAgree(f, one, inv, 0, |p|, State(map[], 0));
  }
}
