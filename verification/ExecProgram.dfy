/**
  From programs to the decoder: what the exec compiler emits, written out in any buffer, is
  decoded to the same calls exactly when the last index that was handed out is referred to by an
  argument that is emitted.
 */
module ExecProgram {
  import opened Ir
  import opened Defaults
  import opened ExecFormat
  import opened ExecRoundTrip
  import opened ExecCompile
  import opened CopyoutIndices
  import opened CopyoutLaws
  import ExecBuffer

  /** The index that a reference of call `c` carries. */
  function PassIndex(p: Program, c: nat, l: Loc): U64 {
    if l.call < c then Rank(RefsProg(p), l) % TWO64 else 0
  }

  /** Nothing is used, or an emitted reference carries the last index. */
  ghost predicate LastReferenced(p: Program) {
    RefsProg(p) == {} ||
    exists c, l :: 0 <= c < |p| && l in EmittedRefs(p[c]) && PassIndex(p, c, l) + 1 == |RefsProg(p)|
  }

  // ----- referenced indices -----

  lemma {:induction false} PassIndicesHas(p: Program, c: nat, refs: seq<Loc>, x: nat)
    ensures x in PassIndices(p, c, refs) <==> exists l :: l in refs && PassIndex(p, c, l) == x
  {
    if refs != [] {
      PassIndicesHas(p, c, refs[1..], x);
      assert PassIndices(p, c, refs) == [PassIndex(p, c, refs[0])] + PassIndices(p, c, refs[1..]);
      assert forall l :: l in refs <==> l == refs[0] || l in refs[1..];
    }
  }

  lemma {:induction false} WordsReferenced(xs: seq<ExecArg>, x: nat)
    ensures x in Referenced(xs) <==> x in ResultWords(xs)
  {
    if xs != [] {
      WordsReferenced(xs[1..], x);
      ReferencedSplit([xs[0]], xs[1..], x);
      assert [xs[0]] + xs[1..] == xs;
      assert x in Referenced([xs[0]]) <==> xs[0].ExecResult? && xs[0].index == x by {
        if xs[0].ExecResult? { assert [xs[0]][0].index in Referenced([xs[0]]); }
      }
    }
  }

  lemma {:induction false} ReferencedSplit(xs: seq<ExecArg>, ys: seq<ExecArg>, x: nat)
    ensures x in Referenced(xs + ys) <==> x in Referenced(xs) || x in Referenced(ys)
  {
    var all := xs + ys;
    if x in Referenced(all) {
      var i :| 0 <= i < |all| && all[i].ExecResult? && all[i].index == x;
      if i < |xs| { assert xs[i] == all[i]; } else { assert ys[i - |xs|] == all[i]; }
    }
    if x in Referenced(xs) {
      var i :| 0 <= i < |xs| && xs[i].ExecResult? && xs[i].index == x;
      assert all[i] == xs[i];
    }
    if x in Referenced(ys) {
      var i :| 0 <= i < |ys| && ys[i].ExecResult? && ys[i].index == x;
      assert all[|xs| + i] == ys[i];
    }
  }

  ghost predicate CallRefers(call: ExecCall, x: nat) {
    x in Referenced(CopyinArgs(call.copyin)) || x in Referenced(call.args)
  }

  lemma {:induction false} CallsRefer(calls: seq<ExecCall>, x: nat)
    ensures x in Referenced(AllArgs(calls)) <==> exists c :: 0 <= c < |calls| && CallRefers(calls[c], x)
  {
    if calls != [] {
      var rest := calls[1..];
      CallsRefer(rest, x);
      ReferencedSplit(CopyinArgs(calls[0].copyin) + calls[0].args, AllArgs(rest), x);
      ReferencedSplit(CopyinArgs(calls[0].copyin), calls[0].args, x);
      if c :| 0 <= c < |rest| && CallRefers(rest[c], x) { assert CallRefers(calls[c + 1], x); }
      if c :| 0 <= c < |calls| && CallRefers(calls[c], x) { assert c > 0 ==> CallRefers(rest[c - 1], x); }
    }
  }

  /** Checksum instructions refer to no result. */
  ghost predicate PlainCsums(csums: seq<seq<Copyin>>) {
    forall c | 0 <= c < |csums| :: ResultWords(CopyinArgs(csums[c])) == []
  }

  /** An emitted reference of call `c` carries index `x`. */
  ghost predicate RefersTo(p: Program, c: nat, x: nat)
    requires c < |p|
  {
    exists l :: l in EmittedRefs(p[c]) && PassIndex(p, c, l) == x
  }

  lemma {:induction false} CallReferences(tgt: Target, p: Program, csums: seq<seq<Copyin>>, calls: seq<ExecCall>,
      c: nat, x: nat)
    requires |csums| == |p| && Backward(p) && PlainCsums(csums) && c < |p| && CompileProg(tgt, p, csums) == Some(calls)
    ensures |calls| == |p| && (CallRefers(calls[c], x) <==> RefersTo(p, c, x))
  {
    ReferencesCarry(tgt, p, csums, c);
    var ins, tops := EmitsSeq(p[c].args, false), PassesSeq(p[c].args);
    WordsReferenced(CopyinArgs(calls[c].copyin), x);
    WordsReferenced(calls[c].args, x);
    PassIndicesHas(p, c, ins, x);
    PassIndicesHas(p, c, tops, x);
    assert PassIndices(p, c, ins) + [] == PassIndices(p, c, ins);
    assert forall l :: l in EmittedRefs(p[c]) <==> l in ins || l in tops;
  }

  // ----- assigned indices -----

  function CallAssigns(call: ExecCall): set<nat> {
    (if call.index != NO_COPYOUT then {call.index as nat} else {}) + OutIndices(call.copyout)
  }

  lemma {:induction false} CallsAssign(calls: seq<ExecCall>, x: nat)
    ensures x in Assigned(calls) <==> exists c :: 0 <= c < |calls| && x in CallAssigns(calls[c])
  {
    if calls != [] {
      var rest := calls[1..];
      CallsAssign(rest, x);
      if c :| 0 <= c < |rest| && x in CallAssigns(rest[c]) { assert x in CallAssigns(calls[c + 1]); }
      if c :| 0 <= c < |calls| && x in CallAssigns(calls[c]) { assert c > 0 ==> x in CallAssigns(rest[c - 1]); }
    }
  }

  lemma {:induction false} OutsSplit(a: seq<Copyout>, b: seq<Copyout>)
    ensures OutIndices(a + b) == OutIndices(a) + OutIndices(b)
  {
    var all := a + b;
    forall x | x in OutIndices(all) ensures x in OutIndices(a) + OutIndices(b) {
      var i :| 0 <= i < |all| && all[i].index == x;
      if i < |a| { assert a[i] == all[i]; } else { assert b[i - |a|] == all[i]; }
    }
    forall x | x in OutIndices(a) ensures x in OutIndices(all) {
      var i :| 0 <= i < |a| && a[i].index == x;
      assert all[i] == a[i];
    }
    forall x | x in OutIndices(b) ensures x in OutIndices(all) {
      var i :| 0 <= i < |b| && b[i].index == x;
      assert all[|a| + i] == b[i];
    }
  }

  /** The ranks of the used results of call `c` among the ordinals from `lo` to `hi`. */
  function RanksIn(used: set<Loc>, c: nat, lo: nat, hi: nat): set<nat> {
    set k | lo <= k < hi && Loc(c, k) in used :: Rank(used, Loc(c, k))
  }

  lemma {:induction false} RanksSplit(used: set<Loc>, c: nat, lo: nat, mid: nat, hi: nat)
    requires lo <= mid <= hi
    ensures RanksIn(used, c, lo, hi) == RanksIn(used, c, lo, mid) + RanksIn(used, c, mid, hi)
  {
  }

  lemma {:induction false} RanksOne(used: set<Loc>, c: nat, k: nat)
    ensures RanksIn(used, c, k, k + 1) == if Loc(c, k) in used then {Rank(used, Loc(c, k))} else {}
  {
    if Loc(c, k) in used { assert Rank(used, Loc(c, k)) in RanksIn(used, c, k, k + 1); }
  }

  lemma {:induction false} SmallRank(used: set<Loc>, l: Loc)
    requires l in used && |used| < NO_COPYOUT
    ensures Rank(used, l) % TWO64 == Rank(used, l) && Rank(used, l) < NO_COPYOUT
  {
    RankBound(used, l);
    Wrapped(Rank(used, l));
  }

  lemma {:induction false} Wrapped(x: nat)
    ensures x % TWO64 <= x && (x < TWO64 ==> x % TWO64 == x)
  {
  }

  lemma {:induction false} OutOne(o: Copyout)
    ensures OutIndices([o]) == {o.index as nat}
  {
    assert [o][0].index in OutIndices([o]);
  }

  lemma {:induction false} CopyoutRanks(tgt: Target, used: set<Loc>, c: nat, a: Arg, base: Option<U64>, off: nat,
      k: nat)
    requires |used| < NO_COPYOUT
    ensures OutIndices(StaticCopyouts(tgt, used, c, a, base, off, k)) == RanksIn(used, c, k, k + NumResults(a))
    decreases a, 0
  {
    match a
    case ResultArg(_, _, _, _, _) =>
      RanksOne(used, c, k);
      if Loc(c, k) in used {
        SmallRank(used, Loc(c, k));
        OutOne(StaticCopyouts(tgt, used, c, a, base, off, k)[0]);
      }
    case GroupArg(_, inner) => CopyoutRanksSeq(tgt, used, c, inner, base, off, k);
    case PointerArg(_, _, _, res) =>
      if res.Some? { CopyoutRanks(tgt, used, c, res.value, Some(PointeeBase(tgt, a)), 0, k); }
    case UnionArg(_, option) => CopyoutRanks(tgt, used, c, option, base, off, k);
    case _ =>
  }

  lemma {:induction false} CopyoutRanksSeq(tgt: Target, used: set<Loc>, c: nat, args: seq<Arg>, base: Option<U64>,
      off: nat, k: nat)
    requires |used| < NO_COPYOUT
    ensures OutIndices(StaticCopyoutsSeq(tgt, used, c, args, base, off, k)) ==
        RanksIn(used, c, k, k + NumResultsSeq(args))
    decreases args, 1
  {
    if args != [] {
      var off1, k1 := off + Size(args[0]), k + NumResults(args[0]);
      CopyoutRanks(tgt, used, c, args[0], base, off, k);
      CopyoutRanksSeq(tgt, used, c, args[1..], base, off1, k1);
      OutsSplit(StaticCopyouts(tgt, used, c, args[0], base, off, k),
          StaticCopyoutsSeq(tgt, used, c, args[1..], base, off1, k1));
      RanksSplit(used, c, k, k1, k + NumResultsSeq(args));
    }
  }

  lemma {:induction false} CopyoutRanksTop(tgt: Target, used: set<Loc>, c: nat, args: seq<Arg>, k: nat)
    requires |used| < NO_COPYOUT
    ensures OutIndices(StaticCopyoutsTop(tgt, used, c, args, k)) == RanksIn(used, c, k, k + NumResultsSeq(args))
    decreases args
  {
    if args != [] {
      var k1 := k + NumResults(args[0]);
      CopyoutRanks(tgt, used, c, args[0], None, 0, k);
      CopyoutRanksTop(tgt, used, c, args[1..], k1);
      OutsSplit(StaticCopyouts(tgt, used, c, args[0], None, 0, k), StaticCopyoutsTop(tgt, used, c, args[1..], k1));
      RanksSplit(used, c, k, k1, k + NumResultsSeq(args));
    }
  }

  lemma {:induction false} StaticAssigns(tgt: Target, used: set<Loc>, infos: Infos, c: nat, call: Call,
      csums: seq<Copyin>, r: ExecCall)
    requires StaticCall(tgt, used, infos, c, call, csums) == Some(r) && |used| < NO_COPYOUT
    requires Loc(c, 0) in used ==> call.ret.Some?
    ensures CallAssigns(r) == RanksIn(used, c, 0, 1 + NumResultsSeq(call.args))
  {
    CopyoutRanksTop(tgt, used, c, call.args, 1);
    RanksSplit(used, c, 0, 1, 1 + NumResultsSeq(call.args));
    RanksOne(used, c, 0);
    if Loc(c, 0) in used { SmallRank(used, Loc(c, 0)); }
  }

  lemma {:induction false} PassCall(tgt: Target, p: Program, csums: seq<seq<Copyin>>, calls: seq<ExecCall>, c: nat)
    requires |csums| == |p| && Backward(p) && c < |p| && CompileProg(tgt, p, csums) == Some(calls)
    ensures |calls| == |p|
    ensures StaticCall(tgt, RefsProg(p), PassInfos(RefsProg(p), InMemory(p, c), c), c, p[c], csums[c]) == Some(calls[c])
  {
    CompileIsPass(tgt, p, csums);
    CollectParts(PassOne(tgt, p, csums), 0, |p|);
    assert calls[c - 0] == PassOne(tgt, p, csums)(c).value;
  }

  lemma {:induction false} CallAssignsRanks(tgt: Target, p: Program, csums: seq<seq<Copyin>>, calls: seq<ExecCall>,
      c: nat)
    requires |csums| == |p| && c < |p| && |RefsProg(p)| < NO_COPYOUT && |calls| == |p|
    requires StaticCall(tgt, RefsProg(p), PassInfos(RefsProg(p), InMemory(p, c), c), c, p[c], csums[c]) ==
        Some(calls[c])
    requires Loc(c, 0) in RefsProg(p) ==> p[c].ret.Some?
    ensures CallAssigns(calls[c]) == RanksIn(RefsProg(p), c, 0, 1 + NumResultsSeq(p[c].args))
  {
    StaticAssigns(tgt, RefsProg(p), PassInfos(RefsProg(p), InMemory(p, c), c), c, p[c], csums[c], calls[c]);
  }

  lemma {:induction false} RetExists(p: Program, c: nat)
    requires Backward(p) && c < |p| && Loc(c, 0) in RefsProg(p)
    ensures p[c].ret.Some?
  {
    assert Exists(p, Loc(c, 0));
  }

  // ----- the chain -----

  /** What calls refer to and assign, in terms of the program. */
  ghost predicate Describes(p: Program, calls: seq<ExecCall>) {
    && |calls| == |p|
    && (forall c, x: nat | 0 <= c < |p| :: CallRefers(calls[c], x) <==> RefersTo(p, c, x))
    && (forall c | 0 <= c < |p| :: CallAssigns(calls[c]) == RanksIn(RefsProg(p), c, 0, 1 + NumResultsSeq(p[c].args)))
  }

  lemma {:induction false} CompiledDescribes(tgt: Target, p: Program, csums: seq<seq<Copyin>>, calls: seq<ExecCall>)
    requires |csums| == |p| && Backward(p) && PlainCsums(csums) && |RefsProg(p)| < NO_COPYOUT
    requires CompileProg(tgt, p, csums) == Some(calls)
    ensures Describes(p, calls)
  {
    CompileIsPass(tgt, p, csums);
    CollectParts(PassOne(tgt, p, csums), 0, |p|);
    forall c, x: nat | 0 <= c < |p| ensures CallRefers(calls[c], x) <==> RefersTo(p, c, x) {
      CallReferences(tgt, p, csums, calls, c, x);
    }
    forall c | 0 <= c < |p| ensures CallAssigns(calls[c]) == RanksIn(RefsProg(p), c, 0, 1 + NumResultsSeq(p[c].args)) {
      PassCall(tgt, p, csums, calls, c);
      if Loc(c, 0) in RefsProg(p) { RetExists(p, c); }
      CallAssignsRanks(tgt, p, csums, calls, c);
    }
  }

  /** The indices handed out are those below the number of used results. */
  lemma {:induction false} AssignedSup(p: Program, calls: seq<ExecCall>)
    requires Backward(p) && Describes(p, calls) && |RefsProg(p)| < NO_COPYOUT
    ensures IsSup(|RefsProg(p)|, Assigned(calls))
  {
    var used := RefsProg(p);
    forall x | x in Assigned(calls) ensures x < |used| {
      CallsAssign(calls, x);
      var c :| 0 <= c < |calls| && x in CallAssigns(calls[c]);
      var k: nat :| Loc(c, k) in used && Rank(used, Loc(c, k)) == x;
      RankBound(used, Loc(c, k));
    }
    if |used| != 0 { LastAssigned(p, calls); }
  }

  lemma {:induction false} LastAssigned(p: Program, calls: seq<ExecCall>)
    requires Backward(p) && Describes(p, calls) && |RefsProg(p)| != 0
    ensures |RefsProg(p)| - 1 in Assigned(calls)
  {
    var used, x := RefsProg(p), |RefsProg(p)| - 1;
    var l := RankOnto(used, x);
    Stands(p, l);
    RankAmong(used, l, 1 + NumResultsSeq(p[l.call].args));
    DescribedAt(p, calls, l.call);
    AssignedBy(calls, l.call, x);
  }

  lemma {:induction false} DescribedAt(p: Program, calls: seq<ExecCall>, c: nat)
    requires Describes(p, calls) && c < |p|
    ensures CallAssigns(calls[c]) == RanksIn(RefsProg(p), c, 0, 1 + NumResultsSeq(p[c].args))
  {
  }

  lemma {:induction false} Stands(p: Program, l: Loc)
    requires Backward(p) && l in RefsProg(p)
    ensures l.call < |p| && l.idx < 1 + NumResultsSeq(p[l.call].args)
  {
    assert Exists(p, l);
  }

  lemma {:induction false} RankAmong(used: set<Loc>, l: Loc, hi: nat)
    requires l in used && l.idx < hi
    ensures Rank(used, l) in RanksIn(used, l.call, 0, hi)
  {
    assert l == Loc(l.call, l.idx);
  }

  lemma {:induction false} AssignedBy(calls: seq<ExecCall>, c: nat, x: nat)
    requires c < |calls| && x in CallAssigns(calls[c])
    ensures x in Assigned(calls)
  {
    CallsAssign(calls, x);
  }

  lemma {:induction false} PassIndexBelow(p: Program, c: nat, l: Loc)
    requires l in RefsProg(p)
    ensures PassIndex(p, c, l) < |RefsProg(p)|
  {
    RankBound(RefsProg(p), l);
    Wrapped(Rank(RefsProg(p), l));
  }

  lemma {:induction false} ReferencedIs(p: Program, calls: seq<ExecCall>, x: nat)
    requires Backward(p) && Describes(p, calls)
    ensures x in Referenced(AllArgs(calls)) <==> exists c :: 0 <= c < |p| && RefersTo(p, c, x)
    ensures x in Referenced(AllArgs(calls)) ==> x < |RefsProg(p)|
  {
    CallsRefer(calls, x);
    if c :| 0 <= c < |p| && RefersTo(p, c, x) {
      assert CallRefers(calls[c], x);
      EmittedAreRefs(p, c);
      var l :| l in EmittedRefs(p[c]) && PassIndex(p, c, l) == x;
      PassIndexBelow(p, c, l);
    }
  }

  /** The last index is the largest one referred to. */
  lemma {:induction false} ReferencedSup(p: Program, calls: seq<ExecCall>, refs: nat)
    requires Backward(p) && Describes(p, calls) && IsSup(refs, Referenced(AllArgs(calls)))
    ensures refs == |RefsProg(p)| <==> LastReferenced(p)
  {
    if refs != 0 { ReferencedIs(p, calls, refs - 1); }
    if RefsProg(p) != {} {
      var last := |RefsProg(p)| - 1;
      ReferencedIs(p, calls, last);
      if LastReferenced(p) {
        var c, l :| 0 <= c < |p| && l in EmittedRefs(p[c]) && PassIndex(p, c, l) + 1 == |RefsProg(p)|;
        assert RefersTo(p, c, last);
      }
    }
  }

  /** What the compiler emits for a program is decoded to the same calls if the last index is
      referred to, and is refused as having the wrong number of variables otherwise. */
  lemma {:induction false} ProgramRoundTrip(tgt: Target, p: Program, csums: seq<seq<Copyin>>, calls: seq<ExecCall>,
      nsys: nat, data: seq<Byte>)
    requires |csums| == |p| && Backward(p) && PlainCsums(csums) && |RefsProg(p)| < NO_COPYOUT
    requires CompileProg(tgt, p, csums) == Some(calls) && CallsFit(nsys, calls) && Starts(data, EncProg(nsys, calls))
    ensures DeserializeExec(nsys, data) ==
            if LastReferenced(p) then Ok((calls, NoteArgs([], AllArgs(calls)))) else Err(VarsMismatch)
  {
    CompiledDescribes(tgt, p, csums, calls);
    var refs := |NoteArgs([], AllArgs(calls))|;
    NoteArgsSup([], {}, AllArgs(calls));
    assert {} + Referenced(AllArgs(calls)) == Referenced(AllArgs(calls));
    AssignedSup(p, calls);
    ReferencedSup(p, calls, refs);
    ExecRoundTrip.RoundTrip(nsys, calls, data, refs, |RefsProg(p)|);
  }

  /** SerializeForExec of a program.  What is in the buffer then is decoded to the
      calls of the compiler, or refused. */
  method SerializeProgram(tgt: Target, p: Program, csums: seq<seq<Copyin>>, nsys: nat, buffer: array<Byte>)
    returns (panics: bool, n: Option<nat>)
    requires |csums| == |p| && Backward(p) && PlainCsums(csums) && |RefsProg(p)| < NO_COPYOUT
    requires CompileProg(tgt, p, csums).Some? ==> CallsFit(nsys, CompileProg(tgt, p, csums).value)
    modifies buffer
    ensures panics <==> CompileProg(tgt, p, csums).None?
    ensures !panics ==> (n.Some? <==> Len(EncProg(nsys, CompileProg(tgt, p, csums).value)) <= buffer.Length)
    ensures !panics && n.Some? ==>
      var calls := CompileProg(tgt, p, csums).value;
      && n.value == Len(EncProg(nsys, calls))
      && DeserializeExec(nsys, buffer[..]) ==
         if LastReferenced(p) then Ok((calls, NoteArgs([], AllArgs(calls)))) else Err(VarsMismatch)
  {
    var r := CompileProg(tgt, p, csums);
    if r.None? {
      return true, None;
    }
    panics := false;
    n := ExecBuffer.SerializeForExec(nsys, r.value, buffer);
    if n.Some? {
      ghost var bytes := buffer[..];
      assert bytes[..n.value] == buffer[..n.value];
      BufferStarts(bytes, n.value, EncProg(nsys, r.value));
      ProgramRoundTrip(tgt, p, csums, r.value, nsys, bytes);
    }
  }

  lemma {:induction false} BufferStarts(bytes: seq<Byte>, n: nat, items: seq<Item>)
    requires n <= |bytes| && Starts(bytes[..n], items)
    ensures Starts(bytes, items)
  {
    assert bytes[..n] + bytes[n..] == bytes;
    ExecBuffer.StartsExtend(bytes[..n], bytes[n..], items);
  }

  // ----- a valid program that is refused -----

  /** fd = f(); g(&b) where the output b refers to fd: fd is used, and nothing emitted says so. */
  const OUT_FD := ResourceT(Common("fd", "b", 4, DirOut, false, false), Native, 0)
  const OUT_PTR := PtrT(Common("ptr", "p", 8, DirIn, false, false), 0)
  const FILL := Syscall(1, "g", [OUT_PTR], None)
  const OUT_TARGET := Target(4096, 4, 0, [0], [OPEN, FILL], [OUT_FD])
  const OUT_REF := PointerArg(OUT_PTR, 0, 0, Some(ResultArg(OUT_FD, Some(Loc(0, 0)), 0, 0, 0)))
  const OUT_PROG := [Call(OPEN, [], Some(ReturnArg(NEW_RET))), Call(FILL, [OUT_REF], None)]

  lemma {:induction false} OutputIsValid()
    ensures ValidProg(OUT_TARGET, OUT_PROG) && RefsProg(OUT_PROG) == {Loc(0, 0)}
  {
    var args := [OUT_REF];
    assert args[1..] == [] && [OUT_PTR][1..] == [] && OUT_PROG[1..][1..] == [];
    assert !IsSpecial(OUT_REF) && ValidArg(OUT_TARGET, OUT_REF, OUT_PTR);
    assert ValidSeq(OUT_TARGET, [], Fields([])) && LinksOkSeq([], 0, 1) && LinksOkSeq([], 1, 2);
    assert ValidSeq(OUT_TARGET, args, Fields([OUT_PTR]));
    assert LinksOk(OUT_REF, 1, 1) && LinksOkSeq(args, 1, 1);
    assert RefsSeq(args) == {Loc(0, 0)} by { assert RefsSeq([]) == {}; }
    assert RefsProg(OUT_PROG[1..]) == {Loc(0, 0)} by { assert RefsProg(OUT_PROG[1..][1..]) == {}; }
    assert RefsProg(OUT_PROG) == {Loc(0, 0)} by { assert OUT_PROG[0].args == []; }
    assert ValidCall(OUT_TARGET, OUT_PROG[0], 0) && ValidCall(OUT_TARGET, OUT_PROG[1], 1);
  }

  lemma {:induction false} OutputEmitsNothing()
    ensures EmittedRefs(OUT_PROG[0]) == [] && EmittedRefs(OUT_PROG[1]) == []
  {
    var args := [OUT_REF];
    assert args[1..] == [] && OUT_PROG[1].args == args;
    assert Emits(OUT_REF, false) == [] && Passes(OUT_REF) == [];
    assert EmitsSeq([], false) == [] && PassesSeq([]) == [];
    assert EmitsSeq(args, false) == [] + [];
    assert PassesSeq(args) == [] + [];
  }

  lemma {:induction false} OutputCompiles()
    ensures Backward(OUT_PROG) && !LastReferenced(OUT_PROG) && CompileProg(OUT_TARGET, OUT_PROG, [[], []]).Some?
    ensures CompileProg(OUT_TARGET, OUT_PROG, [[], []]) == StaticProg(OUT_TARGET, OUT_PROG, [[], []])
  {
    OutputIsValid();
    OutputEmitsNothing();
    forall c, l | 0 <= c < |OUT_PROG| ensures l !in EmittedRefs(OUT_PROG[c]) { assert c == 0 || c == 1; }
    ValidLaws(OUT_TARGET, OUT_PROG, [[], []]);
    ValidBackward(OUT_TARGET, OUT_PROG);
  }

  lemma {:induction false} OutputCalls()
    ensures var infos, used := StaticInfos({Loc(0, 0)}), {Loc(0, 0)};
      && StaticCall(OUT_TARGET, used, infos, 0, OUT_PROG[0], []).Some?
      && StaticCall(OUT_TARGET, used, infos, 1, OUT_PROG[1], []).Some?
      && CallFits(2, StaticCall(OUT_TARGET, used, infos, 0, OUT_PROG[0], []).value)
      && CallFits(2, StaticCall(OUT_TARGET, used, infos, 1, OUT_PROG[1], []).value)
  {
    var infos, used, args := StaticInfos({Loc(0, 0)}), {Loc(0, 0)}, [OUT_REF];
    assert args[1..] == [] && OUT_PROG[0].args == [] && OUT_PROG[1].args == args;
    var out, none: seq<Copyin> := OUT_REF.res.value, [];
    assert NoCopyin(out) && none + none == none && Join(Some(none), Some(none)) == Some(none);
    assert PointeeBase(OUT_TARGET, OUT_REF) == 0 && OwnCopyin(OUT_TARGET, infos, out, Some(0), 0) == Some(none);
    assert StaticCopyins(OUT_TARGET, infos, out, Some(0), 0) == Some(none);
    assert OwnCopyin(OUT_TARGET, infos, OUT_REF, None, 0) == Some(none);
    assert StaticCopyins(OUT_TARGET, infos, OUT_REF, None, 0) == Some(none);
    assert StaticCopyinsTop(OUT_TARGET, infos, []) == Some(none);
    assert StaticCopyinsTop(OUT_TARGET, infos, args) == Some(none);
    assert WriteArgs(OUT_TARGET, infos, []) == Some([]);
    assert !IsSpecial(OUT_REF) && WriteArg(OUT_TARGET, infos, OUT_REF) == Some(ExecConst(8, 0, 0, 0, 0, 0));
    assert WriteArgs(OUT_TARGET, infos, args) == Some([ExecConst(8, 0, 0, 0, 0, 0)] + []);
    assert StaticCopyouts(OUT_TARGET, used, 1, OUT_REF, None, 0, 1) == [];
    assert StaticCopyoutsTop(OUT_TARGET, used, 0, [], 1) == [] && StaticCopyoutsTop(OUT_TARGET, used, 1, [], 2) == [];
    assert StaticCopyoutsTop(OUT_TARGET, used, 1, args, 1) == [];
  }

  lemma {:induction false} OutputFits()
    ensures CompileProg(OUT_TARGET, OUT_PROG, [[], []]).Some? &&
        CallsFit(2, CompileProg(OUT_TARGET, OUT_PROG, [[], []]).value)
  {
    OutputIsValid();
    OutputCompiles();
    StaticFits(StaticOne(OUT_TARGET, {Loc(0, 0)}, OUT_PROG, [[], []]));
  }

  lemma {:induction false} StaticFits(one: nat -> Option<ExecCall>)
    requires one == StaticOne(OUT_TARGET, {Loc(0, 0)}, OUT_PROG, [[], []]) && Collect(one, 0, 2).Some?
    ensures CallsFit(2, Collect(one, 0, 2).value)
  {
    OutputCalls();
    CollectParts(one, 0, 2);
    var calls := Collect(one, 0, 2).value;
    forall i | 0 <= i < |calls| ensures CallFits(2, calls[i]) { assert calls[i] == one(i).value && (i == 0 || i == 1); }
  }

  /** The program compiles, and the decoder refuses its code, whatever follows it. */
  lemma {:induction false} OutputOnlyIsRefused(data: seq<Byte>)
    ensures ValidProg(OUT_TARGET, OUT_PROG)
    ensures var calls := CompileProg(OUT_TARGET, OUT_PROG, [[], []]);
      calls.Some? && CallsFit(2, calls.value) &&
      (Starts(data, EncProg(2, calls.value)) ==> DeserializeExec(2, data) == Err(VarsMismatch))
  {
    OutputIsValid();
    OutputCompiles();
    OutputFits();
    var calls := CompileProg(OUT_TARGET, OUT_PROG, [[], []]).value;
    if Starts(data, EncProg(2, calls)) {
      ProgramRoundTrip(OUT_TARGET, OUT_PROG, [[], []], calls, 2, data);
    }
  }
}
