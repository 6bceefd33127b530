/**
  Decoding undoes encoding: for every list of exec calls with in-range fields, and
  whatever the padding bytes and the bytes after the terminator hold.
 */
module ExecRoundTrip {
  import opened Ir
  import opened ExecFormat

  // ----- what the decoder's variable counts must come to -----

  function NoteArg(vars: seq<U64>, a: ExecArg): seq<U64> {
    if a.ExecResult? then NoteVar(vars, a.index, a.default) else vars
  }

  function NoteArgs(vars: seq<U64>, args: seq<ExecArg>): seq<U64>
    decreases args
  {
    if args == [] then vars else NoteArgs(NoteArg(vars, args[0]), args[1..])
  }

  /** Every argument of a program in the order the words appear. */
  function AllArgs(calls: seq<ExecCall>): seq<ExecArg> {
    if calls == [] then [] else CopyinArgs(calls[0].copyin) + calls[0].args + AllArgs(calls[1..])
  }

  /** Indices some argument refers to. */
  function Referenced(args: seq<ExecArg>): set<nat> {
    set i | 0 <= i < |args| && args[i].ExecResult? :: args[i].index
  }

  function OutIndices(cs: seq<Copyout>): set<nat> {
    set i | 0 <= i < |cs| :: cs[i].index
  }

  /** Indices some call or copyout assigns. */
  function Assigned(calls: seq<ExecCall>): set<nat> {
    if calls == [] then {}
    else (if calls[0].index != NO_COPYOUT then {calls[0].index} else {})
         + OutIndices(calls[0].copyout) + Assigned(calls[1..])
  }

  /** `n` is one more than the largest element of `s`, or 0 if `s` is empty. */
  ghost predicate IsSup(n: nat, s: set<nat>) {
    (forall x :: x in s ==> x < n) && (n != 0 ==> n - 1 in s)
  }

  lemma {:induction false} SupUnique(m: nat, n: nat, s: set<nat>)
    requires IsSup(m, s) && IsSup(n, s)
    ensures m == n
  {
  }

  function NumVarsFold(n: nat, calls: seq<ExecCall>): nat
    decreases calls
  {
    if calls == [] then n else NumVarsFold(NumVarsCall(n, calls[0].index, calls[0].copyout), calls[1..])
  }

  lemma {:induction false} NoteArgsAppend(vars: seq<U64>, xs: seq<ExecArg>, ys: seq<ExecArg>)
    ensures NoteArgs(vars, xs + ys) == NoteArgs(NoteArgs(vars, xs), ys)
    decreases xs
  {
    if xs == [] {
      assert xs + ys == ys;
    } else {
      assert (xs + ys)[1..] == xs[1..] + ys;
      NoteArgsAppend(NoteArg(vars, xs[0]), xs[1..], ys);
    }
  }

  lemma {:induction false} NoteArgsSup(vars: seq<U64>, s: set<nat>, args: seq<ExecArg>)
    requires IsSup(|vars|, s)
    ensures IsSup(|NoteArgs(vars, args)|, s + Referenced(args))
    decreases args
  {
    if args == [] {
      assert s + Referenced(args) == s;
    } else {
      var a := args[0];
      var s' := s + if a.ExecResult? then {a.index as nat} else {};
      NoteArgsSup(NoteArg(vars, a), s', args[1..]);
      assert s' + Referenced(args[1..]) == s + Referenced(args) by {
        forall x | x in Referenced(args) ensures x in s' + Referenced(args[1..]) {
          var i :| 0 <= i < |args| && args[i].ExecResult? && args[i].index == x;
          if i > 0 { assert args[i] == args[1..][i - 1]; }
        }
        forall x | x in s' + Referenced(args[1..]) ensures x in s + Referenced(args) {
          if x in Referenced(args[1..]) {
            var i :| 0 <= i < |args[1..]| && args[1..][i].ExecResult? && args[1..][i].index == x;
            assert args[i + 1] == args[1..][i];
          }
        }
      }
    }
  }

  lemma {:induction false} NumVarsOutSup(n: nat, s: set<nat>, cs: seq<Copyout>)
    requires IsSup(n, s)
    requires forall i :: 0 <= i < |cs| ==> cs[i].index < TWO64 - 1
    ensures IsSup(NumVarsOut(n, cs), s + OutIndices(cs))
    decreases cs
  {
    if cs == [] {
      assert s + OutIndices(cs) == s;
    } else {
      var s' := s + {cs[0].index as nat};
      NumVarsOutSup(Max(n, (cs[0].index + 1) % TWO64), s', cs[1..]);
      assert s' + OutIndices(cs[1..]) == s + OutIndices(cs) by {
        forall x | x in OutIndices(cs) ensures x in s' + OutIndices(cs[1..]) {
          var i :| 0 <= i < |cs| && cs[i].index == x;
          if i > 0 { assert cs[i] == cs[1..][i - 1]; }
        }
        forall x | x in OutIndices(cs[1..]) ensures x in OutIndices(cs) {
          var i :| 0 <= i < |cs[1..]| && cs[1..][i].index == x;
          assert cs[i + 1] == cs[1..][i];
        }
      }
    }
  }

  lemma {:induction false} NumVarsSup(nsys: nat, n: nat, s: set<nat>, calls: seq<ExecCall>)
    requires IsSup(n, s) && CallsFit(nsys, calls)
    ensures IsSup(NumVarsFold(n, calls), s + Assigned(calls))
    decreases calls
  {
    if calls == [] {
      assert s + Assigned(calls) == s;
    } else {
      var c := calls[0];
      var s' := s + if c.index != NO_COPYOUT then {c.index as nat} else {};
      NumVarsOutSup(if c.index != NO_COPYOUT then Max(n, c.index + 1) else n, s', c.copyout);
      NumVarsSup(nsys, NumVarsCall(n, c.index, c.copyout), s' + OutIndices(c.copyout), calls[1..]);
      assert s' + OutIndices(c.copyout) + Assigned(calls[1..]) == s + Assigned(calls);
    }
  }

  // ----- arguments -----

  lemma {:induction false} ReadWord(data: seq<Byte>, v: U64, rest: seq<Item>)
    requires Starts(data, [Word(v)] + rest)
    ensures |data| >= 8 && Read(data) == Ok((v, data[8..])) && Starts(data[8..], rest)
    ensures Len([Word(v)] + rest) == 8 + Len(rest)
  {
    assert ([Word(v)] + rest)[1..] == rest;
  }

  /** Two words in a row. */
  lemma {:induction false} ReadWords2(data: seq<Byte>, v: U64, w: U64, rest: seq<Item>)
    requires Starts(data, [Word(v), Word(w)] + rest)
    ensures |data| >= 16 && Read(data) == Ok((v, data[8..])) && Read(data[8..]) == Ok((w, data[16..]))
    ensures Starts(data[16..], rest) && Len([Word(v), Word(w)] + rest) == 16 + Len(rest)
  {
    assert [Word(v), Word(w)] + rest == [Word(v)] + ([Word(w)] + rest);
    ReadWord(data, v, [Word(w)] + rest);
    ReadWord(data[8..], w, rest);
    assert data[8..][8..] == data[16..];
  }

  /** Three words in a row. */
  lemma {:induction false} ReadWords3(data: seq<Byte>, v: U64, w: U64, x: U64, rest: seq<Item>)
    requires Starts(data, [Word(v), Word(w), Word(x)] + rest)
    ensures |data| >= 24 && Read(data) == Ok((v, data[8..])) && Read(data[8..]) == Ok((w, data[16..]))
    ensures Read(data[16..]) == Ok((x, data[24..]))
    ensures Starts(data[24..], rest) && Len([Word(v), Word(w), Word(x)] + rest) == 24 + Len(rest)
  {
    assert [Word(v), Word(w), Word(x)] + rest == [Word(v), Word(w)] + ([Word(x)] + rest);
    ReadWords2(data, v, w, [Word(x)] + rest);
    ReadWord(data[16..], x, rest);
    assert data[16..][8..] == data[24..];
  }

  lemma {:induction false} ReadChunksEnc(data: seq<Byte>, cs: seq<Chunk>)
    requires Starts(data, EncChunks(cs))
    ensures Len(EncChunks(cs)) <= |data|
    ensures ReadChunks(data, |cs|) == Ok((cs, data[Len(EncChunks(cs))..]))
    decreases cs
  {
    StartsLen(data, EncChunks(cs));
    if cs != [] {
      var rest := EncChunks(cs[1..]);
      ReadWords3(data, cs[0].kind, cs[0].value, cs[0].size, rest);
      ReadChunksEnc(data[24..], cs[1..]);
      assert data[24..][Len(rest)..] == data[24 + Len(rest)..];
      assert cs == [cs[0]] + cs[1..];
    }
  }

  lemma {:induction false} Split8(lo: nat, hi: nat)
    requires lo < 0x100
    ensures (lo + 0x100 * hi) % 0x100 == lo && (lo + 0x100 * hi) / 0x100 == hi
  {
  }

  lemma {:induction false} MetaUnpack(size: U64, format: U64, off: U64, len: U64, stride: U64)
    requires size < 0x100 && format < 0x100 && off < 0x100 && len < 0x100 && stride < 0x1_0000_0000
    ensures var meta := PackMeta(size, format, off, len, stride);
            meta % 0x100 == size && meta / 0x100 % 0x100 == format && meta / 0x1_0000 % 0x100 == off
            && meta / 0x100_0000 % 0x100 == len && meta / 0x1_0000_0000 == stride
  {
    var r3 := len + 0x100 * stride;
    var r2 := off + 0x100 * r3;
    var r1 := format + 0x100 * r2;
    var meta := PackMeta(size, format, off, len, stride);
    Split8(size, r1);
    Split8(format, r2);
    Split8(off, r3);
    Split8(len, stride);
    assert meta / 0x1_0000 == meta / 0x100 / 0x100;
    assert meta / 0x100_0000 == meta / 0x1_0000 / 0x100;
    assert meta / 0x1_0000_0000 == meta / 0x100_0000 / 0x100;
  }

  lemma {:induction false} ReadConstEnc(data: seq<Byte>, a: ExecArg, vars: seq<U64>)
    requires a.ExecConst? && ArgFits(a) && Starts(data, EncArg(a))
    ensures |data| >= 24 && ReadArg(data, vars) == Ok((a, vars, data[24..]))
    ensures Len(EncArg(a)) == 24
  {
    var meta := PackMeta(a.size, a.format, a.bfOff, a.bfLen, a.pidStride);
    assert EncArg(a) == [Word(ARG_CONST), Word(meta), Word(a.value)] + [];
    ReadWords3(data, ARG_CONST, meta, a.value, []);
    MetaUnpack(a.size, a.format, a.bfOff, a.bfLen, a.pidStride);
  }

  lemma {:induction false} ReadResultEnc(data: seq<Byte>, a: ExecArg, vars: seq<U64>)
    requires a.ExecResult? && ArgFits(a) && Starts(data, EncArg(a))
    ensures |data| >= 48 && ReadArg(data, vars) == Ok((a, NoteArg(vars, a), data[48..]))
    ensures Len(EncArg(a)) == 48
  {
    var meta := PackMeta(a.size, a.format, 0, 0, 0);
    var rest := [Word(a.divOp), Word(a.addOp), Word(a.default)] + [];
    assert EncArg(a) == [Word(ARG_RESULT), Word(meta), Word(a.index)] + rest;
    ReadWords3(data, ARG_RESULT, meta, a.index, rest);
    ReadWords3(data[24..], a.divOp, a.addOp, a.default, []);
    assert data[24..][8..] == data[32..] && data[24..][16..] == data[40..] && data[24..][24..] == data[48..];
    MetaUnpack(a.size, a.format, 0, 0, 0);
  }

  lemma {:induction false} FlagsSplit(n: nat, readable: bool)
    requires n < DATA_READABLE
    ensures var flags := n + if readable then DATA_READABLE else 0;
            flags % DATA_READABLE == n && (flags >= DATA_READABLE <==> readable)
  {
  }

  lemma {:induction false} ReadBlobEnc(data: seq<Byte>, blob: seq<Byte>)
    requires |blob| < DATA_READABLE && Starts(data, [Blob(blob)])
    ensures Len([Blob(blob)]) == Padded(|blob|) <= |data|
    ensures ReadBlob(data, |blob|) == Ok((blob, data[Padded(|blob|)..]))
  {
    assert [Blob(blob)][1..] == [];
  }

  lemma {:induction false} ReadDataEnc(data: seq<Byte>, a: ExecArg, vars: seq<U64>)
    requires a.ExecData? && ArgFits(a) && Starts(data, EncArg(a))
    ensures Len(EncArg(a)) == 16 + Padded(|a.data|) <= |data|
    ensures ReadArg(data, vars) == Ok((a, vars, data[16 + Padded(|a.data|)..]))
  {
    var flags := |a.data| + if a.readable then DATA_READABLE else 0;
    var rest := [Blob(a.data)];
    assert EncArg(a) == [Word(ARG_DATA), Word(flags)] + rest;
    ReadWords2(data, ARG_DATA, flags, rest);
    FlagsSplit(|a.data|, a.readable);
    ReadBlobEnc(data[16..], a.data);
    assert data[16..][Padded(|a.data|)..] == data[16 + Padded(|a.data|)..];
  }

  lemma {:induction false} ReadCsumEnc(data: seq<Byte>, a: ExecArg, vars: seq<U64>)
    requires a.ExecCsum? && ArgFits(a) && Starts(data, EncArg(a))
    ensures Len(EncArg(a)) == 32 + Len(EncChunks(a.chunks)) <= |data|
    ensures ReadArg(data, vars) == Ok((a, vars, data[32 + Len(EncChunks(a.chunks))..]))
  {
    var cs := EncChunks(a.chunks);
    var rest := [Word(|a.chunks|)] + cs;
    assert EncArg(a) == [Word(ARG_CSUM), Word(a.size), Word(CSUM_INET)] + rest;
    ReadWords3(data, ARG_CSUM, a.size, CSUM_INET, rest);
    ReadWord(data[24..], |a.chunks|, cs);
    assert data[24..][8..] == data[32..];
    ReadChunksEnc(data[32..], a.chunks);
    assert data[32..][Len(cs)..] == data[32 + Len(cs)..];
  }

  lemma {:induction false} ReadArgEnc(data: seq<Byte>, a: ExecArg, vars: seq<U64>)
    requires ArgFits(a) && Starts(data, EncArg(a))
    ensures Len(EncArg(a)) <= |data|
    ensures ReadArg(data, vars) == Ok((a, NoteArg(vars, a), data[Len(EncArg(a))..]))
  {
    match a
    case ExecConst(_, _, _, _, _, _) => ReadConstEnc(data, a, vars);
    case ExecResult(_, _, _, _, _, _) => ReadResultEnc(data, a, vars);
    case ExecData(_, _) => ReadDataEnc(data, a, vars);
    case ExecCsum(_, _) => ReadCsumEnc(data, a, vars);
  }

  lemma {:induction false} ReadArgsEnc(data: seq<Byte>, args: seq<ExecArg>, vars: seq<U64>)
    requires ArgsFit(args) && Starts(data, EncArgs(args))
    requires forall i :: 0 <= i < |args| ==> args[i].ExecConst? || args[i].ExecResult?
    ensures Len(EncArgs(args)) <= |data|
    ensures ReadArgs(data, vars, |args|) == Ok((args, NoteArgs(vars, args), data[Len(EncArgs(args))..]))
    decreases args
  {
    StartsLen(data, EncArgs(args));
    if args != [] {
      var one, rest := EncArg(args[0]), EncArgs(args[1..]);
      StartsAppend(data, one, rest);
      LenAppend(one, rest);
      ReadArgEnc(data, args[0], vars);
      ReadArgsEnc(data[Len(one)..], args[1..], NoteArg(vars, args[0]));
      assert data[Len(one)..][Len(rest)..] == data[Len(one + rest)..];
      ReadArgsCons(data, args, vars, data[Len(one)..], data[Len(one + rest)..]);
    }
  }

  lemma {:induction false} ReadArgsCons(data: seq<Byte>, args: seq<ExecArg>, vars: seq<U64>, d1: seq<Byte>,
      d2: seq<Byte>)
    requires args != [] && (args[0].ExecConst? || args[0].ExecResult?)
    requires ReadArg(data, vars) == Ok((args[0], NoteArg(vars, args[0]), d1))
    requires ReadArgs(d1, NoteArg(vars, args[0]), |args[1..]|) ==
        Ok((args[1..], NoteArgs(NoteArg(vars, args[0]), args[1..]), d2))
    ensures ReadArgs(data, vars, |args|) == Ok((args, NoteArgs(vars, args), d2))
  {
    assert args == [args[0]] + args[1..];
  }

  // ----- instructions -----

  /** One instruction other than the terminator takes the decoder from `d` to `next`. */
  ghost predicate NextIs(nsys: nat, d: Dec, next: Dec) {
    var r := Read(d.data);
    r.Ok? && r.value.0 != INSTR_EOF && Step(nsys, d, r.value.0, r.value.1) == Ok(next)
  }

  /** `f` depends only on where the decoder ends up; Parse is such a function. */
  ghost predicate Follows(nsys: nat, f: Dec -> Result<Dec>) {
    forall d, next {:trigger NextIs(nsys, d, next)} :: NextIs(nsys, d, next) ==> f(d) == f(next)
  }

  /** `f` stops at the terminator as Parse does. */
  ghost predicate Stops(f: Dec -> Result<Dec>) {
    forall d: Dec :: Starts(d.data, [Word(INSTR_EOF)]) ==> |d.data| >= 8 && f(d) == Ok(Commit(d.(data := d.data[8..])))
  }

  function ParseFrom(nsys: nat): Dec -> Result<Dec> {
    d => Parse(nsys, d)
  }

  lemma {:induction false} ParseFollows(nsys: nat)
    ensures Follows(nsys, ParseFrom(nsys))
  {
  }

  lemma {:induction false} ParseStops(nsys: nat)
    ensures Stops(ParseFrom(nsys))
  {
    forall d: Dec | Starts(d.data, [Word(INSTR_EOF)])
      ensures |d.data| >= 8 && Parse(nsys, d) == Ok(Commit(d.(data := d.data[8..])))
    {
      ParseEof(nsys, d);
    }
  }

  /** The decoder state after the copyins `cs` of one call. */
  function AfterCopyins(d: Dec, cs: seq<Copyin>, data: seq<Byte>): Dec {
    if cs == [] then d
    else
      var c := Commit(d);
      c.(data := data, vars := NoteArgs(d.vars, CopyinArgs(cs)),
         call := c.call.(copyin := c.call.copyin + cs))
  }

  /** Reading the words of one copyin. */
  lemma {:induction false} ReadCopyin(nsys: nat, f: Dec -> Result<Dec>, d: Dec, c: Copyin, rest: seq<Item>)
    requires Follows(nsys, f) && ArgFits(c.arg)
    requires Starts(d.data, [Word(INSTR_COPYIN), Word(c.addr)] + (EncArg(c.arg) + rest))
    ensures 16 + Len(EncArg(c.arg)) <= |d.data| && Starts(d.data[16 + Len(EncArg(c.arg))..], rest)
    ensures f(d) == f(AfterCopyins(d, [c], d.data[16 + Len(EncArg(c.arg))..]))
  {
    var arg := EncArg(c.arg);
    ReadWords2(d.data, INSTR_COPYIN, c.addr, arg + rest);
    StartsAppend(d.data[16..], arg, rest);
    ReadArgEnc(d.data[16..], c.arg, d.vars);
    assert d.data[16..][Len(arg)..] == d.data[16 + Len(arg)..];
    CopyinStep(nsys, f, d, c, d.data[16 + Len(arg)..]);
  }

  lemma {:induction false} LenCopyins(cs: seq<Copyin>)
    requires cs != [] && forall i :: 0 <= i < |cs| ==> ArgFits(cs[i].arg)
    ensures Len(EncCopyins(cs)) == 16 + Len(EncArg(cs[0].arg)) + Len(EncCopyins(cs[1..]))
  {
    var head := [Word(INSTR_COPYIN), Word(cs[0].addr)];
    LenAppend(head + EncArg(cs[0].arg), EncCopyins(cs[1..]));
    LenAppend(head, EncArg(cs[0].arg));
    assert head[1..][1..] == [];
  }

  lemma {:induction false} SplitCopyins(cs: seq<Copyin>, rest: seq<Item>)
    requires cs != [] && forall i :: 0 <= i < |cs| ==> ArgFits(cs[i].arg)
    ensures EncCopyins(cs) + rest ==
            [Word(INSTR_COPYIN), Word(cs[0].addr)] + (EncArg(cs[0].arg) + (EncCopyins(cs[1..]) + rest))
  {
    var head, arg, tail := [Word(INSTR_COPYIN), Word(cs[0].addr)], EncArg(cs[0].arg), EncCopyins(cs[1..]);
    assert head + arg + tail + rest == head + (arg + (tail + rest));
  }

  lemma {:induction false} ParseCopyins(nsys: nat, f: Dec -> Result<Dec>, d: Dec, cs: seq<Copyin>, rest: seq<Item>)
    requires Follows(nsys, f)
    requires forall i :: 0 <= i < |cs| ==> ArgFits(cs[i].arg)
    requires Starts(d.data, EncCopyins(cs) + rest)
    ensures Len(EncCopyins(cs)) <= |d.data| && Starts(d.data[Len(EncCopyins(cs))..], rest)
    ensures f(d) == f(AfterCopyins(d, cs, d.data[Len(EncCopyins(cs))..]))
    decreases cs
  {
    if cs == [] {
      assert EncCopyins(cs) + rest == rest;
    } else {
      var data1 := FirstCopyin(nsys, f, d, cs, rest);
      ParseCopyins(nsys, f, AfterCopyins(d, [cs[0]], data1), cs[1..], rest);
      var m, n := Len(EncCopyins(cs[1..])), Len(EncCopyins(cs));
      assert data1[m..] == d.data[n..];
      AfterCopyinsStep(d, cs, data1, data1[m..]);
    }
  }

  lemma {:induction false} FirstCopyin(nsys: nat, f: Dec -> Result<Dec>, d: Dec, cs: seq<Copyin>, rest: seq<Item>)
    returns (data1: seq<Byte>)
    requires Follows(nsys, f)
    requires cs != [] && forall i :: 0 <= i < |cs| ==> ArgFits(cs[i].arg)
    requires Starts(d.data, EncCopyins(cs) + rest)
    ensures var k := Len(EncCopyins(cs)) - Len(EncCopyins(cs[1..])); 0 <= k <= |d.data| && data1 == d.data[k..]
    ensures Starts(data1, EncCopyins(cs[1..]) + rest)
    ensures f(d) == f(AfterCopyins(d, [cs[0]], data1))
  {
    SplitCopyins(cs, rest);
    ReadCopyin(nsys, f, d, cs[0], EncCopyins(cs[1..]) + rest);
    data1 := d.data[16 + Len(EncArg(cs[0].arg))..];
    LenCopyins(cs);
  }

  /** Decoding one copyin. */
  lemma {:induction false} CopyinStep(nsys: nat, f: Dec -> Result<Dec>, d: Dec, c: Copyin, data1: seq<Byte>)
    requires Follows(nsys, f)
    requires |d.data| >= 16 && Read(d.data) == Ok((INSTR_COPYIN, d.data[8..]))
    requires Read(d.data[8..]) == Ok((c.addr, d.data[16..]))
    requires ReadArg(d.data[16..], d.vars) == Ok((c.arg, NoteArg(d.vars, c.arg), data1))
    ensures f(d) == f(AfterCopyins(d, [c], data1))
  {
    assert CopyinArgs([c]) == [c.arg];
    assert NoteArgs(d.vars, [c.arg]) == NoteArg(d.vars, c.arg);
    assert NextIs(nsys, d, AfterCopyins(d, [c], data1));
  }

  lemma {:induction false} AfterCopyinsStep(d: Dec, cs: seq<Copyin>, data1: seq<Byte>, data2: seq<Byte>)
    requires cs != [] && (cs[1..] == [] ==> data1 == data2)
    ensures AfterCopyins(AfterCopyins(d, [cs[0]], data1), cs[1..], data2) == AfterCopyins(d, cs, data2)
  {
    assert CopyinArgs([cs[0]]) == [cs[0].arg];
    NoteArgsAppend(d.vars, [cs[0].arg], CopyinArgs(cs[1..]));
    assert Commit(d).call.copyin + [cs[0]] + cs[1..] == Commit(d).call.copyin + cs;
    if cs[1..] == [] { assert cs == [cs[0]]; }
  }

  lemma {:induction false} ReadCopyout(nsys: nat, f: Dec -> Result<Dec>, d: Dec, c: Copyout, rest: seq<Item>)
    requires Follows(nsys, f)
    requires Starts(d.data, [Word(INSTR_COPYOUT), Word(c.index), Word(c.addr)] + ([Word(c.size)] + rest))
    ensures 32 <= |d.data| && Starts(d.data[32..], rest)
    ensures f(d) == f(d.(data := d.data[32..], call := d.call.(copyout := d.call.copyout + [c])))
  {
    ReadWords3(d.data, INSTR_COPYOUT, c.index, c.addr, [Word(c.size)] + rest);
    ReadWord(d.data[24..], c.size, rest);
    assert d.data[24..][8..] == d.data[32..];
    assert NextIs(nsys, d, d.(data := d.data[32..], call := d.call.(copyout := d.call.copyout + [c])));
  }

  lemma {:induction false} LenCopyouts(cs: seq<Copyout>)
    requires cs != []
    ensures Len(EncCopyouts(cs)) == 32 + Len(EncCopyouts(cs[1..]))
  {
    var head := [Word(INSTR_COPYOUT), Word(cs[0].index), Word(cs[0].addr), Word(cs[0].size)];
    LenAppend(head, EncCopyouts(cs[1..]));
    assert head[1..][1..][1..][1..] == [];
    assert Len(head[1..]) == 8 + Len(head[1..][1..]);
    assert Len(head[1..][1..]) == 8 + Len(head[1..][1..][1..]);
  }

  lemma {:induction false} ParseCopyouts(nsys: nat, f: Dec -> Result<Dec>, d: Dec, cs: seq<Copyout>, rest: seq<Item>)
    requires Follows(nsys, f)
    requires Starts(d.data, EncCopyouts(cs) + rest)
    ensures Len(EncCopyouts(cs)) <= |d.data| && Starts(d.data[Len(EncCopyouts(cs))..], rest)
    ensures f(d) == f(d.(data := d.data[Len(EncCopyouts(cs))..],
                         call := d.call.(copyout := d.call.copyout + cs)))
    decreases cs
  {
    if cs == [] {
      assert EncCopyouts(cs) + rest == rest;
      assert d.call.copyout + cs == d.call.copyout;
    } else {
      var c, tail := cs[0], EncCopyouts(cs[1..]);
      assert EncCopyouts(cs) + rest
          == [Word(INSTR_COPYOUT), Word(c.index), Word(c.addr)] + ([Word(c.size)] + (tail + rest));
      ReadCopyout(nsys, f, d, c, tail + rest);
      LenCopyouts(cs);
      ParseCopyouts(nsys, f, d.(data := d.data[32..], call := d.call.(copyout := d.call.copyout + [c])), cs[1..], rest);
      assert d.data[32..][Len(tail)..] == d.data[Len(EncCopyouts(cs))..];
      assert d.call.copyout + [c] + cs[1..] == d.call.copyout + cs;
    }
  }

  /** The decoder state after the words of call `c`, when no copyin of a later call was seen. */
  function AfterCall(d: Dec, c: ExecCall, data: seq<Byte>): Dec {
    Commit(d).(data := data, vars := NoteArgs(NoteArgs(d.vars, CopyinArgs(c.copyin)), c.args),
               call := Pending(Some(c.meta), c.index, c.args, c.copyin, c.copyout))
  }

  /** The decoder state after call number, copyout index and arguments. */
  function WithHeader(d: Dec, c: ExecCall, data1: seq<Byte>): Dec {
    var c0 := Commit(d);
    c0.(data := data1, vars := NoteArgs(d.vars, c.args),
        call := c0.call.(meta := Some(c.meta), index := c.index, args := c0.call.args + c.args))
  }

  lemma {:induction false} HeaderStep(nsys: nat, f: Dec -> Result<Dec>, d: Dec, c: ExecCall, data1: seq<Byte>)
    requires Follows(nsys, f) && c.meta < nsys <= INSTR_COPYOUT && |d.data| >= 24 && |c.args| < TWO64
    requires Read(d.data) == Ok((c.meta, d.data[8..])) && Read(d.data[8..]) == Ok((c.index, d.data[16..]))
    requires Read(d.data[16..]) == Ok((|c.args|, d.data[24..]))
    requires ReadArgs(d.data[24..], d.vars, |c.args|) == Ok((c.args, NoteArgs(d.vars, c.args), data1))
    ensures f(d) == f(WithHeader(d, c, data1))
  {
    assert NextIs(nsys, d, WithHeader(d, c, data1));
  }

  lemma {:induction false} ParseHeader(nsys: nat, f: Dec -> Result<Dec>, d: Dec, c: ExecCall, rest: seq<Item>)
    requires Follows(nsys, f) && nsys <= INSTR_COPYOUT && CallFits(nsys, c)
    requires Starts(d.data, [Word(c.meta), Word(c.index), Word(|c.args|)] + EncArgs(c.args) + rest)
    ensures 24 + Len(EncArgs(c.args)) <= |d.data| && Starts(d.data[24 + Len(EncArgs(c.args))..], rest)
    ensures f(d) == f(WithHeader(d, c, d.data[24 + Len(EncArgs(c.args))..]))
  {
    var args := EncArgs(c.args);
    assert [Word(c.meta), Word(c.index), Word(|c.args|)] + args + rest
        == [Word(c.meta), Word(c.index), Word(|c.args|)] + (args + rest);
    ReadWords3(d.data, c.meta, c.index, |c.args|, args + rest);
    StartsAppend(d.data[24..], args, rest);
    ReadArgsEnc(d.data[24..], c.args, d.vars);
    assert d.data[24..][Len(args)..] == d.data[24 + Len(args)..];
    HeaderStep(nsys, f, d, c, d.data[24 + Len(args)..]);
  }

  lemma {:induction false} LenCall(nsys: nat, c: ExecCall)
    requires nsys <= INSTR_COPYOUT && CallFits(nsys, c)
    ensures Len(EncCall(nsys, c)) ==
            Len(EncCopyins(c.copyin)) + 24 + Len(EncArgs(c.args)) + Len(EncCopyouts(c.copyout))
  {
    var ins, head, args, outs :=
      EncCopyins(c.copyin), [Word(c.meta), Word(c.index), Word(|c.args|)], EncArgs(c.args), EncCopyouts(c.copyout);
    LenAppend(ins + head + args, outs);
    LenAppend(ins + head, args);
    LenAppend(ins, head);
    assert head[1..][1..][1..] == [];
    assert Len(head[1..]) == 8 + Len(head[1..][1..]);
  }

  /** From the state after the copyins to the state after the argument words. */
  lemma {:induction false} AfterHeader(d: Dec, c: ExecCall, data1: seq<Byte>, data2: seq<Byte>)
    requires d.call.meta.Some? || d.call == NO_CALL
    requires c.copyin == [] ==> data1 == d.data
    ensures WithHeader(AfterCopyins(d, c.copyin, data1), c, data2) == AfterCall(d, c.(copyout := []), data2)
  {
    assert Commit(d).call == NO_CALL;
    assert [] + c.copyin == c.copyin && [] + c.args == c.args;
  }

  lemma {:induction false} SplitCall(ins: seq<Item>, head: seq<Item>, args: seq<Item>, outs: seq<Item>, rest: seq<Item>)
    ensures ins + head + args + outs + rest == ins + (head + args + (outs + rest))
  {
  }

  /** Length of the words of a call after its copyins. */
  function BodyLen(c: ExecCall): nat
    requires ArgsFit(c.args)
  {
    24 + Len(EncArgs(c.args)) + Len(EncCopyouts(c.copyout))
  }

  lemma {:induction false} ParseArgWords(nsys: nat, f: Dec -> Result<Dec>, d: Dec, c: ExecCall, data1: seq<Byte>,
      rest: seq<Item>)
    requires Follows(nsys, f) && nsys <= INSTR_COPYOUT && CallFits(nsys, c)
    requires d.call.meta.Some? || d.call == NO_CALL
    requires c.copyin == [] ==> data1 == d.data
    requires Starts(data1, [Word(c.meta), Word(c.index), Word(|c.args|)] + EncArgs(c.args) + rest)
    ensures 24 + Len(EncArgs(c.args)) <= |data1| && Starts(data1[24 + Len(EncArgs(c.args))..], rest)
    ensures f(AfterCopyins(d, c.copyin, data1)) ==
        f(AfterCall(d, c.(copyout := []), data1[24 + Len(EncArgs(c.args))..]))
  {
    ParseHeader(nsys, f, AfterCopyins(d, c.copyin, data1), c, rest);
    AfterHeader(d, c, data1, data1[24 + Len(EncArgs(c.args))..]);
  }

  lemma {:induction false} ParseBody(nsys: nat, f: Dec -> Result<Dec>, d: Dec, c: ExecCall, data1: seq<Byte>,
      rest: seq<Item>)
    requires Follows(nsys, f) && nsys <= INSTR_COPYOUT && CallFits(nsys, c)
    requires d.call.meta.Some? || d.call == NO_CALL
    requires c.copyin == [] ==> data1 == d.data
    requires Starts(data1, [Word(c.meta), Word(c.index), Word(|c.args|)] + EncArgs(c.args) +
        (EncCopyouts(c.copyout) + rest))
    ensures BodyLen(c) <= |data1| && Starts(data1[BodyLen(c)..], rest)
    ensures f(AfterCopyins(d, c.copyin, data1)) == f(AfterCall(d, c, data1[BodyLen(c)..]))
  {
    var m := Len(EncArgs(c.args));
    ParseArgWords(nsys, f, d, c, data1, EncCopyouts(c.copyout) + rest);
    BodyTail(nsys, f, d, c, data1, data1[24 + m..], rest);
  }

  /** The copyouts of a call, after its arguments. */
  lemma {:induction false} BodyTail(nsys: nat, f: Dec -> Result<Dec>, d: Dec, c: ExecCall, data1: seq<Byte>,
      data2: seq<Byte>, rest: seq<Item>)
    requires Follows(nsys, f) && nsys <= INSTR_COPYOUT && CallFits(nsys, c)
    requires 24 + Len(EncArgs(c.args)) <= |data1| && data2 == data1[24 + Len(EncArgs(c.args))..]
    requires Starts(data2, EncCopyouts(c.copyout) + rest)
    ensures BodyLen(c) <= |data1| && Starts(data1[BodyLen(c)..], rest)
    ensures f(AfterCall(d, c.(copyout := []), data2)) == f(AfterCall(d, c, data1[BodyLen(c)..]))
  {
    var n := Len(EncCopyouts(c.copyout));
    CallCopyouts(nsys, f, d, c, data2, rest);
    Suffix(data1, 24 + Len(EncArgs(c.args)), n);
    StartsSame(data2[n..], data1[BodyLen(c)..], rest);
  }

  lemma {:induction false} CallCopyouts(nsys: nat, f: Dec -> Result<Dec>, d: Dec, c: ExecCall, data2: seq<Byte>,
      rest: seq<Item>)
    requires Follows(nsys, f) && nsys <= INSTR_COPYOUT && CallFits(nsys, c)
    requires Starts(data2, EncCopyouts(c.copyout) + rest)
    ensures var n := Len(EncCopyouts(c.copyout));
      && n <= |data2| && Starts(data2[n..], rest)
      && f(AfterCall(d, c.(copyout := []), data2)) == f(AfterCall(d, c, data2[n..]))
  {
    ParseCopyouts(nsys, f, AfterCall(d, c.(copyout := []), data2), c.copyout, rest);
    assert [] + c.copyout == c.copyout;
  }

  lemma {:induction false} Suffix(data: seq<Byte>, a: nat, b: nat)
    requires a + b <= |data|
    ensures data[a..][b..] == data[a + b..]
  {
  }

  lemma {:induction false} ParseCall(nsys: nat, f: Dec -> Result<Dec>, d: Dec, c: ExecCall, rest: seq<Item>)
    requires Follows(nsys, f) && nsys <= INSTR_COPYOUT && CallFits(nsys, c)
    requires d.call.meta.Some? || d.call == NO_CALL
    requires Starts(d.data, EncCall(nsys, c) + rest)
    ensures Len(EncCall(nsys, c)) <= |d.data| && Starts(d.data[Len(EncCall(nsys, c))..], rest)
    ensures f(d) == f(AfterCall(d, c, d.data[Len(EncCall(nsys, c))..]))
  {
    var ins, head, args, outs :=
      EncCopyins(c.copyin), [Word(c.meta), Word(c.index), Word(|c.args|)], EncArgs(c.args), EncCopyouts(c.copyout);
    SplitCall(ins, head, args, outs, rest);
    ParseCopyins(nsys, f, d, c.copyin, head + args + (outs + rest));
    var data1 := d.data[Len(ins)..];
    ParseBody(nsys, f, d, c, data1, rest);
    LenCall(nsys, c);
    Suffix(d.data, Len(ins), BodyLen(c));
    StartsSame(data1[BodyLen(c)..], d.data[Len(EncCall(nsys, c))..], rest);
  }

  lemma {:induction false} StartsSame(a: seq<Byte>, b: seq<Byte>, items: seq<Item>)
    requires Starts(a, items) && a == b
    ensures Starts(b, items)
  {
  }

  /** The last instruction. */
  lemma {:induction false} ParseEof(nsys: nat, d: Dec)
    requires Starts(d.data, [Word(INSTR_EOF)])
    ensures |d.data| >= 8 && Parse(nsys, d) == Ok(Commit(d.(data := d.data[8..])))
  {
    assert [Word(INSTR_EOF)] == [Word(INSTR_EOF)] + [];
    ReadWord(d.data, INSTR_EOF, []);
  }

  /** Where decoding the words of `calls` and the terminator ends. */
  ghost predicate Decodes(r: Result<Dec>, d: Dec, calls: seq<ExecCall>) {
    && r.Ok?
    && r.value.calls == Commit(d).calls + calls
    && r.value.vars == NoteArgs(d.vars, AllArgs(calls))
    && r.value.numVars == NumVarsFold(Commit(d).numVars, calls)
  }

  lemma {:induction false} ParseCalls(nsys: nat, f: Dec -> Result<Dec>, d: Dec, calls: seq<ExecCall>)
    requires Follows(nsys, f) && CallsFit(nsys, calls)
    requires Stops(f)
    requires d.call.meta.Some? || d.call == NO_CALL
    requires Starts(d.data, EncProg(nsys, calls))
    ensures Decodes(f(d), d, calls)
    decreases calls
  {
    if calls == [] {
      assert EncProg(nsys, calls) == [Word(INSTR_EOF)];
      assert Commit(d).calls + calls == Commit(d).calls;
    } else {
      var c, rest := calls[0], EncProg(nsys, calls[1..]);
      assert EncProg(nsys, calls) == EncCall(nsys, c) + rest;
      ParseCall(nsys, f, d, c, rest);
      var d1 := AfterCall(d, c, d.data[Len(EncCall(nsys, c))..]);
      ParseCalls(nsys, f, d1, calls[1..]);
      DecodesStep(f(d1), d, d1.data, calls);
    }
  }

  lemma {:induction false} DecodesStep(r: Result<Dec>, d: Dec, data: seq<Byte>, calls: seq<ExecCall>)
    requires calls != [] && Decodes(r, AfterCall(d, calls[0], data), calls[1..])
    ensures Decodes(r, d, calls)
  {
    var c := calls[0];
    var ins := CopyinArgs(c.copyin);
    NoteArgsAppend(d.vars, ins + c.args, AllArgs(calls[1..]));
    NoteArgsAppend(d.vars, ins, c.args);
    assert Commit(d).calls + [c] + calls[1..] == Commit(d).calls + calls;
  }

  lemma {:induction false} ParseDecodes(nsys: nat, data: seq<Byte>, calls: seq<ExecCall>)
    requires CallsFit(nsys, calls) && Starts(data, EncProg(nsys, calls))
    ensures Decodes(Parse(nsys, Dec(data, 0, [], NO_CALL, [])), Dec(data, 0, [], NO_CALL, []), calls)
  {
    ParseFollows(nsys);
    ParseStops(nsys);
    ParseCalls(nsys, ParseFrom(nsys), Dec(data, 0, [], NO_CALL, []), calls);
  }

  // ----- main results -----

  /** The decoder returns exactly the calls that were encoded, and accepts them exactly
      when the largest index referred to is the largest index assigned. */
  lemma {:induction false} RoundTrip(nsys: nat, calls: seq<ExecCall>, data: seq<Byte>, refs: nat, outs: nat)
    requires CallsFit(nsys, calls) && Starts(data, EncProg(nsys, calls))
    requires IsSup(refs, Referenced(AllArgs(calls))) && IsSup(outs, Assigned(calls))
    ensures DeserializeExec(nsys, data) ==
            if refs == outs then Ok((calls, NoteArgs([], AllArgs(calls)))) else Err(VarsMismatch)
  {
    ParseDecodes(nsys, data, calls);
    assert [] + calls == calls;
    NoteArgsSup([], {}, AllArgs(calls));
    assert {} + Referenced(AllArgs(calls)) == Referenced(AllArgs(calls));
    SupUnique(refs, |NoteArgs([], AllArgs(calls))|, Referenced(AllArgs(calls)));
    NumVarsSup(nsys, 0, {}, calls);
    assert {} + Assigned(calls) == Assigned(calls);
    SupUnique(outs, NumVarsFold(0, calls), Assigned(calls));
  }

  /** Consequently the encoding is injective: two call lists with the same bytes are equal. */
  lemma {:induction false} EncodingInjective(nsys: nat, xs: seq<ExecCall>, ys: seq<ExecCall>, data: seq<Byte>)
    requires CallsFit(nsys, xs) && CallsFit(nsys, ys)
    requires Starts(data, EncProg(nsys, xs)) && Starts(data, EncProg(nsys, ys))
    ensures xs == ys
  {
    ParseDecodes(nsys, data, xs);
    ParseDecodes(nsys, data, ys);
    assert [] + xs == xs && [] + ys == ys;
  }
}
