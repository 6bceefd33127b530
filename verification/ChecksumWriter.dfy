/**
  Emission of checksum instructions (writeChecksums, prog/encodingexec.go:155-198) and what they
  come to in the executor.

  calcChecksumsCall maps each checksum field of a call to its chunks.  The fields are sorted by
  address and written from the last one down.  If a region holds other fields only at higher
  addresses, the instructions are nested, the copyins have left zeros in the fields, and running
  them makes every region sum to all ones.
 */
module ChecksumWriter {
  import opened Ir
  import opened ExecFormat
  import opened ExecMemory
  import opened ExecCompile
  import C = Checksum

  const CHUNK_DATA: U64 := 0
  const CHUNK_CONST: U64 := 1

  /** CsumChunk: the bytes of an argument, or a constant.  Arguments are known by a number. */
  datatype CsumChunk = ArgChunk(arg: nat) | ConstChunk(value: U64, size: U64)

  /** csumMap: the checksum fields of a call and their chunks. */
  type CsumMap = map<nat, seq<CsumChunk>>

  /** Where the used arguments lie: their argInfo and sizes. */
  datatype Place = Place(addr: U64, size: U64)

  predicate Known(csums: CsumMap, places: map<nat, Place>) {
    forall k :: k in csums ==> k in places && ChunksKnown(csums[k], places)
  }

  predicate ChunksKnown(cs: seq<CsumChunk>, places: map<nat, Place>) {
    forall i :: 0 <= i < |cs| ==> (cs[i].ArgChunk? ==> cs[i].arg in places)
  }

  // ----- emission -----

  function EmitChunks(cs: seq<CsumChunk>, places: map<nat, Place>): (r: seq<Chunk>)
    requires ChunksKnown(cs, places)
    ensures |r| == |cs|
  {
    if cs == [] then []
    else
      [match cs[0]
       case ArgChunk(a) => Chunk(CHUNK_DATA, places[a].addr, places[a].size)
       case ConstChunk(value, size) => Chunk(CHUNK_CONST, value, size)] + EmitChunks(cs[1..], places)
  }

  /** The instruction for one field. */
  function Emit(csums: CsumMap, places: map<nat, Place>, k: nat): Copyin
    requires Known(csums, places) && k in csums
  {
    Copyin(places[k].addr, ExecCsum(places[k].size, EmitChunks(csums[k], places)))
  }

  predicate Unique(s: seq<nat>) {
    forall i, j :: 0 <= i < j < |s| ==> s[i] != s[j]
  }

  /** The keys of the map, in any order. */
  method Keys(csums: CsumMap) returns (s: seq<nat>)
    ensures Unique(s) && forall k :: k in s <==> k in csums
  {
    s := [];
    var todo := csums.Keys;
    while todo != {}
      invariant todo <= csums.Keys && Unique(s) && forall k :: k in s <==> k in csums.Keys - todo
      decreases todo
    {
      var k :| k in todo;
      assert k !in s;
      todo := todo - {k};
      s := s + [k];
    }
  }

  predicate InPlaces(s: seq<nat>, places: map<nat, Place>) {
    forall i :: 0 <= i < |s| ==> s[i] in places
  }

  predicate Ascending(s: seq<nat>, places: map<nat, Place>)
    requires InPlaces(s, places)
  {
    forall i, j :: 0 <= i < j < |s| ==> places[s[i]].addr <= places[s[j]].addr
  }

  /** sort.Slice by address: each field goes behind those that are not above it. */
  method SortByAddr(s: seq<nat>, places: map<nat, Place>) returns (r: seq<nat>)
    requires Unique(s) && InPlaces(s, places)
    ensures Unique(r) && (forall k :: k in r <==> k in s) && InPlaces(r, places) && Ascending(r, places)
  {
    r := [];
    for n := 0 to |s|
      invariant Unique(r) && (forall k :: k in r <==> k in s[..n]) && InPlaces(r, places) && Ascending(r, places)
    {
      assert s[..n + 1] == s[..n] + [s[n]];
      assert s[n] !in r;
      r := InsertByAddr(r, s[n], places);
    }
    assert s[..|s|] == s;
  }

  method InsertByAddr(s: seq<nat>, x: nat, places: map<nat, Place>) returns (r: seq<nat>)
    requires Unique(s) && x !in s && InPlaces(s, places) && x in places && Ascending(s, places)
    ensures Unique(r) && (forall k :: k in r <==> k in s || k == x) && InPlaces(r, places) && Ascending(r, places)
  {
    var i := |s|;
    while i > 0 && places[s[i - 1]].addr > places[x].addr
      invariant 0 <= i <= |s|
      invariant forall j :: i <= j < |s| ==> places[s[j]].addr > places[x].addr
    {
      i := i - 1;
    }
    r := s[..i] + [x] + s[i..];
    Inserted(s, x, i, places);
  }

  /** `r` is `s` with `x` put in at `i`. */
  ghost predicate PutAt(s: seq<nat>, x: nat, i: nat, r: seq<nat>) {
    && i <= |s| && |r| == |s| + 1 && r[i] == x
    && (forall j :: 0 <= j < i ==> r[j] == s[j])
    && (forall j :: i < j < |r| ==> r[j] == s[j - 1])
  }

  lemma {:induction false} Inserted(s: seq<nat>, x: nat, i: nat, places: map<nat, Place>)
    requires Unique(s) && x !in s && InPlaces(s, places) && x in places && Ascending(s, places) && i <= |s|
    requires forall j :: i <= j < |s| ==> places[s[j]].addr > places[x].addr
    requires i > 0 ==> places[s[i - 1]].addr <= places[x].addr
    ensures var r := s[..i] + [x] + s[i..];
      Unique(r) && (forall k :: k in r <==> k in s || k == x) && InPlaces(r, places) && Ascending(r, places)
  {
    var r := s[..i] + [x] + s[i..];
    assert PutAt(s, x, i, r);
    PutMembers(s, x, i, r);
    PutUnique(s, x, i, r);
    PutAscending(s, x, i, r, places);
  }

  lemma {:induction false} PutMembers(s: seq<nat>, x: nat, i: nat, r: seq<nat>)
    requires PutAt(s, x, i, r)
    ensures forall k :: k in r <==> k in s || k == x
  {
    forall k | k in s || k == x ensures k in r {
      if k != x {
        var j :| 0 <= j < |s| && s[j] == k;
        assert r[if j < i then j else j + 1] == k;
      } else {
        assert r[i] == x;
      }
    }
  }

  lemma {:induction false} PutUnique(s: seq<nat>, x: nat, i: nat, r: seq<nat>)
    requires PutAt(s, x, i, r) && Unique(s) && x !in s
    ensures Unique(r)
  {
  }

  lemma {:induction false} PutAscending(s: seq<nat>, x: nat, i: nat, r: seq<nat>, places: map<nat, Place>)
    requires PutAt(s, x, i, r) && InPlaces(s, places) && x in places && Ascending(s, places)
    requires forall j :: i <= j < |s| ==> places[s[j]].addr > places[x].addr
    requires i > 0 ==> places[s[i - 1]].addr <= places[x].addr
    ensures InPlaces(r, places) && Ascending(r, places)
  {
    forall a | 0 <= a < i ensures places[s[a]].addr <= places[x].addr {
      if a < i - 1 { assert places[s[a]].addr <= places[s[i - 1]].addr; }
    }
  }

  /** writeChecksums.  One instruction for each field, in descending order of the addresses. */
  method WriteChecksums(csums: CsumMap, places: map<nat, Place>) returns (out: seq<Copyin>, ghost order: seq<nat>)
    requires Known(csums, places)
    ensures Unique(order) && |out| == |order| && forall k :: k in order <==> k in csums
    ensures forall i :: 0 <= i < |out| ==> order[i] in csums && out[i] == Emit(csums, places, order[i])
    ensures forall i, j :: 0 <= i < j < |out| ==> out[i].addr >= out[j].addr
  {
    out, order := [], [];
    if csums == map[] {
      return;
    }
    var args := Keys(csums);
    args := SortByAddr(args, places);
    var i := |args|;
    while i > 0
      invariant 0 <= i <= |args| && |out| == |order| == |args| - i
      invariant forall j :: 0 <= j < |order| ==> order[j] == args[|args| - 1 - j]
      invariant forall j :: 0 <= j < |out| ==> order[j] in csums && out[j] == Emit(csums, places, order[j])
    {
      i := i - 1;
      assert args[i] in args;
      out := out + [Emit(csums, places, args[i])];
      order := order + [args[i]];
    }
    forall k ensures k in order <==> k in csums {
      if k in csums {
        var j :| 0 <= j < |args| && args[j] == k;
        assert order[|args| - 1 - j] == k;
      }
    }
  }

  // ----- the executor's view -----

  function RunChunk(c: Chunk): C.Chunk {
    if c.kind == CHUNK_DATA then C.DataChunk(c.value, c.size) else C.ConstChunk(LeBytes(c.value, c.size))
  }

  function RunChunks(cs: seq<Chunk>): (r: seq<C.Chunk>)
    ensures |r| == |cs| && forall i :: 0 <= i < |r| ==> r[i] == RunChunk(cs[i])
  {
    if cs == [] then [] else [RunChunk(cs[0])] + RunChunks(cs[1..])
  }

  function InstrOf(c: Copyin): C.Instr
    requires c.arg.ExecCsum?
  {
    C.Instr(c.addr, RunChunks(c.arg.chunks))
  }

  function InstrsOf(cs: seq<Copyin>): (r: seq<C.Instr>)
    requires forall i :: 0 <= i < |cs| ==> cs[i].arg.ExecCsum?
    ensures |r| == |cs| && forall i :: 0 <= i < |r| ==> r[i] == InstrOf(cs[i])
  {
    if cs == [] then [] else [InstrOf(cs[0])] + InstrsOf(cs[1..])
  }

  /** The chunks of a field in memory. */
  function Region(csums: CsumMap, places: map<nat, Place>, k: nat): seq<C.Chunk>
    requires Known(csums, places) && k in csums
  {
    RunChunks(EmitChunks(csums[k], places))
  }

  /** What the descriptions guarantee: every field is in its own region once, at an even offset,
      different fields are apart, and a region holds other fields only at higher addresses. */
  ghost predicate Sound(csums: CsumMap, places: map<nat, Place>, limit: nat)
    requires Known(csums, places)
  {
    && (forall k :: k in csums ==>
          && places[k].addr + 2 <= limit
          && C.ChunksIn(Region(csums, places, k), limit) && C.CoversOnce(Region(csums, places, k), places[k].addr))
    && (forall k, l :: k in csums && l in csums && k != l ==> FieldsApart(csums, places, k, l))
  }

  ghost predicate FieldsApart(csums: CsumMap, places: map<nat, Place>, k: nat, l: nat)
    requires Known(csums, places) && k in csums && l in csums
  {
    && places[k].addr != places[l].addr
    && (places[l].addr < places[k].addr ==>
          && places[l].addr + 2 <= places[k].addr
          && forall c :: c in Region(csums, places, k) ==> C.Apart(c, places[l].addr))
  }

  /** Descending order makes the instructions nested. */
  lemma {:induction false} WrittenNested(csums: CsumMap, places: map<nat, Place>, out: seq<Copyin>, order: seq<nat>,
      limit: nat)
    requires Known(csums, places) && Sound(csums, places, limit)
    requires Unique(order) && |out| == |order|
    requires forall i :: 0 <= i < |out| ==>
        order[i] in csums && out[i] == Emit(csums, places, order[i]) && out[i].arg.ExecCsum?
    requires forall i, j :: 0 <= i < j < |out| ==> out[i].addr >= out[j].addr
    ensures C.Nested(InstrsOf(out), limit)
  {
    var ins := InstrsOf(out);
    forall i | 0 <= i < |ins|
      ensures ins[i].field + 2 <= limit && C.ChunksIn(ins[i].chunks, limit) && C.CoversOnce(ins[i].chunks, ins[i].field)
    {
      assert ins[i] == InstrOf(out[i]) && ins[i].chunks == Region(csums, places, order[i]);
    }
    forall i, j | 0 <= i < j < |ins|
      ensures ins[j].field + 2 <= ins[i].field && forall c :: c in ins[i].chunks ==> C.Apart(c, ins[j].field)
    {
      assert out[i].addr >= out[j].addr;
      assert FieldsApart(csums, places, order[i], order[j]);
      assert ins[i] == InstrOf(out[i]) && ins[i].chunks == Region(csums, places, order[i]) && ins[j] == InstrOf(out[j]);
    }
  }

  // ----- the fields are zero -----

  /** The copyin of a checksum field writes zero: ConstArg.Value gives 0 for it. */
  lemma {:induction false} CsumCopyin(tgt: Target, infos: Infos, a: Arg, base: U64, off: nat)
    requires a.ConstArg? && a.typ.CsumT? && a.typ.com.dir != DirOut && a.typ.com.size == 2
    requires a.typ.bits.len == 0 && a.typ.bits.off == 0
    ensures OwnCopyin(tgt, infos, a, Some(base), off) == Some([ZeroAt(AddrAt(base, off, a.typ), a.typ.bits.format)])
  {
  }

  function ZeroAt(f: U64, format: Format): Copyin {
    Copyin(f, ExecConst(2, FormatCode(format), 0, 0, 0, 0))
  }

  /** Text has a terminator. */
  function IntSpan(size: U64, format: U64): nat {
    if format > FormatCode(BigEndian) then size + 1 else size
  }

  /** How many bytes a copyin writes. */
  function Span(x: ExecArg): nat {
    match x
    case ExecConst(size, format, _, _, _, _) => IntSpan(size, format)
    case ExecResult(size, format, _, _, _, _) => IntSpan(size, format)
    case ExecData(data, _) => |data|
    case ExecCsum(_, _) => 0
  }

  predicate Misses(c: Copyin, x: nat) {
    x < c.addr || c.addr + Span(c.arg) <= x
  }

  lemma {:induction false} CopyinElsewhere(m: Machine, mem: Mem, c: Copyin, x: nat)
    requires RunCopyin(m, mem, c).Some? && x in mem && Misses(c, x)
    ensures x in RunCopyin(m, mem, c).value && RunCopyin(m, mem, c).value[x] == mem[x]
  {
    match c.arg
    case ExecConst(size, format, value, off, len, stride) =>
      StoreElsewhere(mem, c.addr, (value + stride * m.procid) % TWO64, size, format, off, len, x);
    case ExecResult(size, format, idx, div, add, default) =>
      StoreElsewhere(mem, c.addr, ResultValue(m, idx, div, add, default), size, format, 0, 0, x);
    case ExecData(data, _) => ApplyElsewhere(mem, At(c.addr, data), x);
    case _ =>
  }

  lemma {:induction false} StoreElsewhere(mem: Mem, addr: U64, v: U64, size: U64, format: U64, off: U64, len: U64,
      x: nat)
    requires StoreInt(mem, addr, v, size, format, off, len).Some? && x in mem
    requires x < addr || addr + IntSpan(size, format) <= x
    ensures var r := StoreInt(mem, addr, v, size, format, off, len).value; x in r && r[x] == mem[x]
  {
    if format > FormatCode(BigEndian) {
      ApplyElsewhere(mem, At(addr, IntText(v, size, format).value + [0]), x);
    } else if off == 0 && len == 0 {
      ApplyElsewhere(mem, At(addr, IntBytes(v, size, format)), x);
    } else {
      var v1 := BitStore(IntVal(Load(mem, addr, size), format), off, len, v);
      ApplyElsewhere(mem, At(addr, IntBytes(v1, size, format)), x);
    }
  }

  lemma {:induction false} RunElsewhere(m: Machine, mem: Mem, cs: seq<Copyin>, x: nat)
    requires Run(m, mem, cs).Some? && x in mem && forall i :: 0 <= i < |cs| ==> Misses(cs[i], x)
    ensures x in Run(m, mem, cs).value && Run(m, mem, cs).value[x] == mem[x]
    decreases cs
  {
    if cs != [] {
      CopyinElsewhere(m, mem, cs[0], x);
      RunElsewhere(m, RunCopyin(m, mem, cs[0]).value, cs[1..], x);
    }
  }

  lemma {:induction false} ZeroWritten(m: Machine, mem: Mem, f: U64, format: Format)
    requires RunCopyin(m, mem, ZeroAt(f, format)).Some?
    ensures var r := RunCopyin(m, mem, ZeroAt(f, format)).value;
      f in r && f + 1 in r && r[f as nat] == 0 && r[f as nat + 1] == 0
  {
    var code := FormatCode(format);
    assert LeBytes(0, 2) == [0] + LeBytes(0, 1) && LeBytes(0, 1) == [0] + LeBytes(0, 0);
    assert Reversed([0, 0]) == Reversed([0]) + [0] && Reversed([0]) == Reversed([]) + [0] by {
      assert [0, 0][1..] == [0] && [0][1..] == [];
    }
    assert IntBytes(0, 2, code) == [0, 0];
    var cells := At(f, [0, 0]);
    assert cells == [Cell(f, 0), Cell(f + 1, 0)] && cells[1..] == [Cell(f + 1, 0)] && cells[1..][1..] == [];
    var mem1 := mem[f as nat := 0];
    assert Apply(mem, cells) == Apply(mem1, cells[1..]);
    assert Apply(mem1, cells[1..]) == Apply(mem1[f as nat + 1 := 0], []);
  }

  /** The field at `f` is copied in, and nothing is copied over it later. */
  ghost predicate ZeroedBy(cs: seq<Copyin>, f: U64) {
    exists i, format :: 0 <= i < |cs| && cs[i] == ZeroAt(f, format) &&
                        forall j :: i < j < |cs| ==> Misses(cs[j], f) && Misses(cs[j], f + 1)
  }

  lemma {:induction false} FieldIsZero(m: Machine, mem: Mem, cs: seq<Copyin>, f: U64)
    requires Run(m, mem, cs).Some? && ZeroedBy(cs, f)
    ensures var r := Run(m, mem, cs).value; f in r && f + 1 in r && r[f as nat] == 0 && r[f as nat + 1] == 0
    decreases cs
  {
    var i, format :| 0 <= i < |cs| && cs[i] == ZeroAt(f, format) &&
                     forall j :: i < j < |cs| ==> Misses(cs[j], f) && Misses(cs[j], f + 1);
    var next := RunCopyin(m, mem, cs[0]).value;
    forall j | 0 <= j < |cs| - 1 ensures cs[1..][j] == cs[j + 1] {}
    if i == 0 {
      ZeroWritten(m, mem, f, format);
      RunElsewhere(m, next, cs[1..], f);
      RunElsewhere(m, next, cs[1..], f + 1);
    } else {
      assert cs[1..][i - 1] == ZeroAt(f, format);
      FieldIsZero(m, next, cs[1..], f);
    }
  }

  // ----- all together -----

  /** The bytes are those of the memory. */
  ghost predicate Holds(bytes: seq<Byte>, mem: Mem) {
    forall x :: 0 <= x < |bytes| ==> x in mem && bytes[x] == mem[x]
  }

  /** The instructions are those of the fields listed in `order`. */
  ghost predicate Matches(instrs: seq<C.Instr>, csums: CsumMap, places: map<nat, Place>, order: seq<nat>)
    requires Known(csums, places)
  {
    && |instrs| == |order| && (forall k :: k in order <==> k in csums)
    && forall i :: 0 <= i < |order| ==>
         order[i] in csums && instrs[i] == C.Instr(places[order[i]].addr, Region(csums, places, order[i]))
  }

  /** After the instructions every region sums to all ones, and nothing but fields changed. */
  ghost predicate Summed(csums: CsumMap, places: map<nat, Place>, before: seq<Byte>, after: seq<Byte>)
    requires Known(csums, places) && |before| == |after|
  {
    && (forall k :: k in csums ==>
         C.ChunksIn(Region(csums, places, k), |after|) && C.Checked(Region(csums, places, k), after) == 0xffff)
    && forall x :: 0 <= x < |after| && !IsField(csums, places, x) ==> after[x] == before[x]
  }

  ghost predicate IsField(csums: CsumMap, places: map<nat, Place>, x: nat)
    requires Known(csums, places)
  {
    exists k :: k in csums && (x == places[k].addr || x == places[k].addr + 1)
  }

  /** The checksum part of a call: after the copyins `ins` of the call were run, the instructions
      that writeChecksums emits make every region sum to all ones at once, and change no byte but
      those of the fields. */
  method RunCallChecksums(csums: CsumMap, places: map<nat, Place>, mem: array<Byte>,
                          ghost m: Machine, ghost start: Mem, ghost ins: seq<Copyin>)
    requires Known(csums, places) && Sound(csums, places, mem.Length)
    requires Run(m, start, ins).Some? && Holds(mem[..], Run(m, start, ins).value)
    requires forall k :: k in csums ==> ZeroedBy(ins, places[k].addr)
    modifies mem
    ensures Summed(csums, places, old(mem[..]), mem[..])
  {
    var out, order := WriteChecksums(csums, places);
    WrittenNested(csums, places, out, order, mem.Length);
    FieldsOf(csums, places, out, order);
    FieldsInside(csums, places, mem.Length);
    AllZero(csums, places, m, start, ins, mem[..]);
    RunInstrs(InstrsOf(out), csums, places, order, mem);
  }

  method RunInstrs(instrs: seq<C.Instr>, ghost csums: CsumMap, ghost places: map<nat, Place>, ghost order: seq<nat>,
      mem: array<Byte>)
    requires C.Nested(instrs, mem.Length) && Known(csums, places) && Matches(instrs, csums, places, order)
    requires FieldsHoldZero(csums, places, mem[..])
    modifies mem
    ensures Summed(csums, places, old(mem[..]), mem[..])
  {
    FieldsZero(instrs, csums, places, order, mem[..]);
    ghost var before := mem[..];
    C.RunChecksums(instrs, mem);
    InstrsSummed(instrs, csums, places, order, before, mem[..]);
  }

  lemma {:induction false} InstrsSummed(instrs: seq<C.Instr>, csums: CsumMap, places: map<nat, Place>, order: seq<nat>,
                                        before: seq<Byte>, after: seq<Byte>)
    requires |before| == |after| && C.Nested(instrs, |after|) && Known(csums, places)
    requires Matches(instrs, csums, places, order)
    requires forall i :: 0 <= i < |instrs| ==> C.Checked(instrs[i].chunks, after) == 0xffff
    requires forall x :: 0 <= x < |after| && C.Outside(instrs, x) ==> after[x] == before[x]
    ensures Summed(csums, places, before, after)
  {
    forall k | k in csums
      ensures C.ChunksIn(Region(csums, places, k), |after|) && C.Checked(Region(csums, places, k), after) == 0xffff
    {
      var i :| 0 <= i < |order| && order[i] == k;
      assert instrs[i].chunks == Region(csums, places, k);
    }
    forall x | 0 <= x < |after| && !IsField(csums, places, x) ensures after[x] == before[x] {
      forall i | 0 <= i < |instrs|
        ensures x != instrs[i].field && x != instrs[i].field + 1
      {
        assert order[i] in csums;
      }
    }
  }

  /** All fields hold zeros. */
  ghost predicate FieldsHoldZero(csums: CsumMap, places: map<nat, Place>, bytes: seq<Byte>)
    requires Known(csums, places)
  {
    forall k :: k in csums ==>
        places[k].addr + 2 <= |bytes| && bytes[places[k].addr] == 0 && bytes[places[k].addr + 1] == 0
  }

  lemma {:induction false} FieldsZero(instrs: seq<C.Instr>, csums: CsumMap, places: map<nat, Place>, order: seq<nat>,
      bytes: seq<Byte>)
    requires Known(csums, places) && Matches(instrs, csums, places, order) && FieldsHoldZero(csums, places, bytes)
    ensures forall i :: 0 <= i < |instrs| ==>
              instrs[i].field + 2 <= |bytes| && bytes[instrs[i].field] == 0 && bytes[instrs[i].field + 1] == 0
  {
  }

  lemma {:induction false} FieldsInside(csums: CsumMap, places: map<nat, Place>, limit: nat)
    requires Known(csums, places) && Sound(csums, places, limit)
    ensures forall k :: k in csums ==> places[k].addr + 2 <= limit
  {
  }

  /** The copyins leave zeros in all fields. */
  lemma {:induction false} AllZero(csums: CsumMap, places: map<nat, Place>, m: Machine, start: Mem, ins: seq<Copyin>,
      bytes: seq<Byte>)
    requires Known(csums, places) && Run(m, start, ins).Some? && Holds(bytes, Run(m, start, ins).value)
    requires forall k :: k in csums ==> places[k].addr + 2 <= |bytes|
    requires forall k :: k in csums ==> ZeroedBy(ins, places[k].addr)
    ensures FieldsHoldZero(csums, places, bytes)
  {
    forall k | k in csums
      ensures places[k].addr + 2 <= |bytes| && bytes[places[k].addr] == 0 && bytes[places[k].addr + 1] == 0
    {
      ZeroHeld(m, start, ins, bytes, places[k].addr);
    }
  }

  lemma {:induction false} ZeroHeld(m: Machine, start: Mem, ins: seq<Copyin>, bytes: seq<Byte>, f: U64)
    requires Run(m, start, ins).Some? && Holds(bytes, Run(m, start, ins).value) && ZeroedBy(ins, f) && f + 2 <= |bytes|
    ensures bytes[f] == 0 && bytes[f + 1] == 0
  {
    FieldIsZero(m, start, ins, f);
  }

  /** Fields and regions of the instructions. */
  lemma {:induction false} FieldsOf(csums: CsumMap, places: map<nat, Place>, out: seq<Copyin>, order: seq<nat>)
    requires Known(csums, places) && |out| == |order| && forall k :: k in order <==> k in csums
    requires forall i :: 0 <= i < |out| ==>
        order[i] in csums && out[i] == Emit(csums, places, order[i]) && out[i].arg.ExecCsum?
    ensures Matches(InstrsOf(out), csums, places, order)
  {
    forall i | 0 <= i < |out|
      ensures InstrsOf(out)[i] == C.Instr(places[order[i]].addr, Region(csums, places, order[i]))
    {
      assert InstrsOf(out)[i] == InstrOf(out[i]);
    }
  }
}
