/**
  Three valid programs that squashing changes: a pointer that leads into padding, a result that
  was not produced, and a bitfield whose unit starts before its storage.
 */
module SquashFails {
  import opened Ir
  import opened Defaults
  import opened ExecFormat
  import opened ExecCompile
  import opened ExecMemory
  import opened Bits
  import opened Squash
  import opened SquashKeeps
  import opened SquashMemory
  import opened SquashExact
  import CopyoutLaws

  const PLAIN := IntBits(Native, 0, 0, 0, 0)

  function Com(field: string, size: U64, optional: bool, varlen: bool): Common {
    Common("", field, size, DirIn, optional, varlen)
  }

  function AnyResource(field: string, size: U64): Type {
    ResourceT(Com(field, size, false, false), Native, TWO64 - 1)
  }

  const BLOB := BufferT(Com("ANYBLOB", 0, false, true), BlobRand, 0, [])
  const UNION := UnionT(Com("", 0, false, true), [BLOB, AnyResource("ANYRES16", 2), AnyResource("ANYRES32", 4),
                                                  AnyResource("ANYRES64", 8), PtrT(Com("ANYPTR", 8, true, false), 0)])
  const LIST := ArrayT(Com("", 0, false, true), UNION, RandLen)
  const ANY := AnyTypes(UNION, LIST, BLOB, AnyResource("ANYRES16", 2), AnyResource("ANYRES32", 4),
      AnyResource("ANYRES64", 8), 0, 8)

  const BYTES := BufferT(Com("d", 0, false, true), BlobRand, 0, [])

  /** struct outer { p ptr[in, array[int8]] } aligned to 16 bytes, and f(q ptr[in, outer]). */
  const P := PtrT(Com("p", 8, false, false), 1)
  const PAD := ConstT(Com("pad", 8, false, false), PLAIN, 0, true)
  const OUTER := StructT(Com("", 16, false, false), [P, PAD], 16)
  const OUTER_PTR := PtrT(Com("q", 8, false, false), 2)
  const F := Syscall(0, "f", [OUTER_PTR], None)

  /** r = open(), and g(q ptr[in, record]) where record is { r r, d array[int8] }; the default of r
      is 0. */
  const NEW := ResourceT(Common("r", "ret", 4, DirOut, false, false), Native, 0)
  const R := ResourceT(Com("r", 4, false, false), Native, 0)
  const RECORD := StructT(Com("", 0, false, true), [R, BYTES], 0)
  const RECORD_PTR := PtrT(Com("q", 8, false, false), 3)
  const OPEN := Syscall(1, "open", [], Some(NEW))
  const G := Syscall(2, "g", [RECORD_PTR], None)

  /** h(q ptr[in, packet]) where packet is { a int32, b int64:10, d array[int8] }: the unit of b
      starts with a. */
  const A := IntT(Com("a", 4, false, false), PLAIN)
  const B := IntT(Com("b", 2, false, false), IntBits(Native, 32, 10, 8, 4))
  const PACKET := StructT(Com("", 0, false, true), [A, B, BYTES], 0)
  const PACKET_PTR := PtrT(Com("q", 8, false, false), 4)
  const H := Syscall(3, "h", [PACKET_PTR], None)

  const TARGET := Target(4096, 16, 0, [0], [F, OPEN, G, H], [LIST, BYTES, OUTER, RECORD, PACKET])

  // ----- the target -----

  lemma {:induction false} AllOk(ts: seq<Type>)
    requires forall i | 0 <= i < |ts| :: TypeOk(5, ts[i]) && Bound(ts[i]) == 0
    ensures TypesOk(5, ts) && BoundSeq(ts) == 0
  {
    if ts != [] { AllOk(ts[1..]); }
  }

  lemma {:induction false} TwoTypes(t: Type, u: Type)
    requires TypeOk(5, t) && TypeOk(5, u) && Bound(u) == 0
    ensures TypesOk(5, [t, u]) && BoundSeq([t, u]) == Bound(t)
  {
    var ts := [t, u];
    assert ts[1..] == [u];
    AllOk(ts[1..]);
    assert TypesOk(5, ts) <==> TypeOk(5, ts[0]) && TypesOk(5, ts[1..]);
    assert BoundSeq(ts) == Defaults.Max(Bound(ts[0]), BoundSeq(ts[1..]));
  }

  lemma {:induction false} UnionIsOk()
    ensures TypeOk(5, UNION) && Bound(UNION) == 0
  {
    AllOk(UNION.options);
    forall i | 0 <= i < 5
      ensures IsIdent(UNION.options[i].com.field)
    {
      assert i == 0 || i == 1 || i == 2 || i == 3 || i == 4;
    }
  }

  lemma {:induction false} TargetIsOk()
    ensures PointeesOk(TARGET) && ANY.Ok()
  {
    TwoTypes(P, PAD);
    TwoTypes(R, BYTES);
    AllOk([A, B, BYTES]);
    assert Bound(P) == 2 && Bound(OUTER) == 2 && TypeOk(5, OUTER);
    assert Bound(RECORD) == 0 && TypeOk(5, RECORD) && Bound(PACKET) == 0 && TypeOk(5, PACKET);
    UnionIsOk();
    forall i | 0 <= i < 5
      ensures TypeOk(5, TARGET.pointees[i]) && Bound(TARGET.pointees[i]) <= i && !IsPad(TARGET.pointees[i])
    {
      assert i == 0 || i == 1 || i == 2 || i == 3 || i == 4;
    }
  }

  /** A call with one argument. */
  lemma {:induction false} OneValid(a: Arg, t: Type, c: nat)
    requires ValidArg(TARGET, a, t) && LinksOk(a, c, 1)
    ensures ValidSeq(TARGET, [a], Fields([t])) && LinksOkSeq([a], c, 1) && RefsSeq([a]) == Refs(a)
  {
    assert [a][1..] == [] && [t][1..] == [] && RefsSeq([]) == {};
    assert Head(Fields([t])) == Some(t) && Tail(Fields([t])) == Fields([]);
    assert ValidSeq(TARGET, [], Fields([])) && LinksOkSeq([], c, 1 + NumResults(a));
  }

  // ----- a memory to run in -----

  function End(cs: seq<Copyin>): nat {
    if cs == [] then 0 else Defaults.Max(cs[0].addr + Width(cs[0].arg), End(cs[1..]))
  }

  lemma {:induction false} EndIsEnd(cs: seq<Copyin>, i: nat)
    requires i < |cs|
    ensures cs[i].addr + Width(cs[i].arg) <= End(cs)
  {
    if i > 0 { EndIsEnd(cs[1..], i - 1); }
  }

  function ZeroMemory(n: nat): (mem: Mem)
    ensures forall x: nat :: (x in mem <==> x < n) && Get(mem, x) == 0
  {
    if n == 0 then map[] else ZeroMemory(n - 1)[n - 1 := 0]
  }

  /** Zeros wherever the copyins go. */
  function Memory(s: Squashed): Mem {
    ZeroMemory(Defaults.Max(End(s.before), End(s.after)))
  }

  lemma {:induction false} MemoryIsMapped(s: Squashed)
    ensures Mapped(Memory(s), s.before) && Mapped(Memory(s), s.after)
  {
    forall i, x | 0 <= i < |s.before| && s.before[i].addr <= x < s.before[i].addr + Width(s.before[i].arg)
      ensures x in Memory(s)
    {
      EndIsEnd(s.before, i);
    }
    forall i, x | 0 <= i < |s.after| && s.after[i].addr <= x < s.after[i].addr + Width(s.after[i].arg)
      ensures x in Memory(s)
    {
      EndIsEnd(s.after, i);
    }
  }

  /** Squashing the argument changes what is in memory after the copyins. */
  ghost predicate Changes(env: Env, a: Arg)
    requires a.PointerArg? && a.res.Some?
  {
    exists s, mem :: IsSquashed(env, ANY, a, s) && Mapped(mem, s.before) && Mapped(mem, s.after)
      && Run(env.m, mem, s.before).Some? && Run(env.m, mem, s.before) != Run(env.m, mem, s.after)
  }

  /** One bit that ends up different is enough. */
  lemma {:induction false} OneBit(env: Env, a: Arg, z: nat)
    requires ANY.Ok() && IsSound(env, ANY, a) && a.PointerArg? && a.res.Some?
    requires OrZero(LastBit(Stores(env, a.res.value, PointeeBase(env.tgt, a), 0), z)) !=
             OrZero(CellBit(Means(env, ANY, a.res.value, PointeeBase(env.tgt, a), 0), z))
    ensures Changes(env, a)
  {
    var ws := Stores(env, a.res.value, PointeeBase(env.tgt, a), 0);
    var cells := Means(env, ANY, a.res.value, PointeeBase(env.tgt, a), 0);
    var s0 := SquashPuts(env, ANY, a);
    MemoryIsMapped(s0);
    var mem := Memory(s0);
    var s := SquashKeepsMemoryIff(env, ANY, a, mem);
    assert s == s0;
    BitOfZero(z % 8);
    assert After(mem, LastBit(ws, z), z) != After(mem, CellBit(cells, z), z);
  }

  lemma {:induction false} LastOfBytes(addr: nat, bytes: seq<Byte>, z: nat)
    ensures LastBit([ByteStore(addr, bytes)], z) == CellBit(At(addr, bytes), z)
    ensures CellBit(At(addr, bytes), z) ==
            if addr <= z / 8 < addr + |bytes| then Some(Bit(bytes[z / 8 - addr], z % 8)) else None
  {
    BytesAreBits(addr, bytes, z);
    LastInRange(addr, bytes, z / 8);
  }

  /** The memory of a struct of two fields. */
  lemma {:induction false} PairMemory(env: Env, t: Type, x: Arg, y: Arg)
    requires !IsBitfield(x.typ) && !IsBitfield(y.typ) && Size(GroupArg(t, [x, y])) == Size(x) + Size(y)
    ensures Stores(env, GroupArg(t, [x, y]), 0, 0) == Stores(env, x, 0, 0) + Stores(env, y, 0, Size(x))
    ensures Means(env, ANY, GroupArg(t, [x, y]), 0, 0) == Means(env, ANY, x, 0, 0) + Means(env, ANY, y, 0, Size(x))
  {
    var xs, n, m := [x, y], Size(x), Size(x) + Size(y);
    CopyoutLaws.TwoParts(x, y);
    assert xs[1..] == [y] && [y][1..] == [];
    PairOfStores(env, y, n);
    PairOfCells(env, y, n);
    assert StoresSeq(env, xs, 0, 0) == Stores(env, x, 0, 0) + StoresSeq(env, [y], 0, n);
    assert FieldsMean(env, ANY, xs, 0, 0, 0) == Means(env, ANY, x, 0, 0) + FieldsMean(env, ANY, [y], 0, n, 0);
    assert FieldsMean(env, ANY, xs, 0, 0, 0) + [] == FieldsMean(env, ANY, xs, 0, 0, 0);
  }

  lemma {:induction false} PairOfStores(env: Env, y: Arg, n: nat)
    ensures StoresSeq(env, [y], 0, n) == Stores(env, y, 0, n)
  {
    assert [y][1..] == [] && StoresSeq(env, [], 0, n + Size(y)) == [];
    assert Stores(env, y, 0, n) + [] == Stores(env, y, 0, n);
  }

  lemma {:induction false} PairOfCells(env: Env, y: Arg, n: nat)
    requires !IsBitfield(y.typ)
    ensures FieldsMean(env, ANY, [y], 0, n, 0) == Means(env, ANY, y, 0, n)
  {
    assert [y][1..] == [] && FieldsMean(env, ANY, [], 0, n + Size(y), 0) == [];
    assert Means(env, ANY, y, 0, n) + [] == Means(env, ANY, y, 0, n);
  }

  // ----- a pointer into padding -----

  /** The struct is at address 0, and its pointer leads to the byte 7 at address 8. */
  const BYTE_ARG := DataArg(BYTES, [7], 0)
  const P_ARG := PointerArg(P, 8, 0, Some(BYTE_ARG))
  const PAD_ARG := ConstArg(PAD, 0)
  const OUTER_ARG := GroupArg(OUTER, [P_ARG, PAD_ARG])
  const OUTER_REF := PointerArg(OUTER_PTR, 0, 0, Some(OUTER_ARG))
  const OVERLAP := [Call(F, [OUTER_REF], None)]
  const ENV := Env(TARGET, {}, Machine(map[], 0))

  lemma {:induction false} OuterParts()
    ensures Size(BYTE_ARG) == 1 && SizeSeq([P_ARG, PAD_ARG]) == 16 && [P_ARG, PAD_ARG][1..] == [PAD_ARG] &&
        [PAD_ARG][1..] == []
    ensures Refs(OUTER_REF) == {} && LinksOk(OUTER_REF, 0, 1)
  {
    CopyoutLaws.TwoParts(P_ARG, PAD_ARG);
    assert LinksOk(P_ARG, 0, 1) && LinksOk(PAD_ARG, 0, 1);
    CopyoutLaws.TwoLinks(P_ARG, PAD_ARG, 0, 1);
    assert [P_ARG, PAD_ARG][1..] == [PAD_ARG] && [PAD_ARG][1..] == [];
  }

  lemma {:induction false} OverlapIsValid()
    ensures ValidProg(TARGET, OVERLAP)
  {
    OuterParts();
    assert PointerOk(TARGET, P_ARG) && ValidArg(TARGET, BYTE_ARG, BYTES);
    CopyoutLaws.TwoValid(TARGET, P_ARG, PAD_ARG, P, PAD);
    assert ValidArg(TARGET, OUTER_ARG, OUTER) && PointerOk(TARGET, OUTER_REF);
    OneValid(OUTER_REF, OUTER_PTR, 0);
    assert OVERLAP[1..] == [] && RefsProg(OVERLAP) == RefsSeq(OVERLAP[0].args) + RefsProg(OVERLAP[1..]);
    assert ValidCall(TARGET, OVERLAP[0], 0);
  }

  lemma {:induction false} OuterIsSound()
    ensures IsSound(ENV, ANY, OUTER_REF)
  {
    OuterParts();
    var ok := SoundIn(ENV, ANY);
    assert ok(BYTE_ARG) && ok(P_ARG) && ok(PAD_ARG);
    assert Sound(ok, P_ARG) && Sound(ok, PAD_ARG);
    assert SoundFields(ok, []) && SoundFields(ok, [PAD_ARG]);
    assert SoundFields(ok, [P_ARG, PAD_ARG]);
    assert Sound(ok, OUTER_ARG) && ok(OUTER_REF);
  }

  lemma {:induction false} PStores()
    ensures Stores(ENV, P_ARG, 0, 0) == LeafStores(ENV, P_ARG, 0, 0) + [ByteStore(8, [7])]
  {
    assert PointeeBase(TARGET, P_ARG) == 8 && LeafBytes(ENV, BYTE_ARG) == [7];
    assert Stores(ENV, BYTE_ARG, 8, 0) == [ByteStore(8, [7])];
  }

  lemma {:induction false} OuterStores()
    ensures Stores(ENV, OUTER_ARG, 0, 0) == LeafStores(ENV, P_ARG, 0, 0) + [ByteStore(8, [7])]
  {
    OuterParts();
    PairMemory(ENV, OUTER, P_ARG, PAD_ARG);
    PStores();
    assert Stores(ENV, PAD_ARG, 0, 8) == [];
    assert Stores(ENV, P_ARG, 0, 0) + [] == Stores(ENV, P_ARG, 0, 0);
  }

  lemma {:induction false} OuterMeans()
    ensures Means(ENV, ANY, OUTER_ARG, 0, 0) == Means(ENV, ANY, P_ARG, 0, 0) + At(8, Zeros(8))
  {
    OuterParts();
    PairMemory(ENV, OUTER, P_ARG, PAD_ARG);
    assert Means(ENV, ANY, PAD_ARG, 0, 8) == At(8, Zeros(8));
  }

  lemma {:induction false} Hidden(ws: seq<Store>, cells: seq<Cell>)
    ensures OrZero(LastBit(ws + [ByteStore(8, [7])], 64)) && !OrZero(CellBit(cells + At(8, Zeros(8)), 64))
  {
    LastJoin(ws, [ByteStore(8, [7])], 64);
    LastOfBytes(8, [7], 64);
    LastCellJoin(cells, At(8, Zeros(8)), 8);
    LastOfBytes(8, Zeros(8), 64);
  }

  lemma {:induction false} OuterBit()
    ensures OrZero(LastBit(Stores(ENV, OUTER_ARG, 0, 0), 64)) && !OrZero(CellBit(Means(ENV, ANY, OUTER_ARG, 0, 0), 64))
  {
    OuterStores();
    OuterMeans();
    Hidden(LeafStores(ENV, P_ARG, 0, 0), Means(ENV, ANY, P_ARG, 0, 0));
  }

  lemma {:induction false} OuterChanges()
    requires ANY.Ok()
    ensures IsSound(ENV, ANY, OUTER_REF) && Changes(ENV, OUTER_REF)
  {
    OuterIsSound();
    OuterBit();
    assert PointeeBase(ENV.tgt, OUTER_REF) == 0;
    OneBit(ENV, OUTER_REF, 64);
  }

  /** The padding has no copyin, but the squashed tree writes it: the byte at address 8 is lost. */
  lemma {:induction false} OverlapMatters()
    ensures PointeesOk(TARGET) && ValidProg(TARGET, OVERLAP) && OVERLAP[0].args == [OUTER_REF]
    ensures ANY.Ok() && IsSound(ENV, ANY, OUTER_REF) && Changes(ENV, OUTER_REF)
  {
    TargetIsOk();
    OverlapIsValid();
    OuterChanges();
  }

  // ----- a result that was not produced -----

  /** The record refers to the result of open, which failed. */
  const R_ARG := ResultArg(R, Some(Loc(0, 0)), 0, 0, 0)
  const NO_DATA := DataArg(BYTES, [], 0)
  const RECORD_ARG := GroupArg(RECORD, [R_ARG, NO_DATA])
  const RECORD_REF := PointerArg(RECORD_PTR, 0, 0, Some(RECORD_ARG))
  const UNPRODUCED := [Call(OPEN, [], Some(ReturnArg(NEW))), Call(G, [RECORD_REF], None)]
  const FAILED := Env(TARGET, {Loc(0, 0)}, Machine(map[], 0))

  lemma {:induction false} RecordParts()
    ensures SizeSeq([R_ARG, NO_DATA]) == 4 && [R_ARG, NO_DATA][1..] == [NO_DATA] && [NO_DATA][1..] == []
    ensures Refs(RECORD_REF) == {Loc(0, 0)} && LinksOk(RECORD_REF, 1, 1)
  {
    CopyoutLaws.TwoParts(R_ARG, NO_DATA);
    assert LinksOk(R_ARG, 1, 1) && LinksOk(NO_DATA, 1, 2);
    CopyoutLaws.TwoLinks(R_ARG, NO_DATA, 1, 1);
    assert [R_ARG, NO_DATA][1..] == [NO_DATA] && [NO_DATA][1..] == [];
  }

  lemma {:induction false} UnproducedIsValid()
    ensures ValidProg(TARGET, UNPRODUCED) && RefsProg(UNPRODUCED) == {Loc(0, 0)}
  {
    RecordParts();
    CopyoutLaws.TwoValid(TARGET, R_ARG, NO_DATA, R, BYTES);
    assert ValidArg(TARGET, RECORD_ARG, RECORD) && PointerOk(TARGET, RECORD_REF);
    OneValid(RECORD_REF, RECORD_PTR, 1);
    var more := UNPRODUCED[1..];
    assert more[1..] == [] && RefsProg(more) == RefsSeq(more[0].args) + RefsProg(more[1..]);
    assert RefsProg(UNPRODUCED) == RefsSeq(UNPRODUCED[0].args) + RefsProg(more) && RefsSeq([]) == {};
    assert ValidSeq(TARGET, [], Fields([])) && LinksOkSeq([], 0, 1);
    assert ValidCall(TARGET, UNPRODUCED[0], 0) && ValidCall(TARGET, UNPRODUCED[1], 1);
  }

  lemma {:induction false} RecordIsSound()
    ensures IsSound(FAILED, ANY, RECORD_REF)
  {
    RecordParts();
    var ok := SoundIn(FAILED, ANY);
    assert ok(R_ARG) && ok(NO_DATA) && Sound(ok, R_ARG) && Sound(ok, NO_DATA);
    assert SoundFields(ok, []) && SoundFields(ok, [NO_DATA]) && SoundFields(ok, [R_ARG, NO_DATA]);
    assert Sound(ok, RECORD_ARG) && ok(RECORD_REF);
  }

  lemma {:induction false} RecordStores()
    ensures Stores(FAILED, RECORD_ARG, 0, 0) == [ByteStore(0, LeBytes(0, 4))]
  {
    var w := [ByteStore(0, LeBytes(0, 4))];
    RecordParts();
    PairMemory(FAILED, RECORD, R_ARG, NO_DATA);
    assert LeafBytes(FAILED, R_ARG) == LeBytes(0, 4);
    assert Stores(FAILED, R_ARG, 0, 0) == w && Stores(FAILED, NO_DATA, 0, 4) == [] && w + [] == w;
  }

  lemma {:induction false} RecordMeans()
    ensures Means(FAILED, ANY, RECORD_ARG, 0, 0) == At(0, LeBytes(TWO64 - 1, 4))
  {
    var cells := At(0, LeBytes(TWO64 - 1, 4));
    RecordParts();
    PairMemory(FAILED, RECORD, R_ARG, NO_DATA);
    assert NewBytes(FAILED, ANY, R_ARG) == LeBytes(TWO64 - 1, 4);
    assert Means(FAILED, ANY, NO_DATA, 0, 4) == [] && cells + [] == cells;
  }

  lemma {:induction false} Defaults32()
    ensures !OrZero(LastBit([ByteStore(0, LeBytes(0, 4))], 0)) && OrZero(CellBit(At(0, LeBytes(TWO64 - 1, 4)), 0))
  {
    LastOfBytes(0, LeBytes(0, 4), 0);
    LastOfBytes(0, LeBytes(TWO64 - 1, 4), 0);
    assert LeBytes(0, 4)[0] == 0 && LeBytes(TWO64 - 1, 4)[0] == 255;
  }

  lemma {:induction false} RecordBit()
    ensures !OrZero(LastBit(Stores(FAILED, RECORD_ARG, 0, 0), 0)) &&
        OrZero(CellBit(Means(FAILED, ANY, RECORD_ARG, 0, 0), 0))
  {
    RecordStores();
    RecordMeans();
    Defaults32();
  }

  lemma {:induction false} RecordChanges()
    requires ANY.Ok()
    ensures IsSound(FAILED, ANY, RECORD_REF) && Changes(FAILED, RECORD_REF)
  {
    RecordIsSound();
    RecordBit();
    assert PointeeBase(FAILED.tgt, RECORD_REF) == 0;
    OneBit(FAILED, RECORD_REF, 0);
  }

  /** The word in memory is 0, the default of r, before squashing, and all ones after it. */
  lemma {:induction false} UnproducedMatters()
    ensures PointeesOk(TARGET) && ValidProg(TARGET, UNPRODUCED) && UNPRODUCED[1].args == [RECORD_REF]
    ensures FAILED.used == RefsProg(UNPRODUCED) && Rank(FAILED.used, Loc(0, 0)) !in FAILED.m.results
    ensures ANY.Ok() && IsSound(FAILED, ANY, RECORD_REF) && Changes(FAILED, RECORD_REF)
  {
    TargetIsOk();
    UnproducedIsValid();
    RecordChanges();
  }

  // ----- a unit that starts before the storage -----

  const A_ARG := ConstArg(A, 0)
  const B_ARG := ConstArg(B, 1)
  const PACKET_ARG := GroupArg(PACKET, [A_ARG, B_ARG, NO_DATA])
  const PACKET_REF := PointerArg(PACKET_PTR, 0, 0, Some(PACKET_ARG))
  const MISPLACED := [Call(H, [PACKET_REF], None)]

  lemma {:induction false} PacketParts()
    ensures var xs := [A_ARG, B_ARG, NO_DATA];
      && xs[1..] == [B_ARG, NO_DATA] && [B_ARG, NO_DATA][1..] == [NO_DATA] && [NO_DATA][1..] == []
      && SizeSeq(xs) == 6 && SizeSeq(xs[1..]) == 2
      && Refs(PACKET_REF) == {} && LinksOk(PACKET_REF, 0, 1)
  {
    var xs := [A_ARG, B_ARG, NO_DATA];
    assert xs[1..] == [B_ARG, NO_DATA] && [B_ARG, NO_DATA][1..] == [NO_DATA] && [NO_DATA][1..] == [];
    CopyoutLaws.TwoParts(B_ARG, NO_DATA);
    assert LinksOk(B_ARG, 0, 1) && LinksOk(NO_DATA, 0, 1) && LinksOk(A_ARG, 0, 1);
    CopyoutLaws.TwoLinks(B_ARG, NO_DATA, 0, 1);
    assert LinksOkSeq(xs, 0, 1) && RefsSeq(xs) == {};
    assert Size(A_ARG) == 4 && SizeSeq(xs[1..]) == 2;
  }

  lemma {:induction false} MisplacedIsValid()
    ensures ValidProg(TARGET, MISPLACED)
  {
    PacketParts();
    var xs, ts := [A_ARG, B_ARG, NO_DATA], [A, B, BYTES];
    assert ts[1..] == [B, BYTES];
    CopyoutLaws.TwoValid(TARGET, B_ARG, NO_DATA, B, BYTES);
    assert Head(Fields(ts)) == Some(A) && Tail(Fields(ts)) == Fields(ts[1..]);
    assert ValidSeq(TARGET, xs, Fields(ts));
    assert ValidArg(TARGET, PACKET_ARG, PACKET) && PointerOk(TARGET, PACKET_REF);
    OneValid(PACKET_REF, PACKET_PTR, 0);
    assert MISPLACED[1..] == [] && RefsProg(MISPLACED) == RefsSeq(MISPLACED[0].args) + RefsProg(MISPLACED[1..]);
    assert ValidCall(TARGET, MISPLACED[0], 0);
  }

  lemma {:induction false} PacketIsSound()
    ensures IsSound(ENV, ANY, PACKET_REF)
  {
    PacketParts();
    var ok := SoundIn(ENV, ANY);
    assert ok(A_ARG) && ok(NO_DATA) && Sound(ok, A_ARG) && Sound(ok, NO_DATA) && SoundBits(B_ARG);
    assert SoundFields(ok, []) && SoundFields(ok, [NO_DATA]) && SoundFields(ok, [B_ARG, NO_DATA]);
    assert SoundFields(ok, [A_ARG, B_ARG, NO_DATA]);
    assert Sound(ok, PACKET_ARG) && ok(PACKET_REF);
  }

  lemma {:induction false} FieldStores()
    ensures StoresSeq(ENV, [B_ARG, NO_DATA], 0, 4) == [Store(32, 10, 1)]
  {
    PacketParts();
    var b := Store(32, 10, 1);
    NoStride(1, 0);
    assert AddrAt(0, 4, B) == 0 && Stores(ENV, B_ARG, 0, 4) == [b];
    PairOfStores(ENV, NO_DATA, 6);
    assert Stores(ENV, NO_DATA, 0, 6) == [] && [b] + [] == [b];
  }

  lemma {:induction false} PacketStores()
    ensures Stores(ENV, PACKET_ARG, 0, 0) == [ByteStore(0, LeBytes(0, 4)), Store(32, 10, 1)]
  {
    PacketParts();
    var a, b := ByteStore(0, LeBytes(0, 4)), Store(32, 10, 1);
    NoStride(0, 0);
    assert LeafBytes(ENV, A_ARG) == LeBytes(0, 4) && Stores(ENV, A_ARG, 0, 0) == [a];
    FieldStores();
    assert [a] + [b] == [a, b];
  }

  lemma {:induction false} FieldMeans()
    ensures FieldsMean(ENV, ANY, [B_ARG, NO_DATA], 0, 4, 0) == At(4, LeBytes(AddBits(0, B, 1), 2))
  {
    PacketParts();
    var b := At(4, LeBytes(AddBits(0, B, 1), 2));
    PairOfCells(ENV, NO_DATA, 6);
    assert Means(ENV, ANY, NO_DATA, 0, 6) == [] && b + [] == b;
  }

  lemma {:induction false} PacketMeans()
    ensures Means(ENV, ANY, PACKET_ARG, 0, 0) == At(0, LeBytes(0, 4)) + At(4, LeBytes(AddBits(0, B, 1), 2))
  {
    PacketParts();
    var a, b := At(0, LeBytes(0, 4)), At(4, LeBytes(AddBits(0, B, 1), 2));
    FieldMeans();
    assert Means(ENV, ANY, A_ARG, 0, 0) == a;
    assert FieldsMean(ENV, ANY, [A_ARG, B_ARG, NO_DATA], 0, 0, 0) == a + b;
    assert (a + b) + [] == a + b;
  }

  lemma {:induction false} PacketBit()
    ensures OrZero(LastBit(Stores(ENV, PACKET_ARG, 0, 0), 32)) &&
        !OrZero(CellBit(Means(ENV, ANY, PACKET_ARG, 0, 0), 32))
  {
    var a, b, acc := ByteStore(0, LeBytes(0, 4)), Store(32, 10, 1), AddBits(0, B, 1);
    PacketStores();
    PacketMeans();
    assert [a] + [b] == [a, b];
    LastJoin([a], [b], 32);
    LastOfOne(b, 32);
    LastCellJoin(At(0, LeBytes(0, 4)), At(4, LeBytes(acc, 2)), 4);
    LastOfBytes(4, LeBytes(acc, 2), 32);
    BitOfBytes(acc, 2, 0, 0);
    AddBitsBit(0, B, 1, 0);
  }

  lemma {:induction false} PacketChanges()
    requires ANY.Ok()
    ensures IsSound(ENV, ANY, PACKET_REF) && Changes(ENV, PACKET_REF)
  {
    PacketIsSound();
    PacketBit();
    assert PointeeBase(ENV.tgt, PACKET_REF) == 0;
    OneBit(ENV, PACKET_REF, 32);
  }

  /** The executor stores the bitfield from bit 32 of its unit on, which is where its storage
      starts; squashing shifts it by as much again, out of the two bytes of the storage. */
  lemma {:induction false} UnitOffsetMatters()
    ensures PointeesOk(TARGET) && ValidProg(TARGET, MISPLACED) && MISPLACED[0].args == [PACKET_REF]
    ensures ANY.Ok() && IsSound(ENV, ANY, PACKET_REF) && Changes(ENV, PACKET_REF)
  {
    TargetIsOk();
    MisplacedIsValid();
    PacketChanges();
  }
}
