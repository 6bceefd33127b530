/**
  The executor's memory before and after squashing, exactly.

  The copyins of a tree store the bytes of its leaves and the bits of its bitfields, and leave
  the rest alone; those of the squashed tree store every byte of the objects.  So the memories
  are the same if and only if every bit ends up the same.
 */
module SquashMemory {
  import opened Ir
  import opened ExecFormat
  import opened ExecCompile
  import opened ExecMemory
  import opened Arith
  import opened Bits
  import opened Squash
  import opened SquashKeeps

  // ----- running copyins -----

  /** How many bytes a copyin touches. */
  function Width(x: ExecArg): nat {
    match x
    case ExecConst(size, _, _, _, _, _) => size
    case ExecResult(size, _, _, _, _, _) => size
    case ExecData(data, _) => |data|
    case ExecCsum(size, _) => size
  }

  /** The memory that the copyins touch is mapped. */
  ghost predicate Mapped(mem: Mem, cs: seq<Copyin>) {
    forall i, x :: 0 <= i < |cs| && cs[i].addr <= x < cs[i].addr + Width(cs[i].arg) ==> x in mem
  }

  /** Over any memory the copyins make these stores. */
  ghost predicate Puts(m: Machine, cs: Option<seq<Copyin>>, ws: seq<Store>) {
    cs.Some? && forall mem | Mapped(mem, cs.value) :: RunSets(m, mem, cs.value, ws)
  }

  ghost predicate RunSets(m: Machine, mem: Mem, cs: seq<Copyin>, ws: seq<Store>) {
    Run(m, mem, cs).Some? && Sets(mem, Run(m, mem, cs).value, ws)
  }

  lemma {:induction false} MappedParts(mem: Mem, a: seq<Copyin>, b: seq<Copyin>)
    requires Mapped(mem, a + b)
    ensures Mapped(mem, a) && Mapped(mem, b)
  {
    assert forall i :: 0 <= i < |a| ==> (a + b)[i] == a[i];
    forall i, x | 0 <= i < |b| && b[i].addr <= x < b[i].addr + Width(b[i].arg) ensures x in mem {
      assert (a + b)[|a| + i] == b[i];
    }
  }

  lemma {:induction false} PutsJoin(m: Machine, a: Option<seq<Copyin>>, b: Option<seq<Copyin>>, wa: seq<Store>,
      wb: seq<Store>)
    requires Puts(m, a, wa) && Puts(m, b, wb)
    ensures Puts(m, Join(a, b), wa + wb)
  {
    forall mem | Mapped(mem, a.value + b.value) ensures RunSets(m, mem, a.value + b.value, wa + wb) {
      MappedParts(mem, a.value, b.value);
      assert RunSets(m, mem, a.value, wa);
      var mem1 := Run(m, mem, a.value).value;
      assert Mapped(mem1, b.value);
      assert RunSets(m, mem1, b.value, wb);
      RunJoin(m, mem, a.value, b.value);
      SetsJoin(mem, mem1, Run(m, mem1, b.value).value, wa, wb);
    }
  }

  lemma {:induction false} PutsNothing(m: Machine)
    ensures Puts(m, Some([]), [])
  {
  }

  /** A join with nothing. */
  lemma {:induction false} PutsAlone(m: Machine, cs: Option<seq<Copyin>>, ws: seq<Store>)
    requires Puts(m, cs, ws)
    ensures Puts(m, Join(cs, Some([])), ws)
  {
    assert cs.value + [] == cs.value;
  }

  lemma {:induction false} NothingJoined(cs: Option<seq<Copyin>>)
    ensures Join(Some([]), cs) == cs
  {
    if cs.Some? { assert [] + cs.value == cs.value; }
  }

  lemma {:induction false} RunOne(m: Machine, mem: Mem, c: Copyin)
    requires RunCopyin(m, mem, c).Some?
    ensures Run(m, mem, [c]) == RunCopyin(m, mem, c)
  {
    assert [c][1..] == [];
  }

  /** A copyin of bytes. */
  lemma {:induction false} BytesPut(m: Machine, c: Copyin, bytes: seq<Byte>)
    requires Width(c.arg) == |bytes|
    requires forall mem: Mem :: RunCopyin(m, mem, c) == Some(Apply(mem, At(c.addr, bytes)))
    ensures Puts(m, Some([c]), [ByteStore(c.addr, bytes)])
  {
    forall mem | Mapped(mem, [c]) ensures RunSets(m, mem, [c], [ByteStore(c.addr, bytes)]) {
      RunOne(m, mem, c);
      assert [c][0] == c;
      BytesSet(mem, c.addr, bytes);
    }
  }

  /** A copyin of a bitfield. */
  lemma {:induction false} FieldPuts(m: Machine, addr: U64, v: U64, stride: U64, unit: U64, off: U64, len: U64)
    requires IsIntSize(unit) && len > 0 && off + len <= 8 * unit
    ensures Puts(m, Some([Copyin(addr, ExecConst(unit, 0, v, off, len, stride))]),
                 [Store(8 * addr + off, len, (v + stride * m.procid) % TWO64)])
  {
    var c, v1: U64 := Copyin(addr, ExecConst(unit, 0, v, off, len, stride)), (v + stride * m.procid) % TWO64;
    forall mem | Mapped(mem, [c]) ensures RunSets(m, mem, [c], [Store(8 * addr + off, len, v1)]) {
      assert [c][0] == c;
      FieldSets(mem, addr, v1, unit, off, len);
      assert RunCopyin(m, mem, c) == StoreInt(mem, addr, v1, unit, 0, off, len);
      RunOne(m, mem, c);
    }
  }

  // ----- what a tree stores -----

  function LeafStores(env: Env, a: Arg, base: U64, off: nat): seq<Store> {
    if NoCopyin(a) then []
    else if IsBitfield(a.typ)
        then [Store(8 * AddrAt(base, off, a.typ) + a.typ.bits.off, a.typ.bits.len, FieldValue(env, a))]
    else [ByteStore(base + off, LeafBytes(env, a))]
  }

  function FieldValue(env: Env, a: Arg): U64 {
    if a.ConstArg? && ConstValue(a).Some? then OldValue(env, a) else 0
  }

  function Stores(env: Env, a: Arg, base: U64, off: nat): seq<Store>
    decreases a, 1
  {
    match a
    case PointerArg(_, _, _, res) =>
      LeafStores(env, a, base, off) + if res.Some? then Stores(env, res.value, PointeeBase(env.tgt, a), 0) else []
    case UnionArg(_, option) => Stores(env, option, base, off)
    case GroupArg(_, inner) => StoresSeq(env, inner, base, off)
    case _ => LeafStores(env, a, base, off)
  }

  function StoresSeq(env: Env, args: seq<Arg>, base: U64, off: nat): seq<Store>
    decreases args, 0
  {
    if args == [] then []
    else Stores(env, args[0], base, off) + StoresSeq(env, args[1..], base, off + Size(args[0]))
  }

  lemma {:induction false} AddrIs(base: U64, off: nat, t: Type)
    requires base + off < TWO64 && UnitOffset(t) == 0
    ensures AddrAt(base, off, t) == base + off
  {
  }

  /** A leaf that is copied in: the executor stores its bytes. */
  lemma {:induction false} LeafStored(env: Env, any: AnyTypes, a: Arg, addr: U64)
    requires SoundLeaf(env, any, a) && !NoCopyin(a) && !IsBitfield(a.typ)
    ensures UnitOffset(a.typ) == 0 && |LeafBytes(env, a)| == Size(a) > 0
    ensures var x := WriteArg(env.tgt, StaticInfos(env.used), a);
      && x.Some? && Width(x.value) == Size(a)
      && forall mem: Mem :: RunCopyin(env.m, mem, Copyin(addr, x.value)) ==
           Some(Apply(mem, At(addr, LeafBytes(env, a))))
  {
    match a
    case ConstArg(_, _) => ConstStored(env, any, a, addr);
    case ResultArg(_, _, _, _, _) => ResultStored(env, any, a, addr);
    case PointerArg(_, _, _, _) =>
    case DataArg(_, _, _) =>
    case _ =>
  }

  lemma {:induction false} ConstStored(env: Env, any: AnyTypes, a: Arg, addr: U64)
    requires SoundLeaf(env, any, a) && !NoCopyin(a) && !IsBitfield(a.typ) && a.ConstArg?
    ensures UnitOffset(a.typ) == 0 && |LeafBytes(env, a)| == Size(a) > 0
    ensures var x := WriteArg(env.tgt, StaticInfos(env.used), a);
      && x.Some? && Width(x.value) == Size(a)
      && forall mem: Mem :: RunCopyin(env.m, mem, Copyin(addr, x.value)) ==
           Some(Apply(mem, At(addr, LeafBytes(env, a))))
  {
  }

  lemma {:induction false} ResultStored(env: Env, any: AnyTypes, a: Arg, addr: U64)
    requires SoundLeaf(env, any, a) && !NoCopyin(a) && !IsBitfield(a.typ) && a.ResultArg?
    ensures UnitOffset(a.typ) == 0 && |LeafBytes(env, a)| == Size(a) > 0
    ensures var x := WriteArg(env.tgt, StaticInfos(env.used), a);
      && x.Some? && Width(x.value) == Size(a)
      && forall mem: Mem :: RunCopyin(env.m, mem, Copyin(addr, x.value)) ==
           Some(Apply(mem, At(addr, LeafBytes(env, a))))
  {
  }

  lemma {:induction false} LeafPuts(env: Env, any: AnyTypes, a: Arg, base: U64, off: nat)
    requires SoundLeaf(env, any, a) && !a.GroupArg? && !a.UnionArg? && !IsBitfield(a.typ)
    requires base + off + Size(a) <= TWO64
    ensures Puts(env.m, OwnCopyin(env.tgt, StaticInfos(env.used), a, Some(base), off), LeafStores(env, a, base, off))
  {
    if NoCopyin(a) {
      PutsNothing(env.m);
    } else {
      LeafStored(env, any, a, (base + off) % TWO64);
      AddrIs(base, off, a.typ);
      BytesPut(env.m, Copyin(base + off, WriteArg(env.tgt, StaticInfos(env.used), a).value), LeafBytes(env, a));
    }
  }

  lemma {:induction false} BitsPut(env: Env, a: Arg, base: U64, off: nat)
    requires IsBitfield(a.typ) && SoundBits(a)
    ensures Puts(env.m, StaticCopyins(env.tgt, StaticInfos(env.used), a, Some(base), off), Stores(env, a, base, off))
  {
    var own := OwnCopyin(env.tgt, StaticInfos(env.used), a, Some(base), off);
    if NoCopyin(a) {
      PutsNothing(env.m);
    } else {
      var bits, v := a.typ.bits, ConstValue(a).value;
      FieldPuts(env.m, AddrAt(base, off, a.typ), v.0, v.1, bits.unit, bits.off, bits.len);
      assert own == Some([Copyin(AddrAt(base, off, a.typ), ExecConst(bits.unit, 0, v.0, bits.off, bits.len, v.1))]);
    }
    PutsAlone(env.m, own, LeafStores(env, a, base, off));
  }

  lemma {:induction false} SoundNotBits(env: Env, any: AnyTypes, a: Arg)
    requires IsSound(env, any, a)
    ensures SoundLeaf(env, any, a) && (!a.GroupArg? && !a.UnionArg? ==> !IsBitfield(a.typ))
  {
  }

  /** The copyins of a tree, over any memory. */
  lemma {:induction false} TreePuts(env: Env, any: AnyTypes, a: Arg, base: U64, off: nat)
    requires IsSound(env, any, a) && base + off + Size(a) <= TWO64
    ensures Puts(env.m, StaticCopyins(env.tgt, StaticInfos(env.used), a, Some(base), off), Stores(env, a, base, off))
    decreases a, 1
  {
    var own := OwnCopyin(env.tgt, StaticInfos(env.used), a, Some(base), off);
    SoundNotBits(env, any, a);
    match a
    case PointerArg(_, _, _, res) =>
      LeafPuts(env, any, a, base, off);
      if res.Some? {
        var obj := PointeeBase(env.tgt, a);
        TreePuts(env, any, res.value, obj, 0);
        PutsJoin(env.m, own, StaticCopyins(env.tgt, StaticInfos(env.used), res.value, Some(obj), 0),
                 LeafStores(env, a, base, off), Stores(env, res.value, obj, 0));
      } else {
        PutsAlone(env.m, own, LeafStores(env, a, base, off));
        assert LeafStores(env, a, base, off) + [] == LeafStores(env, a, base, off);
      }
    case UnionArg(_, option) =>
      TreePuts(env, any, option, base, off);
      NothingJoined(StaticCopyins(env.tgt, StaticInfos(env.used), option, Some(base), off));
    case GroupArg(t, inner) =>
      GroupSize(t, inner);
      FieldsPut(env, any, inner, base, off);
      NothingJoined(StaticCopyinsSeq(env.tgt, StaticInfos(env.used), inner, Some(base), off));
    case _ =>
      LeafPuts(env, any, a, base, off);
      PutsAlone(env.m, own, LeafStores(env, a, base, off));
  }

  lemma {:induction false} FieldsPut(env: Env, any: AnyTypes, args: seq<Arg>, base: U64, off: nat)
    requires SoundFields(SoundIn(env, any), args) && base + off + SizeSeq(args) <= TWO64
    ensures Puts(env.m, StaticCopyinsSeq(env.tgt, StaticInfos(env.used), args, Some(base), off),
        StoresSeq(env, args, base, off))
    decreases args, 0
  {
    if args == [] {
      PutsNothing(env.m);
    } else {
      if IsBitfield(args[0].typ) {
        BitsPut(env, args[0], base, off);
      } else {
        TreePuts(env, any, args[0], base, off);
      }
      FieldsPut(env, any, args[1..], base, off + Size(args[0]));
      PutsJoin(env.m, StaticCopyins(env.tgt, StaticInfos(env.used), args[0], Some(base), off),
               StaticCopyinsSeq(env.tgt, StaticInfos(env.used), args[1..], Some(base), off + Size(args[0])),
               Stores(env, args[0], base, off), StoresSeq(env, args[1..], base, off + Size(args[0])));
    }
  }

  // ----- a squashed tree stores everything it means -----

  /** Elements of a squashed list, at every depth. */
  predicate Copies(any: AnyTypes, e: Arg)
    decreases e, 1
  {
    e.UnionArg? && e.typ == any.union &&
    match e.option
    case DataArg(t, _, outSize) => t == any.blob && outSize == 0
    case ResultArg(t, _, _, _, _) => t in {any.res16, any.res32, any.res64}
    case PointerArg(t, _, _, res) =>
      t.PtrT? && t.com.dir == DirIn && res.Some? && res.value.GroupArg? && res.value.typ == any.list &&
          AllCopy(any, res.value.inner)
    case _ => false
  }

  predicate AllCopy(any: AnyTypes, elems: seq<Arg>)
    decreases elems, 0
  {
    elems != [] ==> Copies(any, elems[0]) && AllCopy(any, elems[1..])
  }

  lemma {:induction false} AllCopyAt(any: AnyTypes, xs: seq<Arg>)
    ensures AllCopy(any, xs) <==> forall i | 0 <= i < |xs| :: Copies(any, xs[i])
  {
    if xs != [] {
      AllCopyAt(any, xs[1..]);
      assert forall i | 0 <= i < |xs| - 1 :: xs[1..][i] == xs[i + 1];
    }
  }

  lemma {:induction false} CopySnoc(any: AnyTypes, e: seq<Arg>, y: Arg)
    requires AllCopy(any, e) && Copies(any, y)
    ensures AllCopy(any, e + [y])
  {
    AllCopyAt(any, e);
    AllCopyAt(any, e + [y]);
  }

  lemma {:induction false} DataCopies(any: AnyTypes, e: seq<Arg>, data: seq<Byte>)
    requires AllCopy(any, e)
    ensures AllCopy(any, AddData(any, e, data))
  {
    AllCopyAt(any, e);
    AllCopyAt(any, AddData(any, e, data));
  }

  lemma {:induction false} PadCopies(any: AnyTypes, r: Option<seq<Arg>>, pad: int)
    requires r.Some? ==> AllCopy(any, r.value)
    ensures AddPad(any, r, pad).Some? ==> AllCopy(any, AddPad(any, r, pad).value)
  {
    if r.Some? && pad > 0 { DataCopies(any, r.value, Zeros(pad)); }
  }

  lemma {:induction false} ImplCopies(tgt: Target, any: AnyTypes, a: Arg, e: seq<Arg>)
    requires AllCopy(any, e)
    ensures var r := SquashImpl(tgt, any, a, e); r.Some? ==> AllCopy(any, r.value)
    decreases a, 1
  {
    if SquashImpl(tgt, any, a, e).Some? {
      match a
      case ConstArg(_, _) =>
        DataCopies(any, e, if IsPad(a.typ) then Zeros(Size(a)) else LeBytes(SquashedValue(a).value, Size(a)));
      case ResultArg(_, ref, opDiv, opAdd, val) => CopySnoc(any, e, SquashResult(any, a, e).value[|e|]);
      case PointerArg(_, _, _, res) =>
        if res.Some? {
          PtrCopies(tgt, any, a);
          CopySnoc(any, e, UnionArg(any.union, SquashPtr(tgt, any, a).value));
        } else {
          DataCopies(any, e, LeBytes(PhysicalAddr(tgt, a).value, Size(a)));
        }
      case UnionArg(t, option) =>
        ImplCopies(tgt, any, option, e);
        PadCopies(any, SquashImpl(tgt, any, option, e), if t.com.varlen then 0 else t.com.size - Size(option));
      case DataArg(_, data, _) =>
        DataCopies(any, e, data);
        PadCopies(any, Some(e), Size(a));
      case GroupArg(t, inner) =>
        FieldsCopy(tgt, any, inner, 0, e);
        PadCopies(any, SquashFields(tgt, any, inner, 0, e), GroupPad(t, inner));
    }
  }

  lemma {:induction false} FieldsCopy(tgt: Target, any: AnyTypes, args: seq<Arg>, acc: nat, e: seq<Arg>)
    requires AllCopy(any, e)
    ensures var r := SquashFields(tgt, any, args, acc, e); r.Some? ==> AllCopy(any, r.value)
    decreases args, 0
  {
    if SquashFields(tgt, any, args, acc, e).Some? && args != [] {
      if IsBitfield(args[0].typ) {
        var acc1 := AddBits(acc, args[0].typ, SquashedValue(args[0]).value);
        if Size(args[0]) == 0 {
          FieldsCopy(tgt, any, args[1..], acc1, e);
        } else {
          DataCopies(any, e, LeBytes(acc1, Size(args[0])));
          FieldsCopy(tgt, any, args[1..], 0, AddData(any, e, LeBytes(acc1, Size(args[0]))));
        }
      } else {
        ImplCopies(tgt, any, args[0], e);
        FieldsCopy(tgt, any, args[1..], acc, SquashImpl(tgt, any, args[0], e).value);
      }
    }
  }

  lemma {:induction false} PtrCopies(tgt: Target, any: AnyTypes, a: Arg)
    requires a.PointerArg? && SquashPtr(tgt, any, a).Some?
    ensures Copies(any, UnionArg(any.union, SquashPtr(tgt, any, a).value))
    decreases a, 0
  {
    ImplCopies(tgt, any, a.res.value, []);
  }

  /** The stores are the bits of the cells. */
  ghost predicate Same(ws: seq<Store>, cells: seq<Cell>) {
    forall z: nat :: LastBit(ws, z) == CellBit(cells, z)
  }

  lemma {:induction false} SameJoin(wa: seq<Store>, wb: seq<Store>, ca: seq<Cell>, cb: seq<Cell>)
    requires Same(wa, ca) && Same(wb, cb)
    ensures Same(wa + wb, ca + cb)
  {
    forall z: nat ensures LastBit(wa + wb, z) == CellBit(ca + cb, z) {
      LastJoin(wa, wb, z);
      LastCellJoin(ca, cb, z / 8);
      assert LastBit(wa, z) == CellBit(ca, z) && LastBit(wb, z) == CellBit(cb, z);
    }
  }

  lemma {:induction false} SameBytes(addr: nat, bytes: seq<Byte>)
    ensures Same([ByteStore(addr, bytes)], At(addr, bytes)) && (bytes == [] ==> Same([], At(addr, bytes)))
  {
    forall z: nat
      ensures LastBit([ByteStore(addr, bytes)], z) == CellBit(At(addr, bytes), z)
    {
      BytesAreBits(addr, bytes, z);
    }
  }

  /** A leaf of a squashed tree is copied in as it is. */
  lemma {:induction false} LeafCopied(env: Env, any: AnyTypes, o: Arg, base: U64, off: nat)
    requires any.Ok() && Copies(any, UnionArg(any.union, o)) && SoundLeaf(env, any, o)
    ensures Same(LeafStores(env, o, base, off), At(base + off, NewBytes(env, any, o)))
  {
    SameBytes(base + off, NewBytes(env, any, o));
    if o.ResultArg? {
      ResultBytes(env, any, o);
      assert Retyped(o, AnyRes(any, o.typ.com.size).value) == o;
    } else if o.PointerArg? {
      NoStride(PhysicalAddr(env.tgt, o).value, env.m.procid);
      if Size(o) == 0 { assert NewBytes(env, any, o) == []; }
    }
  }

  lemma {:induction false} ElemCopied(env: Env, any: AnyTypes, e: Arg, base: U64, off: nat)
    requires any.Ok() && Copies(any, e) && IsSound(env, any, e)
    ensures Same(Stores(env, e, base, off), Means(env, any, e, base, off))
    decreases e, 1
  {
    var o := e.option;
    var here := At(base + off, NewBytes(env, any, o));
    SoundNotBits(env, any, o);
    LeafCopied(env, any, o, base, off);
    assert Size(e) == Size(o) && Means(env, any, e, base, off) == Means(env, any, o, base, off) + [];
    if o.PointerArg? {
      var obj := PointeeBase(env.tgt, o);
      ListCopied(env, any, o.res.value, obj);
      SameJoin(LeafStores(env, o, base, off), Stores(env, o.res.value, obj, 0), here,
          Means(env, any, o.res.value, obj, 0));
    }
    assert Means(env, any, o, base, off) + [] == Means(env, any, o, base, off);
  }

  lemma {:induction false} ListCopied(env: Env, any: AnyTypes, list: Arg, base: U64)
    requires any.Ok() && list.GroupArg? && list.typ == any.list && AllCopy(any, list.inner) && IsSound(env, any, list)
    ensures Same(Stores(env, list, base, 0), Means(env, any, list, base, 0))
    decreases list, 0
  {
    ElemsCopied(env, any, list.inner, base, 0);
    assert FieldsMean(env, any, list.inner, base, 0, 0) + [] == FieldsMean(env, any, list.inner, base, 0, 0);
  }

  lemma {:induction false} ElemsCopied(env: Env, any: AnyTypes, elems: seq<Arg>, base: U64, off: nat)
    requires any.Ok() && AllCopy(any, elems) && SoundFields(SoundIn(env, any), elems)
    ensures Same(StoresSeq(env, elems, base, off), FieldsMean(env, any, elems, base, off, 0))
    decreases elems, 0
  {
    if elems != [] {
      var n := Size(elems[0]);
      ElemCopied(env, any, elems[0], base, off);
      ElemsCopied(env, any, elems[1..], base, off + n);
      SameJoin(Stores(env, elems[0], base, off), StoresSeq(env, elems[1..], base, off + n),
               Means(env, any, elems[0], base, off), FieldsMean(env, any, elems[1..], base, off + n, 0));
    }
  }

  // ----- the law -----

  /** Every bit ends up the same. */
  ghost predicate Agree(mem: Mem, ws: seq<Store>, cells: seq<Cell>) {
    forall z: nat :: After(mem, LastBit(ws, z), z) == After(mem, CellBit(cells, z), z)
  }

  /** Squashed and not, and the copyins of both. */
  datatype Squashed = Squashed(b: Arg, before: seq<Copyin>, after: seq<Copyin>)

  ghost predicate IsSquashed(env: Env, any: AnyTypes, a: Arg, s: Squashed)
    requires a.PointerArg? && a.res.Some?
  {
    var obj := PointeeBase(env.tgt, a);
    && SquashPtr(env.tgt, any, a) == Some(s.b) && s.b.PointerArg? && s.b.res.Some?
    && s.b.address == a.address && Size(s.b.res.value) == Size(a.res.value)
    && StaticCopyins(env.tgt, StaticInfos(env.used), a.res.value, Some(obj), 0) == Some(s.before)
    && StaticCopyins(env.tgt, StaticInfos(env.used), s.b.res.value, Some(obj), 0) == Some(s.after)
  }

  lemma {:induction false} SquashPuts(env: Env, any: AnyTypes, a: Arg) returns (s: Squashed)
    requires any.Ok() && IsSound(env, any, a) && a.PointerArg? && a.res.Some?
    ensures IsSquashed(env, any, a, s)
    ensures Puts(env.m, Some(s.before), Stores(env, a.res.value, PointeeBase(env.tgt, a), 0))
    ensures exists ws ::
      Puts(env.m, Some(s.after), ws) && Same(ws, Means(env, any, a.res.value, PointeeBase(env.tgt, a), 0))
  {
    PtrKeeps(env, any, a);
    PtrCopies(env.tgt, any, a);
    var obj := PointeeBase(env.tgt, a);
    var b := SquashPtr(env.tgt, any, a).value;
    SoundNotBits(env, any, a);
    SoundNotBits(env, any, b);
    TreePuts(env, any, a.res.value, obj, 0);
    TreePuts(env, any, b.res.value, obj, 0);
    ListCopied(env, any, b.res.value, obj);
    s := Squashed(b, StaticCopyins(env.tgt, StaticInfos(env.used), a.res.value, Some(obj), 0).value,
                  StaticCopyins(env.tgt, StaticInfos(env.used), b.res.value, Some(obj), 0).value);
    assert Puts(env.m, Some(s.after), Stores(env, b.res.value, obj, 0));
  }

  /** Squashing a pointer does not panic and keeps the size of the object it points to, and the
      copyins before and after leave the same memory if and only if every bit ends up the same:
      what the tree stores there last before squashing, and what it means there once squashed. */
  lemma {:induction false} SquashKeepsMemoryIff(env: Env, any: AnyTypes, a: Arg, mem: Mem) returns (s: Squashed)
    requires any.Ok() && IsSound(env, any, a) && a.PointerArg? && a.res.Some?
    ensures IsSquashed(env, any, a, s)
    ensures Mapped(mem, s.before) && Mapped(mem, s.after) ==>
      && Run(env.m, mem, s.before).Some? && Run(env.m, mem, s.after).Some?
      && var obj := PointeeBase(env.tgt, a);
         (Run(env.m, mem, s.before) == Run(env.m, mem, s.after) <==>
            Agree(mem, Stores(env, a.res.value, obj, 0), Means(env, any, a.res.value, obj, 0)))
  {
    s := SquashPuts(env, any, a);
    if Mapped(mem, s.before) && Mapped(mem, s.after) {
      var obj := PointeeBase(env.tgt, a);
      var cells := Means(env, any, a.res.value, obj, 0);
      var ws :| Puts(env.m, Some(s.after), ws) && Same(ws, cells);
      assert RunSets(env.m, mem, s.before, Stores(env, a.res.value, obj, 0)) && RunSets(env.m, mem, s.after, ws);
      SetsAgree(mem, Run(env.m, mem, s.before).value, Run(env.m, mem, s.after).value,
                Stores(env, a.res.value, obj, 0), ws, cells);
    }
  }

  lemma {:induction false} SetsAgree(mem: Mem, m1: Mem, m2: Mem, wa: seq<Store>, wb: seq<Store>, cells: seq<Cell>)
    requires Sets(mem, m1, wa) && Sets(mem, m2, wb) && Same(wb, cells)
    ensures m1 == m2 <==> Agree(mem, wa, cells)
  {
    forall z: nat
      ensures MemBit(m1, z) == After(mem, LastBit(wa, z), z) && MemBit(m2, z) == After(mem, CellBit(cells, z), z)
    {
      assert LastBit(wb, z) == CellBit(cells, z);
    }
    if Agree(mem, wa, cells) {
      forall z: nat ensures MemBit(m1, z) == MemBit(m2, z) {
        assert After(mem, LastBit(wa, z), z) == After(mem, CellBit(cells, z), z);
      }
      SameMemory(m1, m2);
    }
  }
}
