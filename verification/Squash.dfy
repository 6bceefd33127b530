/**
  Squashing a typed argument tree into blobs (prog/any.go:210-412), and what the tree means in
  memory.

  Not modelled: integers and resources printed as text (squash gives None on them, as on the
  source's panics).
 */
module Squash {
  import opened Ir
  import opened ExecFormat
  import opened ExecCompile
  import opened ExecMemory
  import opened Arith

  /** The types that replace the described ones (initAnyTypes). */
  datatype AnyTypes = AnyTypes(union: Type, list: Type, blob: Type, res16: Type, res32: Type, res64: Type,
                               pointee: nat, ptrSize: U64)
  {
    predicate Ok() {
      && union.UnionT? && union.com.varlen
      && list.ArrayT? && list.com.varlen
      && blob.BufferT? && blob.com.varlen && blob.com.dir == DirIn
      && IsAnyRes(res16, 2) && IsAnyRes(res32, 4) && IsAnyRes(res64, 8)
    }

    predicate IsAnyRes(t: Type, size: U64) {
      t.ResourceT? && t.com.size == size && t.com.dir == DirIn && t.format == Native && t.default == TWO64 - 1
    }
  }

  /** Bitwise or. */
  function Or(a: nat, b: nat): nat
    decreases a + b
  {
    if a == 0 && b == 0 then 0
    else (if a % 2 == 1 || b % 2 == 1 then 1 else 0) + 2 * Or(a / 2, b / 2)
  }

  // ----- squash -----

  predicate IsBlob(e: Arg) {
    e.UnionArg? && e.option.DataArg?
  }

  /** ensureDataElem, and appending to the element it returns. */
  function AddData(any: AnyTypes, elems: seq<Arg>, data: seq<Byte>): seq<Arg> {
    if elems != [] && IsBlob(elems[|elems| - 1]) then
      var d := elems[|elems| - 1].option;
      elems[..|elems| - 1] + [UnionArg(elems[|elems| - 1].typ, DataArg(d.typ, d.data + data, d.outSize))]
    else elems + [UnionArg(any.union, DataArg(any.blob, data, 0))]
  }

  function AddPad(any: AnyTypes, elems: Option<seq<Arg>>, pad: int): Option<seq<Arg>> {
    if elems.None? || pad < 0 then None
    else if pad == 0 then elems
    else Some(AddData(any, elems.value, Zeros(pad)))
  }

  /** squashedValue and the bytes it is cut into. */
  function SquashedValue(a: Arg): Option<U64>
    requires a.ConstArg?
  {
    var v := ConstValue(a);
    if a.typ.CsumT? then Some(0xabcd_ef12_3456_7890)
    else if v.None? then None
    else
      match TypeFormat(a.typ)
      case Native => Some(v.value.0)
      case BigEndian =>
        var size := UnitSize(a.typ);
        if size == 2 || size == 4 || size == 8 then Some(Swap(v.value.0, size)) else None
      case _ => None
  }

  /** swap16, swap32 and swap64. */
  function Swap(v: U64, size: nat): (r: U64)
    requires size <= 8
  {
    LeValBound(Reversed(LeBytes(v, size)));
    PowLe(size);
    LeVal(Reversed(LeBytes(v, size)))
  }

  lemma {:induction false} PowLe(n: nat)
    requires n <= 8
    ensures Pow256(n) <= TWO64
    decreases 8 - n
  {
    if n < 8 {
      PowLe(n + 1);
    } else {
      Pow256Of8();
    }
  }

  function AnyRes(any: AnyTypes, size: U64): Option<Type> {
    if size == 2 then Some(any.res16) else if size == 4 then Some(any.res32) else if size == 8 then Some(any.res64)
        else None
  }

  function SquashConst(any: AnyTypes, a: Arg, elems: seq<Arg>): Option<seq<Arg>>
    requires a.ConstArg?
  {
    if IsPad(a.typ) then Some(AddData(any, elems, Zeros(Size(a))))
    else
      var v := SquashedValue(a);
      if v.None? then None else Some(AddData(any, elems, LeBytes(v.value, Size(a))))
  }

  function SquashResult(any: AnyTypes, a: Arg, elems: seq<Arg>): Option<seq<Arg>>
    requires a.ResultArg?
  {
    var f := TypeFormat(a.typ);
    var t := AnyRes(any, Size(a) as U64);
    if (f != Native && f != BigEndian) || t.None? then None
    else Some(elems + [UnionArg(any.union, ResultArg(t.value, a.ref, a.opDiv, a.opAdd, a.val))])
  }

  /** The alignment padding of a struct of variable size. */
  function GroupPad(t: Type, inner: seq<Arg>): nat {
    if t.StructT? && t.com.varlen then AlignUp(SizeSeq(inner), t.align) - SizeSeq(inner) else 0
  }

  /** squashPtrImpl. */
  function SquashImpl(tgt: Target, any: AnyTypes, a: Arg, elems: seq<Arg>): Option<seq<Arg>>
    decreases a, 1
  {
    if BfLen(a.typ) != 0 then None
    else
      match a
      case ConstArg(_, _) => SquashConst(any, a, elems)
      case ResultArg(_, _, _, _, _) => SquashResult(any, a, elems)
      case PointerArg(t, _, _, res) =>
        if res.Some? then
          var p := SquashPtr(tgt, any, a);
          if p.None? then None else Some(elems + [UnionArg(any.union, p.value)])
        else
          var addr := PhysicalAddr(tgt, a);
          if addr.None? then None else Some(AddData(any, elems, LeBytes(addr.value, Size(a))))
      case UnionArg(t, option) =>
        AddPad(any, SquashImpl(tgt, any, option, elems), if t.com.varlen then 0 else t.com.size - Size(option))
      case DataArg(t, data, _) =>
        if t.com.dir == DirOut then AddPad(any, Some(elems), Size(a)) else Some(AddData(any, elems, data))
      case GroupArg(t, inner) => AddPad(any, SquashFields(tgt, any, inner, 0, elems), GroupPad(t, inner))
  }

  /** The bitfield accumulator after one more field. */
  function AddBits(acc: nat, t: Type, v: U64): nat {
    Or(acc, v % Pow2(BfLen(t)) * Pow2(BfOff(t)) % TWO64)
  }

  function SquashFields(tgt: Target, any: AnyTypes, args: seq<Arg>, acc: nat, elems: seq<Arg>): Option<seq<Arg>>
    decreases args, 0
  {
    if args == [] then Some(elems)
    else if IsBitfield(args[0].typ) then
      if !args[0].ConstArg? then None
      else
        var v := SquashedValue(args[0]);
        if v.None? then None
        else
          var acc1 := AddBits(acc, args[0].typ, v.value);
          if Size(args[0]) == 0 then SquashFields(tgt, any, args[1..], acc1, elems)
          else SquashFields(tgt, any, args[1..], 0, AddData(any, elems, LeBytes(acc1, Size(args[0]))))
    else
      var e := SquashImpl(tgt, any, args[0], elems);
      if e.None? then None else SquashFields(tgt, any, args[1..], acc, e.value)
  }

  /** squashPtr.  The field name is not part of this model.  A size change is a panic. */
  function SquashPtr(tgt: Target, any: AnyTypes, a: Arg): Option<Arg>
    requires a.PointerArg?
    decreases a, 0
  {
    if a.res.None? || a.vmaSize != 0 then None
    else
      var elems := SquashImpl(tgt, any, a.res.value, []);
      if elems.None? || (Size(a) != any.ptrSize && Size(a) != 8) then None
      else
        var res := GroupArg(any.list, elems.value);
        if Size(res) != Size(a.res.value) then None
        else Some(PointerArg(PtrT(a.typ.com.(dir := DirIn, optional := true), any.pointee), a.address, a.vmaSize,
            Some(res)))
  }

  // ----- what a tree puts into memory -----

  datatype Env = Env(tgt: Target, used: set<Loc>, m: Machine)

  function ArgBytes(m: Machine, x: ExecArg): seq<Byte> {
    match x
    case ExecConst(size, format, value, _, _, stride) => IntBytes((value + stride * m.procid) % TWO64, size, format)
    case ExecResult(size, format, idx, div, add, default) =>
        IntBytes(ResultValue(m, idx, div, add, default), size, format)
    case ExecData(data, _) => data
    case ExecCsum(_, _) => []
  }

  /** The bytes that are copied in for a leaf; zeros stand for what is not copied in. */
  function LeafBytes(env: Env, a: Arg): seq<Byte> {
    if NoCopyin(a) then Zeros(Size(a))
    else
      var x := WriteArg(env.tgt, StaticInfos(env.used), a);
      if x.None? then [] else ArgBytes(env.m, x.value)
  }

  function Retyped(a: Arg, t: Type): Arg
    requires a.ResultArg?
  {
    ResultArg(t, a.ref, a.opDiv, a.opAdd, a.val)
  }

  /** The bytes that are copied in for a leaf once it is squashed: a constant whatever its
      direction and the process, a result with the type that replaces its own. */
  function NewBytes(env: Env, any: AnyTypes, a: Arg): seq<Byte> {
    match a
    case ConstArg(t, _) =>
      if IsPad(t) then Zeros(Size(a))
      else if SquashedValue(a).None? then []
      else LeBytes(SquashedValue(a).value, Size(a))
    case ResultArg(t, _, _, _, _) =>
      var r := AnyRes(any, t.com.size);
      if r.None? then [] else LeafBytes(env, Retyped(a, r.value))
    case PointerArg(_, _, _, _) =>
      var addr := PhysicalAddr(env.tgt, a);
      if addr.None? then [] else LeBytes(addr.value, Size(a))
    case DataArg(t, data, _) => if t.com.dir == DirOut then Zeros(Size(a)) else data
    case _ => []
  }

  /** NewBytes as a function value. */
  function Leaves(env: Env, any: AnyTypes): Arg -> seq<Byte> {
    (a: Arg) => NewBytes(env, any, a)
  }

  /** The memory a tree describes, given the bytes `f` of its leaves: its own from `base + off`
      on, and those of everything it points to. */
  function Content(f: Arg -> seq<Byte>, tgt: Target, a: Arg, base: nat, off: nat): seq<Cell>
    decreases a, 1
  {
    match a
    case PointerArg(_, _, _, res) =>
      At(base + off, f(a)) + if res.Some? then Content(f, tgt, res.value, PointeeBase(tgt, a), 0) else []
    case UnionArg(_, option) => Content(f, tgt, option, base, off) + Rest(base + off, Size(option), Size(a))
    case GroupArg(_, inner) => ContentFields(f, tgt, inner, base, off, 0) + Rest(base + off, SizeSeq(inner), Size(a))
    case _ => At(base + off, f(a))
  }

  /** Zeros from `size` up to `total` bytes after `addr`. */
  function Rest(addr: nat, size: nat, total: nat): seq<Cell> {
    if size >= total then [] else At(addr + size, Zeros(total - size))
  }

  /** Bitfields are collected in `acc` until one has a size. */
  function ContentFields(f: Arg -> seq<Byte>, tgt: Target, args: seq<Arg>, base: nat, off: nat, acc: nat): seq<Cell>
    decreases args, 0
  {
    if args == [] then []
    else if IsBitfield(args[0].typ) then
      var acc1 := AddBits(acc, args[0].typ, BitsValue(args[0]));
      if Size(args[0]) == 0 then ContentFields(f, tgt, args[1..], base, off, acc1)
      else
        At(base + off, LeBytes(acc1, Size(args[0]))) +
        ContentFields(f, tgt, args[1..], base, off + Size(args[0]), 0)
    else
      Content(f, tgt, args[0], base, off) + ContentFields(f, tgt, args[1..], base, off + Size(args[0]), acc)
  }

  function BitsValue(a: Arg): U64 {
    if !a.ConstArg? || ConstValue(a).None? then 0 else ConstValue(a).value.0
  }

  // ----- the trees the laws are about -----

  /** Scalars in binary. */
  predicate SoundConst(a: Arg)
    requires a.ConstArg?
  {
    HasBits(a.typ) && !a.typ.CsumT? && !IsPad(a.typ) && ConstValue(a).Some?
  }

  predicate SoundInt(a: Arg)
    requires a.ConstArg?
  {
    && SoundConst(a) && a.typ.bits.len == 0 && a.typ.bits.off == 0 && a.typ.bits.unitOff == 0
    && (a.typ.bits.format == Native ==> a.typ.com.size == 0 || IsIntSize(a.typ.com.size))
    && (a.typ.bits.format != Native ==> a.typ.bits.format == BigEndian && a.typ.com.size in {2, 4, 8})
  }

  predicate SoundResult(env: Env, a: Arg)
    requires a.ResultArg?
  {
    && a.typ.ResourceT? && (a.typ.format == Native || a.typ.format == BigEndian) && a.typ.com.size in {2, 4, 8}
    && (a.ref.Some? ==> a.ref.value in env.used)
  }

  predicate SoundPointer(env: Env, any: AnyTypes, a: Arg)
    requires a.PointerArg?
  {
    && (a.typ.PtrT? || a.typ.VmaT?) && PhysicalAddr(env.tgt, a).Some?
    && (a.typ.com.size == 0 || IsIntSize(a.typ.com.size))
    && (a.res.Some? ==>
         && a.vmaSize == 0 && (a.typ.com.size == any.ptrSize || a.typ.com.size == 8)
         && PointeeBase(env.tgt, a) + Size(a.res.value) <= TWO64)
  }

  predicate SoundLeaf(env: Env, any: AnyTypes, a: Arg) {
    match a
    case ConstArg(t, _) => (IsPad(t) && BfLen(t) == 0) || SoundInt(a)
    case ResultArg(_, _, _, _, _) => SoundResult(env, a)
    case PointerArg(_, _, _, _) => SoundPointer(env, any, a)
    case DataArg(t, data, outSize) => t.BufferT? && (if t.com.dir == DirOut then data == [] else outSize == 0)
    case _ => true
  }

  /** The trees of the laws: what the compiler of descriptions and validate guarantee, without
      checksums and text integers.  `ok` speaks of the leaves. */
  predicate Sound(ok: Arg -> bool, a: Arg)
    decreases a, 1
  {
    match a
    case PointerArg(_, _, _, res) => ok(a) && (res.Some? ==> Sound(ok, res.value))
    case UnionArg(t, option) => t.UnionT? && (!t.com.varlen ==> Size(option) <= t.com.size) && Sound(ok, option)
    case GroupArg(t, inner) =>
      (t.StructT? || t.ArrayT?) && (!t.com.varlen ==> SizeSeq(inner) == t.com.size) && SoundFields(ok, inner)
    case _ => ok(a)
  }

  function SoundIn(env: Env, any: AnyTypes): Arg -> bool {
    (a: Arg) => SoundLeaf(env, any, a)
  }

  /** A bitfield lies in its unit, wherever that is. */
  predicate SoundBits(a: Arg) {
    && a.ConstArg? && SoundConst(a) && a.typ.bits.format == Native && IsIntSize(a.typ.bits.unit)
    && a.typ.bits.off + a.typ.bits.len <= 8 * a.typ.bits.unit
  }

  predicate SoundFields(ok: Arg -> bool, args: seq<Arg>)
    decreases args, 0
  {
    args != [] ==>
      && (if IsBitfield(args[0].typ) then SoundBits(args[0]) else Sound(ok, args[0]))
      && SoundFields(ok, args[1..])
  }
}
