/**
  The program representation of prog/prog.go and prog/types.go as values: types,
  argument trees, calls and programs.

  A result argument is identified by where it stands in the program (`Loc`): call
  number, and its ordinal among the result arguments of that call.  Ordinal 0 is the
  return value; the others count from 1 in the order of ForeachArg.  A reference is the
  location of the referent, so two programs with the same links are equal as values.
 */
module Ir {

  const TWO64: nat := 0x1_0000_0000_0000_0000

  type U64 = x: int | 0 <= x < TWO64
  type Byte = x: int | 0 <= x < 256

  function Zeros(n: nat): seq<Byte> {
    seq(n, _ => 0)
  }

  datatype Option<+T> = None | Some(value: T)

  datatype Dir = DirIn | DirOut | DirInOut

  datatype Format = Native | BigEndian | StrDec | StrHex | StrOct

  function FormatCode(f: Format): (r: U64)
    ensures r < 5
  {
    match f
    case Native => 0
    case BigEndian => 1
    case StrDec => 2
    case StrHex => 3
    case StrOct => 4
  }

  datatype Common = Common(name: string, field: string, size: U64, dir: Dir, optional: bool, varlen: bool)

  /** The bitfield part of IntTypeCommon; `len == 0` means the field is not a bitfield. */
  datatype IntBits = IntBits(format: Format, off: U64, len: U64, unit: U64, unitOff: U64)

  datatype BufferKind = BlobRand | BlobRange | StringBuf | FilenameBuf | TextBuf

  datatype CsumKind = CsumInet | CsumPseudo

  datatype ArrayKind = RandLen | RangeLen(begin: nat, end: nat)

  /** Struct and union fields are part of the type; a pointer type names its pointee by
      index in `Target.pointees`, so descriptions may be recursive through pointers. */
  datatype Type =
    | ResourceT(com: Common, format: Format, default: U64)
    | ConstT(com: Common, bits: IntBits, val: U64, isPad: bool)
    | IntT(com: Common, bits: IntBits)
    | FlagsT(com: Common, bits: IntBits)
    | LenT(com: Common, bits: IntBits, path: seq<string>, bitSize: nat, offset: bool)
    | ProcT(com: Common, bits: IntBits, start: U64, perProc: U64)
    | CsumT(com: Common, bits: IntBits, csumKind: CsumKind, buf: string, protocol: U64)
    | VmaT(com: Common)
    | BufferT(com: Common, kind: BufferKind, rangeBegin: nat, values: seq<seq<Byte>>)
    | ArrayT(com: Common, elem: Type, akind: ArrayKind)
    | PtrT(com: Common, pointee: nat)
    | StructT(com: Common, fields: seq<Type>, align: nat)
    | UnionT(com: Common, options: seq<Type>)

  datatype Loc = Loc(call: nat, idx: nat)

  datatype Arg =
    | ConstArg(typ: Type, val: U64)
    | PointerArg(typ: Type, address: U64, vmaSize: U64, res: Option<Arg>)
    | DataArg(typ: Type, data: seq<Byte>, outSize: nat)
    | GroupArg(typ: Type, inner: seq<Arg>)
    | UnionArg(typ: Type, option: Arg)
    | ResultArg(typ: Type, ref: Option<Loc>, opDiv: U64, opAdd: U64, val: U64)

  datatype Syscall = Syscall(id: nat, name: string, args: seq<Type>, ret: Option<Type>)

  datatype Call = Call(meta: Syscall, args: seq<Arg>, ret: Option<Arg>)

  type Program = seq<Call>

  datatype Target = Target(pageSize: nat, numPages: nat, dataOffset: U64,
                           special: seq<U64>, syscalls: seq<Syscall>, pointees: seq<Type>)

  const MAX_SPECIAL_POINTERS := 16

  predicate IsPad(t: Type) {
    t.ConstT? && t.isPad
  }

  predicate HasBits(t: Type) {
    t.ConstT? || t.IntT? || t.FlagsT? || t.LenT? || t.ProcT? || t.CsumT?
  }

  function TypeFormat(t: Type): Format {
    if HasBits(t) then t.bits.format else if t.ResourceT? then t.format else Native
  }

  predicate IsBitfield(t: Type) {
    HasBits(t) && t.bits.len != 0
  }

  function UnitSize(t: Type): U64 {
    if IsBitfield(t) then t.bits.unit else t.com.size
  }

  function UnitOffset(t: Type): U64 {
    if HasBits(t) then t.bits.unitOff else 0
  }

  /** Negation in 64-bit arithmetic. */
  function Neg64(x: U64): U64 {
    (TWO64 - x) % TWO64
  }

  predicate IsSpecial(a: Arg)
    requires a.PointerArg?
  {
    a.vmaSize == 0 && a.res.None? && Neg64(a.address) < MAX_SPECIAL_POINTERS
  }

  /** PhysicalAddr; an out-of-range special index is an index panic in the source. */
  function PhysicalAddr(tgt: Target, a: Arg): Option<U64>
    requires a.PointerArg?
  {
    if IsSpecial(a) then
      if Neg64(a.address) < |tgt.special| then Some(tgt.special[Neg64(a.address)]) else None
    else
      Some((tgt.dataOffset + a.address) % TWO64)
  }

  /** Size of an argument in bytes (sums are taken without 64-bit wrap-around). */
  function Size(a: Arg): nat {
    match a
    case ConstArg(t, _) => t.com.size
    case PointerArg(t, _, _, _) => t.com.size
    case DataArg(_, data, outSize) => if |data| != 0 then |data| else outSize
    case GroupArg(t, inner) =>
      if !t.com.varlen then t.com.size
      else
        var s := SizeSeq(inner);
        if t.StructT? then AlignUp(s, t.align) else s
    case UnionArg(t, option) => if !t.com.varlen then t.com.size else Size(option)
    case ResultArg(t, _, _, _, _) => t.com.size
  }

  function SizeSeq(args: seq<Arg>): nat {
    if args == [] then 0 else Size(args[0]) + SizeSeq(args[1..])
  }

  function AlignUp(s: nat, align: nat): nat {
    if align != 0 && s % align != 0 then s + (align - s % align) else s
  }

  /** Number of result arguments in a tree. */
  function NumResults(a: Arg): nat {
    match a
    case PointerArg(_, _, _, res) => if res.Some? then NumResults(res.value) else 0
    case GroupArg(_, inner) => NumResultsSeq(inner)
    case UnionArg(_, option) => NumResults(option)
    case ResultArg(_, _, _, _, _) => 1
    case _ => 0
  }

  function NumResultsSeq(args: seq<Arg>): nat {
    if args == [] then 0 else NumResults(args[0]) + NumResultsSeq(args[1..])
  }

  /** The locations a tree refers to. */
  function Refs(a: Arg): set<Loc> {
    match a
    case PointerArg(_, _, _, res) => if res.Some? then Refs(res.value) else {}
    case GroupArg(_, inner) => RefsSeq(inner)
    case UnionArg(_, option) => Refs(option)
    case ResultArg(_, ref, _, _, _) => if ref.Some? then {ref.value} else {}
    case _ => {}
  }

  function RefsSeq(args: seq<Arg>): set<Loc> {
    if args == [] then {} else Refs(args[0]) + RefsSeq(args[1..])
  }

  function RefsProg(p: Program): set<Loc> {
    if p == [] then {} else RefsSeq(p[0].args) + RefsProg(p[1..])
  }
}
