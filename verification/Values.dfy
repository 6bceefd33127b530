/**
  What arguments stand for, and what the executor makes of what the compiler emits for them
  (prog/prog.go:50-140, prog/encodingexec.go:78-153, executor/executor.cc:600-626, 1136-1290).

  The laws speak of arguments on one side and of memory, or of the words passed to a call, on the
  other.
 */
module Values {
  import opened Ir
  import opened ExecFormat
  import opened ExecMemory
  import opened ExecCompile
  import opened Traversal
  import opened Bits
  import opened CopyoutIndices
  import opened CopyoutLaws

  // ----- meaning -----

  /** The number that a scalar stands for.  `at` gives the index of a referent, `m` the results
      that were produced and the process. */
  ghost predicate StandsFor(tgt: Target, m: Machine, at: Loc -> U64, a: Arg, v: U64) {
    match a
    case ConstArg(t, val) =>
      && (t.IntT? || t.ConstT? || t.FlagsT? || t.LenT? ==> v == val)
      && (t.CsumT? ==> v == 0)
      && (t.ProcT? ==>
            v == if val == 0xffff_ffff_ffff_ffff then 0 else (t.start + val + t.perProc * m.procid) % TWO64)
    case ResultArg(t, ref, div, add, val) =>
      && (ref.None? ==> v == val)
      && (ref.Some? && at(ref.value) !in m.results ==> t.ResourceT? && v == t.default)
      && (ref.Some? && at(ref.value) in m.results ==>
            v == (m.results[at(ref.value)] / (if div == 0 then 1 else div) + add) % TWO64)
    case PointerArg(_, address, vmaSize, res) =>
      var special := (TWO64 - address) % TWO64;
      if vmaSize == 0 && res.None? && special < 16 then special < |tgt.special| && v == tgt.special[special]
      else v == (tgt.dataOffset + address) % TWO64
    case _ => false
  }

  /** A scalar of a type that validate accepts for it. */
  predicate IsScalar(a: Arg) {
    match a
    case ConstArg(t, _) => HasBits(t)
    case ResultArg(t, _, _, _, _) => t.ResourceT?
    case PointerArg(t, _, _, _) => t.PtrT? || t.VmaT?
    case _ => false
  }

  /** Byte `i` of a number. */
  function Octet(v: nat, i: nat): Byte
    decreases i
  {
    if i == 0 then v % 256 else Octet(v / 256, i - 1)
  }

  /** The low `size` bytes of a number in memory order. */
  ghost function Spelled(v: nat, size: nat, order: Format): seq<Byte> {
    seq(size, i requires 0 <= i < size => Octet(v, if order == BigEndian then size - 1 - i else i))
  }

  /** Memory holds the bytes from `addr` on, and is otherwise what it was. */
  ghost predicate Wrote(before: Mem, after: Option<Mem>, addr: nat, b: seq<Byte>) {
    after.Some? && forall x: nat :: WroteAt(before, after.value, addr, b, x)
  }

  predicate WroteAt(before: Mem, after: Mem, addr: nat, b: seq<Byte>, x: nat) {
    if addr <= x < addr + |b| then x in after && after[x] == b[x - addr]
    else (x in after <==> x in before) && Get(after, x) == Get(before, x)
  }

  ghost function Order(t: Type): Format {
    if t.ResourceT? then t.format
    else if t.ConstT? || t.IntT? || t.FlagsT? || t.LenT? || t.ProcT? || t.CsumT? then t.bits.format
    else Native
  }

  /** Integers that the executor stores in binary. */
  ghost predicate IsBinary(size: U64, order: Format) {
    (order == Native && size in {1, 2, 4, 8}) || (order == BigEndian && size in {2, 4, 8})
  }

  /** Integers that the executor prints. */
  ghost predicate IsPrinted(size: U64, order: Format) {
    (order == StrDec && size == 20) || (order == StrHex && size == 18) || (order == StrOct && size == 23)
  }

  /** Digit `i` from the right. */
  function Digit(v: nat, base: nat, i: nat): (d: nat)
    requires 2 <= base <= 16
    ensures d < base
    decreases i
  {
    if i == 0 then v % base else Digit(v / base, base, i - 1)
  }

  /** The last `n` digits, from the left. */
  ghost function Digits(v: nat, base: nat, n: nat): seq<Byte>
    requires 2 <= base <= 16
  {
    seq(n, i requires 0 <= i < n => "0123456789abcdef"[Digit(v, base, n - 1 - i)] as int as Byte)
  }

  /** Decimal, hexadecimal or octal digits that fill the size, and a zero. */
  ghost function Printed(v: nat, order: Format): seq<Byte> {
    match order
    case StrDec => Digits(v, 10, 20) + [0]
    case StrHex => ['0' as int, 'x' as int] + Digits(v, 16, 16) + [0]
    case StrOct => Digits(v, 8, 23) + [0]
    case _ => []
  }

  /** Not a part of a unit. */
  ghost predicate IsWhole(t: Type) {
    HasBits(t) ==> t.bits.len == 0 && t.bits.off == 0
  }

  /** The size of the integer that holds the value. */
  ghost function Unit(t: Type): U64 {
    if HasBits(t) && t.bits.len != 0 then t.bits.unit else t.com.size
  }

  /** The instruction stores the number as the type says: the bytes of a whole integer, its digits,
      or the bits of a bitfield; the executor fails for any other type. */
  ghost predicate Delivers(m: Machine, c: Copyin, t: Type, v: U64) {
    if IsBinary(Unit(t), Order(t)) then
      if IsWhole(t) then
        forall mem: Mem :: Wrote(mem, RunCopyin(m, mem, c), c.addr, Spelled(v, t.com.size, Order(t)))
      else
        forall mem: Mem :: StoresField(mem, RunCopyin(m, mem, c), c.addr, t, v)
    else if IsWhole(t) && IsPrinted(t.com.size, Order(t)) then
      forall mem: Mem :: Wrote(mem, RunCopyin(m, mem, c), c.addr, Printed(v, Order(t)))
    else
      forall mem: Mem :: RunCopyin(m, mem, c).None?
  }

  /** The bits of the field are those of the value, and all others what they were. */
  ghost predicate StoresField(before: Mem, after: Option<Mem>, addr: nat, t: Type, v: U64)
    requires HasBits(t)
  {
    after.Some? && forall x: nat, k: nat | k < 8 ::
      BitAfter(before, after.value, addr, v, Unit(t), Order(t), t.bits.off, t.bits.len, x, k)
  }

  /** What writeCopyin copies in: what lies in memory and goes in, but for padding and the empty. */
  ghost predicate IsCopied(v: Visit) {
    && v.base.Some? && !v.arg.GroupArg? && !v.arg.UnionArg? && v.arg.typ.com.dir != DirOut
    && !(v.arg.typ.ConstT? && v.arg.typ.isPad)
    && (Size(v.arg) != 0 || (HasBits(v.arg.typ) && v.arg.typ.bits.len != 0))
  }

  ghost function Copied(vs: seq<Visit>): seq<Visit> {
    if vs == [] then [] else (if IsCopied(vs[0]) then [vs[0]] else []) + Copied(vs[1..])
  }

  /** The instruction copies the argument to where it lies. */
  ghost predicate CopiesIn(tgt: Target, m: Machine, at: Loc -> U64, c: Copyin, v: Visit)
    requires v.base.Some?
  {
    var t := v.arg.typ;
    && c.addr == (v.base.value + v.off - if HasBits(t) then t.bits.unitOff else 0) % TWO64
    && if v.arg.DataArg? then
         && (t.BufferT? ==> c.arg == ExecData(v.arg.data, t.kind == StringBuf || t.kind == FilenameBuf))
         && forall mem: Mem :: Wrote(mem, RunCopyin(m, mem, c), c.addr, v.arg.data)
       else IsScalar(v.arg) ==> exists x: U64 :: StandsFor(tgt, m, at, v.arg, x) && Delivers(m, c, t, x)
  }

  /** Indices in the code of call `c`: results of the call itself have index 0 (see CopyoutLaws). */
  ghost function Index(p: Program, c: nat): Loc -> U64 {
    (l: Loc) => if l.call < c then Rank(RefsProg(p), l) % TWO64 else 0
  }

  /** The option taken, through all unions. */
  ghost function Chosen(a: Arg): Arg {
    if a.UnionArg? then Chosen(a.option) else a
  }

  /** The word has the value of the argument, with the bytes of a big-endian integer turned. */
  ghost predicate Reads(w: nat, v: U64, size: nat, order: Format) {
    if order == BigEndian then forall i: nat | i < 8 :: Octet(w, i) == if i < size then Octet(v, size - 1 - i) else 0
    else w == v
  }

  /** Integers that can be passed to a call: whole ones in the order of the host, or in the other
      order unless they are results of other calls. */
  ghost predicate IsPassed(a: Arg) {
    IsWhole(a.typ) &&
    (Order(a.typ) == Native
     || (Order(a.typ) == BigEndian && a.typ.com.size in {2, 4, 8} && !(a.ResultArg? && a.ref.Some?)))
  }

  /** The executor reads the value of the argument, or fails. */
  ghost predicate Passes(tgt: Target, m: Machine, at: Loc -> U64, x: ExecArg, a: Arg) {
    IsScalar(a) ==>
      if IsPassed(a) then
        exists v: U64 :: StandsFor(tgt, m, at, a, v)
          && ArgWord(m, x).Some? && Reads(ArgWord(m, x).value, v, a.typ.com.size, Order(a.typ))
      else ArgWord(m, x).None?
  }

  // ----- bytes -----

  lemma {:induction false} OctetOfBytes(v: nat, n: nat, i: nat)
    requires i < n
    ensures LeBytes(v, n)[i] == Octet(v, i)
    decreases i
  {
    if i > 0 { OctetOfBytes(v / 256, n - 1, i - 1); }
  }

  lemma {:induction false} OctetOfValue(b: seq<Byte>, i: nat)
    ensures Octet(LeVal(b), i) == if i < |b| then b[i] else 0
    decreases i
  {
    if b == [] {
      if i > 0 { OctetOfValue([], i - 1); }
    } else if i > 0 {
      assert LeVal(b) / 256 == LeVal(b[1..]);
      OctetOfValue(b[1..], i - 1);
    }
  }

  lemma {:induction false} IntSpelled(v: nat, size: nat, order: Format)
    requires order == Native || order == BigEndian
    ensures IntBytes(v, size, FormatCode(order)) == Spelled(v, size, order)
  {
    var b := LeBytes(v, size);
    forall i | 0 <= i < size ensures IntBytes(v, size, FormatCode(order))[i] == Spelled(v, size, order)[i] {
      if order == BigEndian {
        ReversedAt(b, i);
        OctetOfBytes(v, size, size - 1 - i);
      } else {
        OctetOfBytes(v, size, i);
      }
    }
  }

  lemma {:induction false} SwapReads(v: U64, size: U64, order: Format)
    requires order == Native || (order == BigEndian && size in {2, 4, 8})
    ensures SwapInt(v, size, FormatCode(order)).Some? &&
        Reads(SwapInt(v, size, FormatCode(order)).value, v, size, order)
  {
    if order == BigEndian {
      var b := LeBytes(v, size);
      forall i: nat | i < 8
        ensures Octet(LeVal(Reversed(b)), i) == if i < size then Octet(v, size - 1 - i) else 0
      {
        OctetOfValue(Reversed(b), i);
        if i < size {
          ReversedAt(b, i);
          OctetOfBytes(v, size, size - 1 - i);
        }
      }
    }
  }

  lemma {:induction false} ApplyWrites(mem: Mem, addr: nat, b: seq<Byte>)
    ensures Wrote(mem, Some(Apply(mem, At(addr, b))), addr, b)
    decreases b
  {
    if b != [] {
      assert At(addr, b)[1..] == At(addr + 1, b[1..]);
      ApplyWrites(mem[addr := b[0]], addr + 1, b[1..]);
      FirstWrites(mem, Some(Apply(mem, At(addr, b))), addr, b);
    }
  }

  lemma {:induction false} FirstWrites(mem: Mem, after: Option<Mem>, addr: nat, b: seq<Byte>)
    requires b != [] && Wrote(mem[addr := b[0]], after, addr + 1, b[1..])
    ensures Wrote(mem, after, addr, b)
  {
    forall x: nat ensures WroteAt(mem, after.value, addr, b, x) {
      assert WroteAt(mem[addr := b[0]], after.value, addr + 1, b[1..], x);
      if addr < x < addr + |b| { assert b[x - addr] == b[1..][x - (addr + 1)]; }
    }
  }

  lemma {:induction false} IntWrites(mem: Mem, addr: U64, v: U64, size: U64, order: Format)
    requires IsBinary(size, order)
    ensures Wrote(mem, StoreInt(mem, addr, v, size, FormatCode(order), 0, 0), addr, Spelled(v, size, order))
  {
    IntSpelled(v, size, order);
    ApplyWrites(mem, addr, Spelled(v, size, order));
  }

  lemma {:induction false} DigitOfText(v: nat, base: nat, n: nat, i: nat)
    requires 2 <= base <= 16 && i < n
    ensures TextDigits(v, base, n)[i] == "0123456789abcdef"[Digit(v, base, n - 1 - i)] as int
    decreases n
  {
    if i < n - 1 {
      DigitOfText(v / base, base, n - 1, i);
    } else {
      CharOf(v % base);
    }
  }

  lemma {:induction false} CharOf(d: nat)
    requires d < 16
    ensures DigitByte(d) == "0123456789abcdef"[d] as int
  {
  }

  lemma {:induction false} DigitsPrinted(v: nat, base: nat, n: nat)
    requires 2 <= base <= 16
    ensures TextDigits(v, base, n) == Digits(v, base, n)
  {
    forall i | 0 <= i < n ensures TextDigits(v, base, n)[i] == Digits(v, base, n)[i] { DigitOfText(v, base, n, i); }
  }

  lemma {:induction false} TextWrites(mem: Mem, addr: U64, v: U64, size: U64, order: Format)
    requires IsPrinted(size, order)
    ensures Wrote(mem, StoreInt(mem, addr, v, size, FormatCode(order), 0, 0), addr, Printed(v, order))
  {
    DigitsPrinted(v, 10, 20);
    DigitsPrinted(v, 16, 16);
    DigitsPrinted(v, 8, 23);
    ApplyWrites(mem, addr, Printed(v, order));
  }

  // ----- one argument -----

  /** What the infos know of earlier results and of the call's own is their index. */
  ghost predicate Indexes(infos: Infos, at: Loc -> U64) {
    forall l :: l in infos ==> infos[l].idx % TWO64 == at(l)
  }

  lemma {:induction false} SumMod(a: nat, b: nat)
    ensures (a % TWO64 + b) % TWO64 == (a + b) % TWO64
  {
  }

  /** The value in a constant instruction, or that a result instruction reads. */
  ghost predicate Carries(m: Machine, x: ExecArg, t: Type, v: U64) {
    match x
    case ExecConst(size, format, value, off, len, stride) =>
      && v == (value + stride * m.procid) % TWO64 && format == FormatCode(Order(t))
      && off == (if HasBits(t) then t.bits.off else 0) && len == (if HasBits(t) then t.bits.len else 0)
      && size == (if HasBits(t) && t.bits.len != 0 then t.bits.unit else t.com.size)
    case ExecResult(size, format, idx, div, add, default) =>
      && v == ResultValue(m, idx, div, add, default) && format == FormatCode(Order(t)) && size == t.com.size
      && t.ResourceT?
    case _ => false
  }

  lemma {:induction false} ConstCarries(tgt: Target, infos: Infos, m: Machine, at: Loc -> U64, a: Arg)
    returns (v: U64)
    requires a.ConstArg? && HasBits(a.typ) && WriteArg(tgt, infos, a).Some?
    ensures StandsFor(tgt, m, at, a, v) && Carries(m, WriteArg(tgt, infos, a).value, a.typ, v)
  {
    if a.typ.ProcT? && a.val != 0xffff_ffff_ffff_ffff {
      v := ProcCarries(tgt, infos, m, at, a);
    } else {
      v := WriteArg(tgt, infos, a).value.value;
    }
  }

  lemma {:induction false} ProcCarries(tgt: Target, infos: Infos, m: Machine, at: Loc -> U64, a: Arg)
    returns (v: U64)
    requires a.ConstArg? && a.typ.ProcT? && a.val != 0xffff_ffff_ffff_ffff && WriteArg(tgt, infos, a).Some?
    ensures StandsFor(tgt, m, at, a, v) && Carries(m, WriteArg(tgt, infos, a).value, a.typ, v)
  {
    var sum, more := a.typ.start + a.val, a.typ.perProc * m.procid;
    SumMod(sum, more);
    v := (sum + more) % TWO64;
  }

  lemma {:induction false} ScalarCarries(tgt: Target, infos: Infos, m: Machine, at: Loc -> U64, a: Arg)
    returns (v: U64)
    requires IsScalar(a) && WriteArg(tgt, infos, a).Some? && Indexes(infos, at)
    ensures StandsFor(tgt, m, at, a, v) && Carries(m, WriteArg(tgt, infos, a).value, a.typ, v)
  {
    var x, t := WriteArg(tgt, infos, a).value, a.typ;
    match a
    case ConstArg(_, _) =>
      v := ConstCarries(tgt, infos, m, at, a);
    case ResultArg(_, ref, _, _, val) =>
      v := if ref.None? then val else ResultValue(m, x.index, x.divOp, x.addOp, x.default);
    case PointerArg(_, _, _, _) =>
      v := x.value;
  }

  lemma {:induction false} WholeDelivered(m: Machine, c: Copyin, t: Type, v: U64, mem: Mem)
    requires Carries(m, c.arg, t, v) && IsWhole(t) && IsBinary(t.com.size, Order(t))
    ensures Wrote(mem, RunCopyin(m, mem, c), c.addr, Spelled(v, t.com.size, Order(t)))
  {
    IntWrites(mem, c.addr, v, t.com.size, Order(t));
    assert RunCopyin(m, mem, c) == StoreInt(mem, c.addr, v, t.com.size, FormatCode(Order(t)), 0, 0);
  }

  lemma {:induction false} TextDelivered(m: Machine, c: Copyin, t: Type, v: U64, mem: Mem)
    requires Carries(m, c.arg, t, v) && IsWhole(t) && IsPrinted(t.com.size, Order(t))
    ensures Wrote(mem, RunCopyin(m, mem, c), c.addr, Printed(v, Order(t)))
  {
    TextWrites(mem, c.addr, v, t.com.size, Order(t));
    assert RunCopyin(m, mem, c) == StoreInt(mem, c.addr, v, t.com.size, FormatCode(Order(t)), 0, 0);
  }

  lemma {:induction false} ScalarDelivered(m: Machine, c: Copyin, t: Type, v: U64)
    requires Carries(m, c.arg, t, v)
    ensures Delivers(m, c, t, v)
  {
    if !IsBinary(Unit(t), Order(t)) {
      if IsWhole(t) && IsPrinted(t.com.size, Order(t)) {
        forall mem: Mem ensures Wrote(mem, RunCopyin(m, mem, c), c.addr, Printed(v, Order(t))) {
          TextDelivered(m, c, t, v, mem);
        }
      }
    } else if IsWhole(t) {
      forall mem: Mem ensures Wrote(mem, RunCopyin(m, mem, c), c.addr, Spelled(v, t.com.size, Order(t))) {
        WholeDelivered(m, c, t, v, mem);
      }
    } else {
      forall mem: Mem ensures StoresField(mem, RunCopyin(m, mem, c), c.addr, t, v) {
        FieldStored(mem, c.addr, v, Unit(t), Order(t), t.bits.off, t.bits.len);
      }
    }
  }

  lemma {:induction false} LeafCopied(tgt: Target, infos: Infos, m: Machine, at: Loc -> U64, v: Visit)
    requires IsCopied(v) && OwnCopyin(tgt, infos, v.arg, v.base, v.off).Some? && Indexes(infos, at)
    ensures var own := OwnCopyin(tgt, infos, v.arg, v.base, v.off).value;
      |own| == 1 && CopiesIn(tgt, m, at, own[0], v)
  {
    var c := OwnCopyin(tgt, infos, v.arg, v.base, v.off).value[0];
    if v.arg.DataArg? {
      forall mem: Mem ensures Wrote(mem, RunCopyin(m, mem, c), c.addr, v.arg.data) {
        ApplyWrites(mem, c.addr, v.arg.data);
      }
    } else if IsScalar(v.arg) {
      var x := ScalarCarries(tgt, infos, m, at, v.arg);
      ScalarDelivered(m, c, v.arg.typ, x);
    }
  }

  // ----- all arguments of a call -----

  /** One instruction for each argument that is copied in, in order. */
  lemma {:induction false} AllCopied(tgt: Target, infos: Infos, m: Machine, at: Loc -> U64, vs: seq<Visit>)
    requires Owns(tgt, infos, vs).Some? && Indexes(infos, at)
    ensures var cs := Owns(tgt, infos, vs).value;
      |cs| == |Copied(vs)| &&
      forall i :: 0 <= i < |cs| ==> IsCopied(Copied(vs)[i]) && CopiesIn(tgt, m, at, cs[i], Copied(vs)[i])
  {
    if vs != [] {
      AllCopied(tgt, infos, m, at, vs[1..]);
      if IsCopied(vs[0]) {
        LeafCopied(tgt, infos, m, at, vs[0]);
      }
    }
  }

  lemma {:induction false} PassIndexes(p: Program, c: nat)
    requires c < |p|
    ensures Indexes(PassInfos(RefsProg(p), InMemory(p, c), c), Index(p, c))
  {
  }

  /** What the compiler emits for call `c`: its copyins copy the arguments that lie in memory and go
      in, each to where it lies, and nothing else. */
  lemma {:induction false} CopyinsDeliver(tgt: Target, p: Program, csums: seq<seq<Copyin>>, c: nat, m: Machine)
    requires |csums| == |p| && Backward(p) && c < |p| && CompileProg(tgt, p, csums).Some?
    ensures |CompileProg(tgt, p, csums).value| == |p|
    ensures var cs, vs := CompileProg(tgt, p, csums).value[c].copyin, Copied(VisitsTop(tgt, p[c].args, 0));
      && |cs| == |vs| + |csums[c]| && cs[|vs|..] == csums[c]
      && forall i :: 0 <= i < |vs| ==> IsCopied(vs[i]) && CopiesIn(tgt, m, Index(p, c), cs[i], vs[i])
  {
    var infos := PassInfos(RefsProg(p), InMemory(p, c), c);
    PassedCall(tgt, p, csums, c);
    CopyinsTopInOrder(tgt, infos, p[c].args, 0);
    PassIndexes(p, c);
    AllCopied(tgt, infos, m, Index(p, c), VisitsTop(tgt, p[c].args, 0));
  }

  lemma {:induction false} PassedCall(tgt: Target, p: Program, csums: seq<seq<Copyin>>, c: nat)
    requires |csums| == |p| && Backward(p) && c < |p| && CompileProg(tgt, p, csums).Some?
    ensures |CompileProg(tgt, p, csums).value| == |p|
    ensures StaticCall(tgt, RefsProg(p), PassInfos(RefsProg(p), InMemory(p, c), c), c, p[c], csums[c]) ==
            Some(CompileProg(tgt, p, csums).value[c])
  {
    CompileIsPass(tgt, p, csums);
    CollectParts(PassOne(tgt, p, csums), 0, |p|);
    assert CompileProg(tgt, p, csums).value[c - 0] == PassOne(tgt, p, csums)(c).value;
  }

  // ----- the words of the call itself -----

  lemma {:induction false} OneWord(tgt: Target, infos: Infos, m: Machine, at: Loc -> U64, a: Arg)
    requires WriteArg(tgt, infos, a).Some? && Indexes(infos, at)
    ensures Passes(tgt, m, at, WriteArg(tgt, infos, a).value, Chosen(a))
    decreases a
  {
    if a.UnionArg? {
      OneWord(tgt, infos, m, at, a.option);
    } else if IsScalar(a) && IsPassed(a) {
      var v := ScalarCarries(tgt, infos, m, at, a);
      SwapReads(v, a.typ.com.size, Order(a.typ));
    }
  }

  lemma {:induction false} AllWords(tgt: Target, infos: Infos, m: Machine, at: Loc -> U64, args: seq<Arg>)
    requires WriteArgs(tgt, infos, args).Some? && Indexes(infos, at)
    ensures var xs := WriteArgs(tgt, infos, args).value;
      |xs| == |args| && forall i :: 0 <= i < |xs| ==> Passes(tgt, m, at, xs[i], Chosen(args[i]))
  {
    if args != [] {
      OneWord(tgt, infos, m, at, args[0]);
      AllWords(tgt, infos, m, at, args[1..]);
    }
  }

  /** The call instruction names the call, hands out the index of its return value, and passes the
      values of its arguments. */
  lemma {:induction false} CallPasses(tgt: Target, p: Program, csums: seq<seq<Copyin>>, c: nat, m: Machine)
    requires |csums| == |p| && Backward(p) && c < |p| && CompileProg(tgt, p, csums).Some?
    ensures |CompileProg(tgt, p, csums).value| == |p|
    ensures var call := CompileProg(tgt, p, csums).value[c];
      && call.meta == p[c].meta.id % TWO64
      && call.index == (if p[c].ret.Some? && Loc(c, 0) in RefsProg(p) then Rank(RefsProg(p), Loc(c, 0)) % TWO64
                        else 0xffff_ffff_ffff_ffff)
      && |call.args| == |p[c].args|
      && forall i :: 0 <= i < |p[c].args| ==> Passes(tgt, m, Index(p, c), call.args[i], Chosen(p[c].args[i]))
  {
    PassedCall(tgt, p, csums, c);
    PassIndexes(p, c);
    AllWords(tgt, PassInfos(RefsProg(p), InMemory(p, c), c), m, Index(p, c), p[c].args);
  }
}
