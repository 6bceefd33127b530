/**
  What the executor does with copyin instructions and call arguments (executor/executor.cc:600-626,
  1136-1290): it stores integers, results and data into memory, or reads a word.

  Memory is a map from addresses to bytes.  Checksums are in ChecksumWriter; running such an
  instruction gives None here, like a failure of the executor.
 */
module ExecMemory {
  import opened Ir
  import opened ExecFormat
  import opened Arith

  type Mem = map<nat, Byte>

  /** Results of earlier calls that were produced, and the number of the process. */
  datatype Machine = Machine(results: map<U64, U64>, procid: U64)

  datatype Cell = Cell(addr: nat, b: Byte)

  /** Bytes laid out from an address on. */
  function At(addr: nat, bytes: seq<Byte>): (r: seq<Cell>)
    ensures |r| == |bytes|
    ensures forall i :: 0 <= i < |r| ==> r[i] == Cell(addr + i, bytes[i])
  {
    seq(|bytes|, i requires 0 <= i < |bytes| => Cell(addr + i, bytes[i]))
  }

  /** Memory after the cells are written in order. */
  function Apply(mem: Mem, cells: seq<Cell>): Mem
    decreases cells
  {
    if cells == [] then mem else Apply(mem[cells[0].addr := cells[0].b], cells[1..])
  }

  function Reversed(b: seq<Byte>): (r: seq<Byte>)
    ensures |r| == |b|
  {
    if b == [] then [] else Reversed(b[1..]) + [b[0]]
  }

  lemma {:induction false} ReversedAt(b: seq<Byte>, i: nat)
    requires i < |b|
    ensures Reversed(b)[i] == b[|b| - 1 - i]
  {
    if i < |b| - 1 { ReversedAt(b[1..], i); }
  }

  /** An integer in memory: little-endian, or swapped for big-endian. */
  function IntBytes(v: nat, size: nat, format: U64): (r: seq<Byte>)
    ensures |r| == size
  {
    if format == FormatCode(BigEndian) then Reversed(LeBytes(v, size)) else LeBytes(v, size)
  }

  function IntVal(b: seq<Byte>, format: U64): nat {
    LeVal(if format == FormatCode(BigEndian) then Reversed(b) else b)
  }

  /** The bits of `x` from `off` on replaced by the low `len` bits of `v`: what copyin_int does
      with BITMASK. */
  function BitStore(x: nat, off: nat, len: nat, v: nat): nat {
    PartLe(x, Pow2(off), Pow2(len));
    x - x / Pow2(off) % Pow2(len) * Pow2(off) + v % Pow2(len) * Pow2(off)
  }

  /** A byte of memory. */
  function Get(mem: Mem, addr: nat): Byte {
    if addr in mem then mem[addr] else 0
  }

  function Load(mem: Mem, addr: nat, n: nat): (r: seq<Byte>)
    ensures |r| == n
    decreases n
  {
    if n == 0 then [] else [Get(mem, addr)] + Load(mem, addr + 1, n - 1)
  }

  predicate IsIntSize(size: U64) {
    size == 1 || size == 2 || size == 4 || size == 8
  }

  /** The last `n` digits of a number as characters. */
  function TextDigits(v: nat, base: nat, n: nat): (r: seq<Byte>)
    requires 2 <= base <= 16
    ensures |r| == n
  {
    if n == 0 then [] else TextDigits(v / base, base, n - 1) + [DigitByte(v % base)]
  }

  function DigitByte(d: nat): Byte
    requires d < 16
  {
    if d < 10 then 48 + d else 87 + d
  }

  /** What sprintf writes for an integer printed as text, without the terminator; None if the size
      is not that of the format. */
  function IntText(v: U64, size: U64, format: U64): (r: Option<seq<Byte>>)
    ensures r.Some? ==> |r.value| == size
  {
    if format == FormatCode(StrDec) && size == 20 then Some(TextDigits(v, 10, 20))
    else if format == FormatCode(StrHex) && size == 18 then Some([48, 120] + TextDigits(v, 16, 16))
    else if format == FormatCode(StrOct) && size == 23 then Some(TextDigits(v, 8, 23))
    else None
  }

  function StoreText(mem: Mem, addr: U64, v: U64, size: U64, format: U64): Option<Mem> {
    var text := IntText(v, size, format);
    if text.None? then None else Some(Apply(mem, At(addr, text.value + [0])))
  }

  /** copyin. */
  function StoreInt(mem: Mem, addr: U64, v: U64, size: U64, format: U64, off: U64, len: U64): Option<Mem> {
    if format > FormatCode(BigEndian) then if off == 0 && len == 0 then StoreText(mem, addr, v, size, format) else None
    else if !IsIntSize(size) || (format == FormatCode(BigEndian) && size == 1) then None
    else if off == 0 && len == 0 then Some(Apply(mem, At(addr, IntBytes(v, size, format))))
    else
      var v1 := BitStore(IntVal(Load(mem, addr, size), format), off, len, v);
      Some(Apply(mem, At(addr, IntBytes(v1, size, format))))
  }

  /** read_result. */
  function ResultValue(m: Machine, idx: U64, div: U64, add: U64, default: U64): U64 {
    if idx in m.results then ((if div != 0 then m.results[idx] / div else m.results[idx]) + add) % TWO64 else default
  }

  /** htobe of the low `size` bytes; the host is little-endian. */
  function SwapInt(v: U64, size: U64, format: U64): Option<nat> {
    if format == FormatCode(Native) then Some(v)
    else if format == FormatCode(BigEndian) && size in {2, 4, 8} then Some(LeVal(Reversed(LeBytes(v, size))))
    else None
  }

  /** read_arg: the word that is passed to a call. */
  function ArgWord(m: Machine, x: ExecArg): Option<nat> {
    match x
    case ExecConst(size, format, value, off, len, stride) =>
      if off != 0 || len != 0 then None else SwapInt((value + stride * m.procid) % TWO64, size, format)
    case ExecResult(_, format, idx, div, add, default) =>
      if format != FormatCode(Native) then None else Some(ResultValue(m, idx, div, add, default))
    case _ => None
  }

  function RunCopyin(m: Machine, mem: Mem, c: Copyin): Option<Mem> {
    match c.arg
    case ExecConst(size, format, value, off, len, stride) =>
      StoreInt(mem, c.addr, (value + stride * m.procid) % TWO64, size, format, off, len)
    case ExecResult(size, format, idx, div, add, default) =>
      StoreInt(mem, c.addr, ResultValue(m, idx, div, add, default), size, format, 0, 0)
    case ExecData(data, _) => Some(Apply(mem, At(c.addr, data)))
    case ExecCsum(_, _) => None
  }

  function Run(m: Machine, mem: Mem, cs: seq<Copyin>): Option<Mem>
    decreases cs
  {
    if cs == [] then Some(mem)
    else
      var r := RunCopyin(m, mem, cs[0]);
      if r.None? then None else Run(m, r.value, cs[1..])
  }

  lemma {:induction false} RunJoin(m: Machine, mem: Mem, a: seq<Copyin>, b: seq<Copyin>)
    requires Run(m, mem, a).Some?
    ensures Run(m, mem, a + b) == Run(m, Run(m, mem, a).value, b)
    decreases a
  {
    if a == [] {
      assert a + b == b;
    } else {
      var r := RunCopyin(m, mem, a[0]);
      assert (a + b)[1..] == a[1..] + b;
      RunJoin(m, r.value, a[1..], b);
    }
  }

  // ----- cells -----

  lemma {:induction false} AtJoin(addr: nat, a: seq<Byte>, b: seq<Byte>)
    ensures At(addr, a + b) == At(addr, a) + At(addr + |a|, b)
  {
  }

  /** No address twice. */
  predicate Distinct(cells: seq<Cell>) {
    forall i, j :: 0 <= i < j < |cells| ==> cells[i].addr != cells[j].addr
  }

  /** Other addresses are untouched, and none is lost. */
  lemma {:induction false} ApplyElsewhere(mem: Mem, cells: seq<Cell>, x: nat)
    ensures x in mem ==> x in Apply(mem, cells)
    ensures (forall i :: 0 <= i < |cells| ==> cells[i].addr != x) ==>
      (x in Apply(mem, cells) <==> x in mem) && (x in mem ==> Apply(mem, cells)[x] == mem[x])
    decreases cells
  {
    if cells != [] {
      assert forall i :: 0 <= i < |cells| - 1 ==> cells[1..][i] == cells[i + 1];
      ApplyElsewhere(mem[cells[0].addr := cells[0].b], cells[1..], x);
    }
  }
}
