/** The bits of numbers, of bytes laid out in memory, and of what is stored over them. */
module Bits {
  import opened Ir
  import opened ExecFormat
  import opened ExecMemory
  import opened Arith

  predicate Bit(x: nat, k: nat)
    decreases k
  {
    if k == 0 then x % 2 == 1 else Bit(x / 2, k - 1)
  }

  lemma {:induction false} BitOfZero(k: nat)
    ensures !Bit(0, k)
  {
    if k > 0 { BitOfZero(k - 1); }
  }

  lemma {:induction false} HalfSum(a: nat, p: nat, z: nat)
    ensures (a + (2 * p) * z) % 2 == a % 2 && (a + (2 * p) * z) / 2 == a / 2 + p * z
  {
    assert (2 * p) * z == 2 * (p * z);
  }

  /** The bits of a sum whose parts do not overlap. */
  lemma {:induction false} BitOfSum(a: nat, n: nat, z: nat, k: nat)
    requires a < Pow2(n)
    ensures Bit(a + Pow2(n) * z, k) == if k < n then Bit(a, k) else Bit(z, k - n)
    decreases n
  {
    if n > 0 {
      HalfSum(a, Pow2(n - 1), z);
      if k > 0 { BitOfSum(a / 2, n - 1, z, k - 1); }
    }
  }

  lemma {:induction false} BitOfSplit(x: nat, n: nat, lo: nat, hi: nat, k: nat)
    requires lo < Pow2(n) && x == lo + Pow2(n) * hi
    ensures Bit(lo, k) == (k < n && Bit(x, k)) && Bit(hi, k) == Bit(x, n + k)
  {
    BitOfSum(lo, n, hi, k);
    BitOfSum(lo, n, hi, n + k);
    BitOfSum(lo, n, 0, k);
    if k >= n { BitOfZero(k - n); }
  }

  lemma {:induction false} Divided(x: nat, p: nat) returns (q: nat, r: nat)
    requires p > 0
    ensures x == r + p * q && r < p && q == x / p && r == x % p
  {
    q, r := x / p, x % p;
  }

  lemma {:induction false} BitOfLow(x: nat, n: nat, k: nat)
    ensures Bit(x % Pow2(n), k) == (k < n && Bit(x, k))
  {
    var hi, lo := Divided(x, Pow2(n));
    BitOfSplit(x, n, lo, hi, k);
  }

  lemma {:induction false} BitOfByte(x: nat, k: nat)
    ensures Bit(x % 256, k) == (k < 8 && Bit(x, k))
    ensures Bit(x / 256, k) == Bit(x, 8 + k)
  {
    PowOf8();
    BitOfSplit(x, 8, x % 256, x / 256, k);
  }

  lemma {:induction false} BitOfShift(x: nat, n: nat, k: nat)
    ensures Bit(x * Pow2(n), k) == (k >= n && Bit(x, k - n))
  {
    BitOfSum(0, n, x, k);
    BitOfZero(k);
  }

  /** Numbers with the same bits. */
  lemma {:induction false} SameBits(x: nat, y: nat, n: nat)
    requires x < Pow2(n) && y < Pow2(n) && forall k: nat | k < n :: Bit(x, k) == Bit(y, k)
    ensures x == y
    decreases n
  {
    if n > 0 {
      assert Bit(x, 0) == Bit(y, 0);
      forall k: nat | k < n - 1 ensures Bit(x / 2, k) == Bit(y / 2, k) { assert Bit(x, k + 1) == Bit(y, k + 1); }
      SameBits(x / 2, y / 2, n - 1);
    }
  }

  lemma {:induction false} PowOf8()
    ensures Pow2(8) == 256
  {
    assert Pow2(4) == 16 by { assert Pow2(2) == 4; }
    PowAdd(4, 4);
  }

  /** Bytes with the same bits. */
  lemma {:induction false} SameByte(x: Byte, y: Byte)
    requires forall k: nat | k < 8 :: Bit(x, k) == Bit(y, k)
    ensures x == y
  {
    PowOf8();
    SameBits(x, y, 8);
  }

  // ----- bytes -----

  lemma {:induction false} BitOfBytes(x: nat, n: nat, i: nat, k: nat)
    requires i < n && k < 8
    ensures Bit(LeBytes(x, n)[i], k) == Bit(x, 8 * i + k)
    decreases i
  {
    PowOf8();
    if i == 0 {
      BitOfByte(x, k);
    } else {
      BitOfBytes(x / 256, n - 1, i - 1, k);
      BitOfByte(x, 8 * (i - 1) + k);
    }
  }

  lemma {:induction false} BitOfValue(b: seq<Byte>, i: nat, k: nat)
    requires i < |b| && k < 8
    ensures Bit(LeVal(b), 8 * i + k) == Bit(b[i], k)
    decreases i
  {
    PowOf8();
    BitOfSum(b[0], 8, LeVal(b[1..]), 8 * i + k);
    if i > 0 { BitOfValue(b[1..], i - 1, k); }
  }

  // ----- BitStore -----

  lemma {:induction false} ThreeParts(x: nat, p: nat, q: nat) returns (lo: nat, mid: nat, hi: nat)
    requires p > 0 && q > 0
    ensures x == lo + p * (mid + q * hi) && lo < p && mid < q && mid == x / p % q
  {
    var y;
    y, lo := Divided(x, p);
    hi, mid := Divided(y, q);
  }

  lemma {:induction false} Replaced(x: nat, p: nat, lo: nat, mid: nat, w: nat, more: nat)
    requires x == lo + p * (mid + more)
    ensures mid * p <= x && x - mid * p + w * p == lo + p * (w + more)
  {
    MulSum(p, mid, more);
    MulSum(p, w, more);
  }

  lemma {:induction false} MulSum(p: nat, a: nat, b: nat)
    ensures p * (a + b) == p * a + p * b
  {
  }

  /** The middle bits of a number replaced. */
  lemma {:induction false} BitOfMiddle(off: nat, len: nat, lo: nat, mid: nat, hi: nat, k: nat)
    requires lo < Pow2(off) && mid < Pow2(len)
    ensures Bit(lo + Pow2(off) * (mid + Pow2(len) * hi), k) ==
            if k < off then Bit(lo, k) else if k < off + len then Bit(mid, k - off) else Bit(hi, k - off - len)
  {
    BitOfSum(lo, off, mid + Pow2(len) * hi, k);
    if k >= off { BitOfSum(mid, len, hi, k - off); }
  }

  lemma {:induction false} StoreIs(x: nat, off: nat, len: nat, v: nat, p: nat, mid: nat, w: nat)
    requires p == Pow2(off) && mid == x / p % Pow2(len) && w == v % Pow2(len) && mid * p <= x
    ensures BitStore(x, off, len, v) == x - mid * p + w * p
  {
  }

  /** BitStore replaces the middle. */
  lemma {:induction false} StoreSplit(x: nat, off: nat, len: nat, v: nat) returns (lo: nat, mid: nat, hi: nat, w: nat)
    ensures lo < Pow2(off) && mid < Pow2(len) && w < Pow2(len) && w == v % Pow2(len)
    ensures x == lo + Pow2(off) * (mid + Pow2(len) * hi)
    ensures BitStore(x, off, len, v) == lo + Pow2(off) * (w + Pow2(len) * hi)
  {
    lo, mid, hi := ThreeParts(x, Pow2(off), Pow2(len));
    var rest;
    rest, w := Divided(v, Pow2(len));
    Replaced(x, Pow2(off), lo, mid, w, Pow2(len) * hi);
    StoreIs(x, off, len, v, Pow2(off), mid, w);
  }

  lemma {:induction false} BitOfStore(x: nat, off: nat, len: nat, v: nat, k: nat)
    ensures Bit(BitStore(x, off, len, v), k) == if off <= k < off + len then Bit(v, k - off) else Bit(x, k)
  {
    var lo, mid, hi, w := StoreSplit(x, off, len, v);
    BitOfMiddle(off, len, lo, w, hi, k);
    BitOfMiddle(off, len, lo, mid, hi, k);
    if off <= k < off + len { BitOfLow(v, len, k - off); }
  }

  // ----- memory -----

  predicate MemBit(mem: Mem, z: nat) {
    Bit(Get(mem, z / 8), z % 8)
  }

  /** Memories with the same bits. */
  lemma {:induction false} SameMemory(m1: Mem, m2: Mem)
    requires m1.Keys == m2.Keys && forall z :: MemBit(m1, z) == MemBit(m2, z)
    ensures m1 == m2
  {
    forall x | x in m1 ensures m1[x] == m2[x] {
      forall k: nat | k < 8 ensures Bit(m1[x], k) == Bit(m2[x], k) {
        assert (8 * x + k) / 8 == x && (8 * x + k) % 8 == k;
        assert MemBit(m1, 8 * x + k) == MemBit(m2, 8 * x + k);
      }
      SameByte(m1[x], m2[x]);
    }
  }

  lemma {:induction false} LoadBit(mem: Mem, addr: nat, n: nat, i: nat, k: nat)
    requires i < n && k < 8
    ensures Bit(LeVal(Load(mem, addr, n)), 8 * i + k) == Bit(Get(mem, addr + i), k)
  {
    LoadAt(mem, addr, n, i);
    BitOfValue(Load(mem, addr, n), i, k);
  }

  lemma {:induction false} LoadAt(mem: Mem, addr: nat, n: nat, i: nat)
    requires i < n
    ensures Load(mem, addr, n)[i] == Get(mem, addr + i)
    decreases n
  {
    if i > 0 { LoadAt(mem, addr + 1, n - 1, i - 1); }
  }

  /** The byte written last at `x`. */
  function LastAt(cells: seq<Cell>, x: nat): Option<Byte> {
    if cells == [] then None
    else if LastAt(cells[1..], x).Some? then LastAt(cells[1..], x)
    else if cells[0].addr == x then Some(cells[0].b)
    else None
  }

  lemma {:induction false} LastCellJoin(a: seq<Cell>, b: seq<Cell>, x: nat)
    ensures LastAt(a + b, x) == if LastAt(b, x).Some? then LastAt(b, x) else LastAt(a, x)
  {
    if a == [] {
      assert a + b == b;
    } else {
      assert (a + b)[1..] == a[1..] + b;
      LastCellJoin(a[1..], b, x);
    }
  }

  lemma {:induction false} LastInRange(addr: nat, bytes: seq<Byte>, x: nat)
    ensures LastAt(At(addr, bytes), x) == if addr <= x < addr + |bytes| then Some(bytes[x - addr]) else None
    decreases bytes
  {
    if bytes != [] {
      assert At(addr, bytes)[1..] == At(addr + 1, bytes[1..]);
      LastInRange(addr + 1, bytes[1..], x);
    }
  }

  lemma {:induction false} LastIsCell(cells: seq<Cell>, x: nat)
    ensures LastAt(cells, x).Some? <==> exists i :: 0 <= i < |cells| && cells[i].addr == x
  {
    if cells != [] {
      LastIsCell(cells[1..], x);
      assert forall i :: 0 < i < |cells| ==> cells[i] == cells[1..][i - 1];
      assert forall i :: 0 <= i < |cells| - 1 ==> cells[1..][i] == cells[i + 1];
    }
  }

  /** All cells are in mapped memory. */
  ghost predicate InMem(mem: Mem, cells: seq<Cell>) {
    forall i :: 0 <= i < |cells| ==> cells[i].addr in mem
  }

  lemma {:induction false} ApplyLast(mem: Mem, cells: seq<Cell>, x: nat)
    ensures Get(Apply(mem, cells), x) == if LastAt(cells, x).Some? then LastAt(cells, x).value else Get(mem, x)
    decreases cells
  {
    if cells != [] { ApplyLast(mem[cells[0].addr := cells[0].b], cells[1..], x); }
  }

  lemma {:induction false} ApplyKeys(mem: Mem, cells: seq<Cell>)
    requires InMem(mem, cells)
    ensures Apply(mem, cells).Keys == mem.Keys
    decreases cells
  {
    if cells != [] {
      var mem1 := mem[cells[0].addr := cells[0].b];
      assert mem1.Keys == mem.Keys;
      forall i | 0 <= i < |cells| - 1 ensures cells[1..][i].addr in mem1 { assert cells[1..][i] == cells[i + 1]; }
      ApplyKeys(mem1, cells[1..]);
    }
  }

  // ----- stores of bits -----

  /** The low `len` bits of `value`, stored from bit `at` of memory on. */
  datatype Store = Store(at: nat, len: nat, value: nat)

  /** What the last store to bit `z` put there. */
  function LastBit(ws: seq<Store>, z: nat): Option<bool> {
    if ws == [] then None
    else if LastBit(ws[1..], z).Some? then LastBit(ws[1..], z)
    else if ws[0].at <= z < ws[0].at + ws[0].len then Some(Bit(ws[0].value, z - ws[0].at))
    else None
  }

  lemma {:induction false} LastJoin(a: seq<Store>, b: seq<Store>, z: nat)
    ensures LastBit(a + b, z) == if LastBit(b, z).Some? then LastBit(b, z) else LastBit(a, z)
  {
    if a == [] {
      assert a + b == b;
    } else {
      assert (a + b)[1..] == a[1..] + b;
      LastJoin(a[1..], b, z);
    }
  }

  lemma {:induction false} LastOfOne(w: Store, z: nat)
    ensures LastBit([w], z) == if w.at <= z < w.at + w.len then Some(Bit(w.value, z - w.at)) else None
  {
    assert [w][1..] == [];
  }

  /** Bytes as one store. */
  function ByteStore(addr: nat, bytes: seq<Byte>): Store {
    Store(8 * addr, 8 * |bytes|, LeVal(bytes))
  }

  /** What the last of the cells put at bit `z`. */
  function CellBit(cells: seq<Cell>, z: nat): Option<bool> {
    var b := LastAt(cells, z / 8);
    if b.None? then None else Some(Bit(b.value, z % 8))
  }

  lemma {:induction false} BytesAreBits(addr: nat, bytes: seq<Byte>, z: nat)
    ensures LastBit([ByteStore(addr, bytes)], z) == CellBit(At(addr, bytes), z)
  {
    LastOfOne(ByteStore(addr, bytes), z);
    LastInRange(addr, bytes, z / 8);
    if addr <= z / 8 < addr + |bytes| { BitOfValue(bytes, z / 8 - addr, z % 8); }
  }

  /** `mem1` is `mem` after the stores. */
  ghost predicate Sets(mem: Mem, mem1: Mem, ws: seq<Store>) {
    mem1.Keys == mem.Keys && forall z :: MemBit(mem1, z) == After(mem, LastBit(ws, z), z)
  }

  /** A bit of memory, if nothing was stored over it. */
  predicate After(mem: Mem, last: Option<bool>, z: nat) {
    if last.Some? then last.value else MemBit(mem, z)
  }

  lemma {:induction false} SetsJoin(mem: Mem, mem1: Mem, mem2: Mem, a: seq<Store>, b: seq<Store>)
    requires Sets(mem, mem1, a) && Sets(mem1, mem2, b)
    ensures Sets(mem, mem2, a + b)
  {
    forall z: nat ensures MemBit(mem2, z) == After(mem, LastBit(a + b, z), z) {
      LastJoin(a, b, z);
      assert MemBit(mem2, z) == After(mem1, LastBit(b, z), z);
      assert MemBit(mem1, z) == After(mem, LastBit(a, z), z);
    }
  }

  lemma {:induction false} CellsSet(mem: Mem, cells: seq<Cell>, z: nat)
    ensures MemBit(Apply(mem, cells), z) == After(mem, CellBit(cells, z), z)
  {
    ApplyLast(mem, cells, z / 8);
  }

  lemma {:induction false} BytesSet(mem: Mem, addr: nat, bytes: seq<Byte>)
    requires InMem(mem, At(addr, bytes))
    ensures Sets(mem, Apply(mem, At(addr, bytes)), [ByteStore(addr, bytes)])
  {
    ApplyKeys(mem, At(addr, bytes));
    forall z: nat
      ensures MemBit(Apply(mem, At(addr, bytes)), z) == After(mem, LastBit([ByteStore(addr, bytes)], z), z)
    {
      CellsSet(mem, At(addr, bytes), z);
      BytesAreBits(addr, bytes, z);
    }
  }

  /** The number of the bit `k` of the byte at `x`, in the integer of the unit. */
  function BitNo(addr: nat, unit: nat, order: Format, x: nat, k: nat): nat
    requires addr <= x < addr + unit
  {
    8 * (if order == BigEndian then addr + unit - 1 - x else x - addr) + k
  }

  ghost predicate BitAfter(mem: Mem, mem1: Mem, addr: nat, v: nat, unit: nat, order: Format, off: nat, len: nat,
                           x: nat, k: nat)
  {
    Bit(Get(mem1, x), k) ==
    if addr <= x < addr + unit && off <= BitNo(addr, unit, order, x, k) < off + len
    then Bit(v, BitNo(addr, unit, order, x, k) - off)
    else Bit(Get(mem, x), k)
  }

  /** A bitfield store of the executor changes the bits of the field and no others, in either byte
      order. */
  lemma {:induction false} FieldStored(mem: Mem, addr: U64, v: U64, unit: U64, order: Format, off: U64, len: U64)
    requires IsIntSize(unit) && (order == Native || (order == BigEndian && unit != 1)) && (off != 0 || len != 0)
    ensures var r := StoreInt(mem, addr, v, unit, FormatCode(order), off, len);
      r.Some? && forall x: nat, k: nat | k < 8 :: BitAfter(mem, r.value, addr, v, unit, order, off, len, x, k)
  {
    var format := FormatCode(order);
    var y := BitStore(IntVal(Load(mem, addr, unit), format), off, len, v);
    var mem1 := Apply(mem, At(addr, IntBytes(y, unit, format)));
    assert StoreInt(mem, addr, v, unit, format, off, len) == Some(mem1);
    forall x: nat, k: nat | k < 8
      ensures BitAfter(mem, mem1, addr, v, unit, order, off, len, x, k)
    {
      ApplyLast(mem, At(addr, IntBytes(y, unit, format)), x);
      LastInRange(addr, IntBytes(y, unit, format), x);
      if addr <= x < addr + unit {
        StoredBit(mem, addr, unit, order, off, len, v, y, x, k);
      }
    }
  }

  lemma {:induction false} StoredBit(mem: Mem, addr: nat, unit: nat, order: Format, off: nat, len: nat, v: nat, y: nat,
                                     x: nat, k: nat)
    requires (order == Native || order == BigEndian) && addr <= x < addr + unit && k < 8
    requires y == BitStore(IntVal(Load(mem, addr, unit), FormatCode(order)), off, len, v)
    ensures var n := BitNo(addr, unit, order, x, k);
      Bit(IntBytes(y, unit, FormatCode(order))[x - addr], k) ==
      if off <= n < off + len then Bit(v, n - off) else Bit(Get(mem, x), k)
  {
    var was := Load(mem, addr, unit);
    var i := x - addr;
    LoadAt(mem, addr, unit, i);
    BitOfStore(IntVal(was, FormatCode(order)), off, len, v, BitNo(addr, unit, order, x, k));
    if order == BigEndian {
      ReversedAt(LeBytes(y, unit), i);
      ReversedAt(was, unit - 1 - i);
      BitOfBytes(y, unit, unit - 1 - i, k);
      BitOfValue(Reversed(was), unit - 1 - i, k);
    } else {
      BitOfBytes(y, unit, i, k);
      BitOfValue(was, i, k);
    }
  }

  /** The same as a list of bit stores, for little-endian units. */
  lemma {:induction false} FieldSets(mem: Mem, addr: U64, v: U64, unit: U64, off: U64, len: U64)
    requires IsIntSize(unit) && len > 0 && off + len <= 8 * unit && forall x | addr <= x < addr + unit :: x in mem
    ensures var r := StoreInt(mem, addr, v, unit, 0, off, len);
      r.Some? && Sets(mem, r.value, [Store(8 * addr + off, len, v)])
  {
    var y := BitStore(LeVal(Load(mem, addr, unit)), off, len, v);
    var cells := At(addr, LeBytes(y, unit));
    var mem1 := Apply(mem, cells);
    assert StoreInt(mem, addr, v, unit, 0, off, len) == Some(mem1);
    ApplyKeys(mem, cells);
    forall z: nat ensures MemBit(mem1, z) == After(mem, LastBit([Store(8 * addr + off, len, v)], z), z) {
      FieldBit(mem, addr, v, unit, off, len, y, z);
    }
  }

  lemma {:induction false} FieldBit(mem: Mem, addr: nat, v: nat, unit: nat, off: nat, len: nat, y: nat, z: nat)
    requires off + len <= 8 * unit && y == BitStore(LeVal(Load(mem, addr, unit)), off, len, v)
    ensures MemBit(Apply(mem, At(addr, LeBytes(y, unit))), z) ==
        After(mem, LastBit([Store(8 * addr + off, len, v)], z), z)
  {
    CellsSet(mem, At(addr, LeBytes(y, unit)), z);
    LastInRange(addr, LeBytes(y, unit), z / 8);
    LastOfOne(Store(8 * addr + off, len, v), z);
    if addr <= z / 8 < addr + unit {
      var i, k := z / 8 - addr, z % 8;
      BitOfBytes(y, unit, i, k);
      BitOfStore(LeVal(Load(mem, addr, unit)), off, len, v, 8 * i + k);
      LoadBit(mem, addr, unit, i, k);
    }
  }
}
