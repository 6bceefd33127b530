/**
  The memory and page allocators of prog/alloc.go.

  memAlloc is a two-level bitmap with one bit per 64-byte granule.  Its methods are
  specified on the set of taken granules, so the bitmap refines a set.
 */
module Alloc {
  import Ir

  const GRANULE: nat := 64
  const L0: nat := 64           // words per second-level block
  const L1: nat := 64           // blocks
  const PER_BLOCK: nat := 4096  // granules per block
  const LIMIT: nat := 262144    // granules the bitmap can hold

  // ----- bits -----

  function Bit(k: nat): bv64
    requires k < 64
  {
    (1 as bv64) << k
  }

  lemma {:induction false} SetBit(j: nat, k: nat, w: bv64)
    requires j < 64 && k < 64
    ensures ((w | Bit(k)) & Bit(j)) != 0 <==> (j == k || (w & Bit(j)) != 0)
  {
  }

  predicate HasBit(w: bv64, k: nat)
    requires k < 64
  {
    w & Bit(k) != 0
  }

  lemma {:induction false} SetHas(w: bv64, now: bv64, j: nat, k: nat)
    requires j < 64 && k < 64 && now == w | Bit(k)
    ensures HasBit(now, j) <==> HasBit(w, j) || j == k
  {
    SetBit(j, k, w);
  }

  /** Effect on granule `g` of raising the bit of `idx` in a word that was `w`. */
  lemma {:induction false} SetPos(idx: nat, g: nat, w: bv64, wg: bv64, now: bv64)
    requires SameWord(idx, g) ==> wg == w
    requires now == if SameWord(idx, g) then w | Bit(idx % 64) else wg
    ensures HasBit(now, g % 64) <==> HasBit(wg, g % 64) || g == idx
  {
    if SameWord(idx, g) {
      BitIs(idx, g);
      SetHas(w, now, g % 64, idx % 64);
    } else {
      assert g == idx ==> SameWord(idx, g);
    }
  }

  /** Within a word a granule is its bit. */
  lemma {:induction false} BitIs(idx: nat, g: nat)
    requires SameWord(idx, g)
    ensures g == idx <==> g % 64 == idx % 64
  {
    PosUnique(g, idx);
  }

  predicate SameWord(a: nat, b: nat) { b / PER_BLOCK == a / PER_BLOCK && b % PER_BLOCK / 64 == a % PER_BLOCK / 64 }

  /** A granule is determined by block, word and bit. */
  lemma {:induction false} PosUnique(a: nat, b: nat)
    ensures a == b <==> a / PER_BLOCK == b / PER_BLOCK && a % PER_BLOCK / 64 == b % PER_BLOCK / 64 && a % 64 == b % 64
  {
    assert a == a / PER_BLOCK * PER_BLOCK + a % PER_BLOCK && b == b / PER_BLOCK * PER_BLOCK + b % PER_BLOCK;
    assert a % PER_BLOCK == a % PER_BLOCK / 64 * 64 + a % PER_BLOCK % 64;
    assert b % PER_BLOCK == b % PER_BLOCK / 64 * 64 + b % PER_BLOCK % 64;
    BitPos(a);
    BitPos(b);
  }

  lemma {:induction false} BitPos(a: nat)
    ensures a % PER_BLOCK % 64 == a % 64
  {
    assert a == 64 * (64 * (a / PER_BLOCK)) + a % PER_BLOCK;
  }

  // ----- sets of granules -----

  /** Granules that the bytes [addr, addr + size) touch, as noteAlloc computes them. */
  function Touched(addr: nat, size: nat): set<nat> {
    var lo, hi := addr / GRANULE, (addr + size + GRANULE - 1) / GRANULE;
    Window(lo, hi - lo)
  }

  /** For a non-empty range these are exactly the granules of its bytes. */
  lemma {:induction false} TouchedBytes(addr: nat, size: nat, g: nat)
    requires size > 0
    ensures g in Touched(addr, size) <==> exists b :: addr <= b < addr + size && b / GRANULE == g
  {
    if g in Touched(addr, size) {
      var b := if addr <= g * GRANULE then g * GRANULE else addr;
      assert addr <= b < addr + size && b / GRANULE == g;
    }
  }

  /** Size of a request in granules; an empty request counts as one byte. */
  function Granules(size: nat): (n: nat)
    ensures n >= 1
  {
    ((if size == 0 then 1 else size) + GRANULE - 1) / GRANULE
  }

  predicate InWindow(g: nat, start: nat, n: int) { start <= g < start + n }

  function Window(start: nat, n: int): set<nat> {
    set g | 0 <= g < start + n && InWindow(g, start, n)
  }

  predicate Free(taken: set<nat>, start: nat, n: nat) {
    Window(start, n) !! taken
  }

  /** Some window of `n` granules below `size` is free. */
  ghost predicate HasWindow(taken: set<nat>, size: nat, n: nat) {
    exists s: nat :: s + n <= size && Free(taken, s, n)
  }

  lemma {:induction false} WindowTouched(start: nat, size0: nat)
    requires size0 > 0
    ensures Touched(start * GRANULE, size0) == Window(start, Granules(size0))
  {
    assert start * GRANULE / GRANULE == start;
    assert (start * GRANULE + size0 + GRANULE - 1) / GRANULE == start + (size0 + GRANULE - 1) / GRANULE;
  }

  class MemAlloc {
    const size: nat  // granules of program memory
    const mem: array<array?<bv64>>

    ghost predicate Valid()
      reads this, mem, mem[..]
    {
      && mem.Length == L1
      && size <= LIMIT && size % PER_BLOCK == 0
      && (forall i :: 0 <= i < L1 && mem[i] != null ==> mem[i].Length == L0 && mem[i] as object != mem)
      && (forall i, j :: 0 <= i < j < L1 && mem[i] != null ==> mem[i] != mem[j])
    }

    /** A word; blocks that were never touched read as zero. */
    function WordAt(i1: nat, i0: nat): bv64
      requires Valid() && i1 < L1 && i0 < L0
      reads this, mem, mem[..]
    {
      if mem[i1] == null then 0 else mem[i1][i0]
    }

    /** The word that holds bit `g`. */
    function WordOf(g: nat): bv64
      requires Valid() && g < LIMIT
      reads this, mem, mem[..]
    {
      WordAt(g / PER_BLOCK, g % PER_BLOCK / 64)
    }

    /** get */
    function Get(g: nat): bool
      requires Valid() && g < LIMIT
      reads this, mem, mem[..]
    {
      HasBit(WordOf(g), g % 64)
    }

    /** The granules in use. */
    ghost function Taken(): set<nat>
      requires Valid()
      reads this, mem, mem[..]
    {
      set g | 0 <= g < LIMIT && Get(g)
    }

    /** newMemAlloc; the source panics on sizes it cannot hold. */
    constructor (totalMemSize: nat)
      requires totalMemSize <= LIMIT * GRANULE && totalMemSize % (PER_BLOCK * GRANULE) == 0
      ensures Valid() && fresh(mem) && size == totalMemSize / GRANULE && Taken() == {}
      ensures forall i :: 0 <= i < L1 && mem[i] != null ==> fresh(mem[i])
    {
      size := totalMemSize / GRANULE;
      var buf := new bv64[L0](_ => 0);
      mem := new array?<bv64>[L1](i => if i == 0 then buf else null);
      new;
      assert forall g :: 0 <= g < LIMIT ==> !Get(g);
    }

    /** The word of one granule gets its bit. */
    method SetWord(idx: nat)
      requires Valid() && idx < LIMIT
      modifies mem, mem[..]
      ensures Valid() && SameBlocks()
      ensures forall g :: 0 <= g < LIMIT ==>
        WordOf(g) == if SameWord(idx, g) then old(WordOf(idx)) | Bit(idx % 64) else old(WordOf(g))
    {
      var i1 := idx / PER_BLOCK;
      var i0 := idx % PER_BLOCK / 64;
      Touch(i1);
      PutWord(i1, i0, mem[i1][i0] | Bit(idx % 64));
    }

    /** set: the bit of one granule goes up, no other changes. */
    method Set(idx: nat)
      requires Valid() && idx < LIMIT
      modifies mem, mem[..]
      ensures Valid() && SameBlocks()
      ensures forall g :: 0 <= g < LIMIT ==> (Get(g) <==> old(Get(g)) || g == idx)
    {
      SetWord(idx);
      forall g | 0 <= g < LIMIT ensures (Get(g) <==> old(Get(g)) || g == idx) {
        SetPos(idx, g, old(WordOf(idx)), old(WordOf(g)), WordOf(g));
      }
    }

    /** Blocks stay where they are; new ones may appear. */
    twostate predicate SameBlocks()
      requires mem.Length == L1
      reads this, mem
    {
      forall i :: 0 <= i < L1 && mem[i] != null ==> mem[i] == old(mem[i]) || fresh(mem[i])
    }

    method PutWord(i1: nat, i0: nat, w: bv64)
      requires Valid() && i1 < L1 && i0 < L0 && mem[i1] != null
      modifies mem[i1]
      ensures Valid()
      ensures forall g :: 0 <= g < LIMIT ==>
                WordOf(g) == if g / PER_BLOCK == i1 && g % PER_BLOCK / 64 == i0 then w else old(WordOf(g))
    {
      mem[i1][i0] := w;
    }

    /** Allocate a block of zeros on first use. */
    method Touch(i1: nat)
      requires Valid() && i1 < L1
      modifies mem
      ensures Valid() && mem[i1] != null && (forall i :: 0 <= i < L1 && i != i1 ==> mem[i] == old(mem[i]))
      ensures mem[i1] == old(mem[i1]) || fresh(mem[i1])
      ensures forall g :: 0 <= g < LIMIT ==> WordOf(g) == old(WordOf(g))
    {
      if mem[i1] == null {
        var block := new bv64[L0](_ => 0);
        mem[i1] := block;
      }
    }

    /** noteAlloc: exactly the granules the range touches become taken. */
    method NoteAlloc(addr0: nat, size0: nat)
      requires Valid() && (addr0 + size0 + GRANULE - 1) / GRANULE <= LIMIT
      modifies mem, mem[..]
      ensures Valid() && SameBlocks()
      ensures Taken() == old(Taken()) + Touched(addr0, size0)
    {
      var addr := addr0 / GRANULE;
      var size := (addr0 + size0 + GRANULE - 1) / GRANULE - addr;
      var i := 0;
      while i < size
        invariant 0 <= i && (i <= size || size < 0) && Valid() && SameBlocks()
        invariant forall g :: 0 <= g < LIMIT ==> (Get(g) <==> old(Get(g)) || InWindow(g, addr, i))
      {
        Set(addr + i);
        i := i + 1;
      }
    }

    /** bankruptcy: everything inside program memory is free again. */
    method Bankruptcy()
      requires Valid()
      modifies mem[..]
      ensures Valid()
      ensures forall g :: 0 <= g < LIMIT ==> (Get(g) <==> old(Get(g)) && g >= size)
    {
      var i1 := 0;
      while i1 < size / PER_BLOCK
        invariant 0 <= i1 <= size / PER_BLOCK && Valid()
        invariant forall g :: 0 <= g < LIMIT ==> WordOf(g) == if g / PER_BLOCK < i1 then 0 else old(WordOf(g))
      {
        if mem[i1] != null {
          ClearBlock(i1);
        }
        i1 := i1 + 1;
      }
      assert size / PER_BLOCK * PER_BLOCK == size;
    }

    method ClearBlock(i1: nat)
      requires Valid() && i1 < L1 && mem[i1] != null
      modifies mem[i1]
      ensures Valid()
      ensures forall g :: 0 <= g < LIMIT ==> WordOf(g) == if g / PER_BLOCK == i1 then 0 else old(WordOf(g))
    {
      var block := mem[i1];
      var i0 := 0;
      while i0 < L0
        invariant 0 <= i0 <= L0 && Valid() && block == mem[i1]
        invariant forall k :: 0 <= k < i0 ==> block[k] == 0
      {
        block[i0] := 0;
        i0 := i0 + 1;
      }
    }

    /** The inner loop of alloc: is a window free? */
    method IsFree(start: nat, n: nat) returns (empty: bool)
      requires Valid() && start + n <= LIMIT
      ensures empty <==> Free(Taken(), start, n)
    {
      var i := 0;
      while i < n
        invariant 0 <= i <= n
        invariant forall g :: 0 <= g < LIMIT && InWindow(g, start, i) ==> !Get(g)
      {
        if Get(start + i) {
          assert start + i in Window(start, n) && start + i in Taken();
          return false;
        }
        i := i + 1;
      }
      return true;
    }

    /** The outer loop of alloc: the lowest free window, or none. */
    method FindWindow(n: nat) returns (found: bool, start: nat)
      requires Valid() && n <= size
      ensures found <==> HasWindow(Taken(), size, n)
      ensures found ==> start + n <= size && Free(Taken(), start, n) && forall s: nat ::
          s < start ==> !Free(Taken(), s, n)
    {
      start := 0;
      while start <= size - n
        invariant start <= size - n + 1
        invariant forall s: nat :: s < start ==> !Free(Taken(), s, n)
      {
        found := IsFree(start, n);
        if found {
          return;
        }
        start := start + 1;
      }
      found := false;
    }

    /** alloc: the lowest free window, or after bankruptcy the start of memory.  The recursion
        is at most one level deep for requests that fit into memory. */
    method Alloc(size0: nat) returns (addr: nat)
      requires Valid() && Granules(size0) <= size
      modifies mem, mem[..]
      ensures Valid() && SameBlocks()
      ensures addr % GRANULE == 0 && addr / GRANULE + Granules(size0) <= size
      ensures var n, start, was := Granules(size0), addr / GRANULE, old(Taken());
              if HasWindow(was, size, n)
              then Free(was, start, n) && (forall s: nat :: s < start ==> !Free(was, s, n)) &&
                  Taken() == was + Window(start, n)
              else addr == 0 && Taken() == Above(was, size) + Window(0, n)
      decreases if HasWindow(Taken(), size, Granules(size0)) then 0 else 1
    {
      var size1 := if size0 == 0 then 1 else size0;
      var n := (size1 + GRANULE - 1) / GRANULE;
      var found, start := FindWindow(n);
      if found {
        WindowTouched(start, size1);
        NoteAlloc(start * GRANULE, size1);
        return start * GRANULE;
      }
      ghost var was := Taken();
      Bankruptcy();
      assert Taken() == Above(was, size);
      assert Free(Above(was, size), 0, n) && HasWindow(Above(was, size), size, n);
      addr := Alloc(size1);
    }

    /** One operation; for a note the address is the given one. */
    method Perform(op: Op) returns (addr: nat)
      requires Valid() && OpOk(size, op)
      modifies mem, mem[..]
      ensures Valid() && SameBlocks() && OpStep(size, old(Taken()), op, addr, Taken())
    {
      match op {
        case Note(a, n) =>
          NoteAlloc(a, n);
          addr := a;
        case Request(n) => addr := Alloc(n);
      }
    }

    /** Any list of operations.  Every allocation is apart from all ranges noted or handed out
        before it, as long as there was no bankruptcy in between. */
    method PerformAll(ops: seq<Op>) returns (addrs: seq<nat>, ghost takens: seq<set<nat>>)
      requires Valid() && forall i :: 0 <= i < |ops| ==> OpOk(size, ops[i])
      modifies mem, mem[..]
      ensures Valid() && SameBlocks() && IsRun(size, takens, ops, addrs)
      ensures takens[0] == old(Taken()) && takens[|ops|] == Taken()
      ensures forall i, j :: 0 <= i < j < |ops| && ops[j].Request? && NoBankruptcy(size, takens, ops, i, j) ==>
                RangeOf(ops[i], addrs[i]) !! RangeOf(ops[j], addrs[j])
    {
      addrs, takens := [], [Taken()];
      for n := 0 to |ops|
        invariant Valid() && SameBlocks() && |addrs| == n && |takens| == n + 1
        invariant takens[0] == old(Taken()) && takens[n] == Taken()
        invariant forall i :: 0 <= i < n ==> OpStep(size, takens[i], ops[i], addrs[i], takens[i + 1])
      {
        var addr := Perform(ops[n]);
        addrs, takens := addrs + [addr], takens + [Taken()];
      }
      forall i, j | 0 <= i < j < |ops| && ops[j].Request? && NoBankruptcy(size, takens, ops, i, j)
        ensures RangeOf(ops[i], addrs[i]) !! RangeOf(ops[j], addrs[j])
      {
        NoOverlap(size, takens, ops, addrs, i, j);
      }
    }
  }

  /** What bankruptcy leaves: granules noted outside program memory. */
  function Above(taken: set<nat>, size: nat): set<nat> {
    set g | g in taken && g >= size
  }

  // ----- runs of the memory allocator -----

  datatype Op = Note(addr: nat, size: nat) | Request(size: nat)

  /** Notes lie below the limit of the bitmap and requests fit into memory. */
  predicate OpOk(memSize: nat, op: Op) {
    match op
    case Note(a, n) => (a + n + GRANULE - 1) / GRANULE <= LIMIT
    case Request(n) => Granules(n) <= memSize
  }

  /** One operation with its contract from above: `addr` is what a request returned. */
  ghost predicate OpStep(memSize: nat, before: set<nat>, op: Op, addr: nat, after: set<nat>) {
    match op
    case Note(a, n) => addr == a && after == before + Touched(a, n)
    case Request(n0) =>
      var n, start := Granules(n0), addr / GRANULE;
      && addr % GRANULE == 0
      && if HasWindow(before, memSize, n)
         then Free(before, start, n) && after == before + Window(start, n)
         else addr == 0 && after == Above(before, memSize) + Window(0, n)
  }

  ghost predicate IsBankruptcy(memSize: nat, before: set<nat>, op: Op) {
    op.Request? && !HasWindow(before, memSize, Granules(op.size))
  }

  ghost predicate NoBankruptcy(memSize: nat, takens: seq<set<nat>>, ops: seq<Op>, i: nat, j: nat)
    requires j < |ops| <= |takens|
  {
    forall k :: i < k <= j ==> !IsBankruptcy(memSize, takens[k], ops[k])
  }

  /** A run: `takens[i]` is the state before operation i. */
  ghost predicate IsRun(memSize: nat, takens: seq<set<nat>>, ops: seq<Op>, addrs: seq<nat>) {
    && |takens| == |ops| + 1 && |addrs| == |ops|
    && forall i :: 0 <= i < |ops| ==> OpStep(memSize, takens[i], ops[i], addrs[i], takens[i + 1])
  }

  function RangeOf(op: Op, addr: nat): set<nat> {
    match op
    case Note(a, n) => Touched(a, n)
    case Request(n0) => Window(addr / GRANULE, Granules(n0))
  }

  lemma {:induction false} RangeStaysTaken(memSize: nat, takens: seq<set<nat>>, ops: seq<Op>, addrs: seq<nat>, i: nat,
      j: nat)
    requires IsRun(memSize, takens, ops, addrs) && i < j <= |ops|
    requires forall k :: i < k < j ==> !IsBankruptcy(memSize, takens[k], ops[k])
    ensures RangeOf(ops[i], addrs[i]) <= takens[j]
    decreases j
  {
    assert OpStep(memSize, takens[j - 1], ops[j - 1], addrs[j - 1], takens[j]);
    if i < j - 1 {
      RangeStaysTaken(memSize, takens, ops, addrs, i, j - 1);
    }
  }

  /** In every run an allocation overlaps nothing that was noted or handed out since the last
      bankruptcy. */
  lemma {:induction false} NoOverlap(memSize: nat, takens: seq<set<nat>>, ops: seq<Op>, addrs: seq<nat>, i: nat, j: nat)
    requires IsRun(memSize, takens, ops, addrs) && i < j < |ops| && ops[j].Request?
    requires forall k :: i < k <= j ==> !IsBankruptcy(memSize, takens[k], ops[k])
    ensures RangeOf(ops[i], addrs[i]) !! RangeOf(ops[j], addrs[j])
  {
    RangeStaysTaken(memSize, takens, ops, addrs, i, j);
    assert OpStep(memSize, takens[j], ops[j], addrs[j], takens[j + 1]);
  }

  // ----- pages -----

  const TWO64 := Ir.TWO64

  /** The random decisions of one vmaAlloc.alloc. */
  datatype Dice = Dice(anew: bool, four: nat, low: bool, pick: nat, shift: bool, off: nat)

  predicate DiceOk(d: Dice, nused: nat, size: nat) {
    && d.four < 4
    && (nused > 0 ==> d.pick < nused)
    && (size > 0 ==> d.off < size)
  }

  /** The page alloc settles on, in 64-bit arithmetic. */
  function PickPage(numPages: nat, used: seq<nat>, size: nat, d: Dice): (r: nat)
    requires DiceOk(d, |used|, size) && numPages < TWO64 && size <= numPages && forall p :: p in used ==> p < TWO64
  {
    if used == [] || d.anew then
      if d.low then d.four else (numPages - d.four - size) % TWO64
    else
      var page := used[d.pick];
      var page1 := if size > 1 && d.shift then page - (if d.off > page then page else d.off) else page;
      if (page1 + size) % TWO64 > numPages then numPages - size else page1
  }

  predicate BadPage(numPages: nat, page: nat, size: nat) {
    page >= numPages || size > numPages || (page + size) % TWO64 > numPages
  }

  /** Under 64-bit wrap-around: no random choice makes alloc panic exactly when the request is
      non-empty and leaves three pages. */
  lemma {:induction false} NeverPanicsIff(numPages: nat, used: seq<nat>, size: nat)
    requires size <= numPages <= TWO64 / 2 && forall p :: p in used ==> p < numPages
    ensures (forall d :: DiceOk(d, |used|, size) ==> !BadPage(numPages, PickPage(numPages, used, size, d), size))
            <==> 1 <= size && size + 3 <= numPages
  {
    if size == 0 {
      var d := Dice(true, 0, false, 0, false, 0);
      assert DiceOk(d, |used|, size) && PickPage(numPages, used, size, d) == numPages;
    } else if size + 3 > numPages {
      var d := Dice(true, 3, false, 0, false, 0);
      assert DiceOk(d, |used|, size);
      assert PickPage(numPages, used, size, d) == numPages - 3 - size + TWO64;
    } else {
      forall d | DiceOk(d, |used|, size) ensures !BadPage(numPages, PickPage(numPages, used, size, d), size) {
        if used != [] && !d.anew { assert used[d.pick] in used; }
      }
    }
  }

  class VmaAlloc {
    const numPages: nat
    var used: seq<nat>
    var m: set<nat>

    /** `used` lists the keys of `m`, each once. */
    ghost predicate Valid()
      reads this
    {
      && (forall i, j :: 0 <= i < j < |used| ==> used[i] != used[j])
      && (forall p :: p in used <==> p in m)
      && numPages <= TWO64 / 2
      && (forall p :: p in m ==> p < TWO64)
    }

    constructor (totalPages: nat)
      requires totalPages <= TWO64 / 2
      ensures Valid() && numPages == totalPages && m == {}
    {
      numPages, used, m := totalPages, [], {};
    }

    /** noteAlloc; the end of the range is computed in 64 bits. */
    method NoteAlloc(page: nat, size: nat)
      requires Valid() && page < TWO64
      modifies this
      ensures Valid()
      ensures m == old(m) + Window(page, (page + size) % TWO64 - page)
    {
      var i := page;
      var end := (page + size) % TWO64;
      while i < end
        invariant page <= i && (i <= end || end < page) && (end < page ==> i == page)
        invariant Valid()
        invariant m == old(m) + Window(page, i - page)
      {
        if i !in m {
          m := m + {i};
          used := used + [i];
        }
        assert Window(page, i + 1 - page) == Window(page, i - page) + {i};
        i := i + 1;
      }
    }

    /** The page alloc settles on. */
    method Pick(size: nat, d: Dice) returns (page: nat)
      requires Valid() && DiceOk(d, |used|, size) && size <= numPages
      ensures page == PickPage(numPages, used, size, d)
    {
      if |used| == 0 || d.anew {
        page := d.four;
        if !d.low {
          page := (numPages - page - size) % TWO64;
        }
      } else {
        page := used[d.pick];
        if size > 1 && d.shift {
          var off := d.off;
          if off > page {
            off := page;
          }
          page := page - off;
        }
        if (page + size) % TWO64 > numPages {
          page := numPages - size;
        }
      }
    }

    /** alloc; None is a panic. */
    method Alloc(size: nat, d: Dice) returns (r: Ir.Option<nat>)
      requires Valid() && DiceOk(d, |used|, size)
      modifies this
      ensures Valid()
      ensures r == if size > numPages || BadPage(numPages, PickPage(numPages, old(used), size, d), size)
                   then Ir.None else Ir.Some(PickPage(numPages, old(used), size, d))
      ensures r.Some? ==> r.value + size <= numPages && m == old(m) + Window(r.value, size)
    {
      if size > numPages {
        return Ir.None;
      }
      var page := Pick(size, d);
      if page >= numPages || size > numPages || (page + size) % TWO64 > numPages {
        return Ir.None;
      }
      NoteAlloc(page, size);
      return Ir.Some(page);
    }
  }
}
