/**
  Runtime checksums: the Internet checksum of executor/common.h (sections 1, 2 and 4.1 of
  RFC 1071), the checksum copyins of executor/executor.cc and the pseudo-headers composed
  by prog/checksum.go (section 3.1 of RFC 793, section 8.1 of RFC 2460).

  Checksums may be nested: a covered region may hold other checksum fields, at higher
  addresses.  Emitted in descending address order they are all right at once.
 */
module Checksum {
  import opened Ir

  const TWO32: nat := 0x1_0000_0000

  // ----- arithmetic -----

  /** The one's complement value of a sum: 0 for 0, otherwise 1..0xffff. */
  function Norm(n: nat): (r: nat)
    ensures r <= 0xffff
  {
    if n == 0 then 0 else (n - 1) % 0xffff + 1
  }

  /** A 16-bit word as a little-endian host reads it. */
  function Word(lo: Byte, hi: Byte): nat { lo + 256 * hi }

  /** Sum of the 16-bit words at a memory region of a little-endian host, odd byte last. */
  function WordSum(data: seq<Byte>): nat {
    if data == [] then 0
    else if |data| == 1 then data[0]
    else Word(data[0], data[1]) + WordSum(data[2..])
  }

  /** A 16-bit store: `lo` at `f`, `hi` behind it. */
  function Store(mem: seq<Byte>, f: nat, lo: Byte, hi: Byte): (r: seq<Byte>)
    requires f + 2 <= |mem|
    ensures |r| == |mem|
  {
    mem[f := lo][f + 1 := hi]
  }

  lemma {:induction false} NormSmall(n: nat)
    requires n <= 0xffff
    ensures Norm(n) == n
  {
  }

  /** Norm depends only on the residue and on being zero. */
  lemma {:induction false} NormCongruent(a: nat, b: nat, k: int)
    requires a - b == 0xffff * k && (a == 0 <==> b == 0)
    ensures Norm(a) == Norm(b)
  {
    if a != 0 {
      assert (a - 1) - (b - 1) == 0xffff * k;
      ModUnique((b - 1) / 0xffff + k, (b - 1) % 0xffff, a - 1);
    }
  }

  lemma {:induction false} ModUnique(q: int, r: nat, n: nat)
    requires r < 0xffff && n == 0xffff * q + r
    ensures n % 0xffff == r
  {
  }

  lemma {:induction false} NormSplit(n: nat)
    ensures exists k: int :: n - Norm(n) == 0xffff * k
    ensures Norm(n) == 0 <==> n == 0
  {
    if n != 0 {
      assert n - Norm(n) == 0xffff * ((n - 1) / 0xffff);
    } else {
      assert n - Norm(n) == 0xffff * 0;
    }
  }

  /** Folding in stages gives the same value. */
  lemma {:induction false} NormAdd(a: nat, b: nat)
    ensures Norm(Norm(a) + b) == Norm(a + b)
  {
    NormSplit(a);
    var k: int :| a - Norm(a) == 0xffff * k;
    NormCongruent(a + b, Norm(a) + b, k);
  }

  /** Adding the complement of a sum gives all ones. */
  lemma {:induction false} NormComplement(n: nat)
    ensures Norm(n + (0xffff - Norm(n))) == 0xffff
  {
    NormSplit(n);
    var k: int :| n - Norm(n) == 0xffff * k;
    NormCongruent(n + (0xffff - Norm(n)), 0xffff, k);
  }

  lemma {:induction false} WordSumAppend(a: seq<Byte>, b: seq<Byte>)
    requires |a| % 2 == 0
    ensures WordSum(a + b) == WordSum(a) + WordSum(b)
    decreases |a|
  {
    if a == [] {
      assert a + b == b;
    } else {
      WordSumAppend(a[2..], b);
      assert (a + b)[2..] == a[2..] + b;
    }
  }

  lemma {:induction false} WordSumBound(data: seq<Byte>)
    ensures WordSum(data) <= 0xffff * ((|data| + 1) / 2)
    decreases |data|
  {
    if |data| >= 2 { WordSumBound(data[2..]); }
  }

  lemma {:induction false} WordSumSnoc(data: seq<Byte>, n: nat)
    requires n % 2 == 0 && n + 2 <= |data|
    ensures WordSum(data[..n + 2]) == WordSum(data[..n]) + Word(data[n], data[n + 1])
  {
    var w := [data[n], data[n + 1]];
    assert data[..n + 2] == data[..n] + w;
    WordSumAppend(data[..n], w);
    assert w[2..] == [];
  }

  /** Storing a word at an even offset over zeros adds its value. */
  lemma {:induction false} WordSumStore(data: seq<Byte>, n: nat, lo: Byte, hi: Byte)
    requires n % 2 == 0 && n + 2 <= |data| && data[n] == 0 && data[n + 1] == 0
    ensures WordSum(Store(data, n, lo, hi)) == WordSum(data) + Word(lo, hi)
    decreases n
  {
    var after := Store(data, n, lo, hi);
    if n == 0 {
      assert after[2..] == data[2..];
    } else {
      WordSumStore(data[2..], n - 2, lo, hi);
      assert after[2..] == Store(data[2..], n - 2, lo, hi);
    }
  }

  // ----- csum_inet_update -----

  /** The loop over whole words; the accumulator is a 32-bit word and wraps. */
  method AddPairs(acc0: nat, data: seq<Byte>) returns (acc: nat)
    requires acc0 < TWO32 && |data| % 2 == 0
    ensures acc == (acc0 + WordSum(data)) % TWO32
  {
    acc := acc0;
    var i := 0;
    while i < |data|
      invariant 0 <= i <= |data| && i % 2 == 0
      invariant acc == (acc0 + WordSum(data[..i])) % TWO32
      decreases |data| - i
    {
      WordSumSnoc(data, i);
      WrapAdd(acc0 + WordSum(data[..i]), Word(data[i], data[i + 1]));
      acc := (acc + Word(data[i], data[i + 1])) % TWO32;
      i := i + 2;
    }
    assert data[..i] == data;
  }

  /** Whole words first, then an odd last byte. */
  method AddWords(acc0: nat, data: seq<Byte>) returns (acc: nat)
    requires acc0 < TWO32
    ensures acc == (acc0 + WordSum(data)) % TWO32
  {
    var n := |data| - |data| % 2;
    acc := AddPairs(acc0, data[..n]);
    if n < |data| {
      assert data == data[..n] + [data[n]];
      WordSumAppend(data[..n], [data[n]]);
      WrapAdd(acc0 + WordSum(data[..n]), data[n]);
      acc := (acc + data[n]) % TWO32;
    } else {
      assert data[..n] == data;
    }
  }

  lemma {:induction false} WrapAdd(a: nat, b: nat)
    ensures (a % TWO32 + b) % TWO32 == (a + b) % TWO32
  {
    var q := a / TWO32;
    assert a == TWO32 * q + a % TWO32;
    assert a + b == (a % TWO32 + b) + TWO32 * q;
    WrapMultiple(a % TWO32 + b, q);
  }

  lemma {:induction false} WrapMultiple(a: nat, q: nat)
    ensures (a + TWO32 * q) % TWO32 == a % TWO32
  {
  }

  /** The folding loop. */
  method Fold(sum: nat) returns (acc: nat)
    ensures acc == Norm(sum)
  {
    acc := sum;
    while acc > 0xffff
      invariant Norm(acc) == Norm(sum)
      decreases acc
    {
      FoldStep(acc);
      acc := acc % 0x1_0000 + acc / 0x1_0000;
    }
    NormSmall(acc);
  }

  /** csum_inet_update: right for at most 65536 words per update. */
  method Update(acc0: nat, data: seq<Byte>) returns (acc: nat)
    requires acc0 <= 0xffff
    ensures (|data| + 1) / 2 <= 0x1_0000 ==> acc == Norm(acc0 + WordSum(data))
    ensures acc <= 0xffff
  {
    if |data| == 0 {
      NormSmall(acc0);
      return acc0;
    }
    var sum := AddWords(acc0, data);
    acc := Fold(sum);
    WordSumBound(data);
  }

  lemma {:induction false} FoldStep(acc: nat)
    requires acc > 0xffff
    ensures acc % 0x1_0000 + acc / 0x1_0000 < acc
    ensures Norm(acc % 0x1_0000 + acc / 0x1_0000) == Norm(acc)
  {
    NormCongruent(acc, acc % 0x1_0000 + acc / 0x1_0000, acc / 0x1_0000);
  }

  /** The bound is tight: one more word of all ones overflows a full accumulator, and the
      wrapped sum has another one's complement value. */
  lemma {:induction false} UpdateBoundIsTight()
    ensures var data := seq(2 * 0x1_0001, _ => 255);
            var exact := 0xffff + WordSum(data);
            exact >= TWO32 && Norm(exact % TWO32) != Norm(exact)
  {
    OnesSum(0x1_0001);
  }

  lemma {:induction false} OnesSum(n: nat)
    ensures WordSum(seq(2 * n, _ => 255)) == n * 0xffff
    decreases n
  {
    if n > 0 {
      OnesSum(n - 1);
      assert seq(2 * n, _ => 255)[2..] == seq(2 * (n - 1), _ => 255);
    }
  }

  // ----- checksum instructions -----

  datatype Chunk = DataChunk(addr: nat, size: nat) | ConstChunk(bytes: seq<Byte>)

  datatype Instr = Instr(field: nat, chunks: seq<Chunk>)

  /** 65536 words: what one update of the accumulator takes. */
  const MAX_CHUNK := 0x2_0000

  predicate ChunkIn(c: Chunk, limit: nat) {
    match c
    case DataChunk(addr, size) => addr + size <= limit && size <= MAX_CHUNK
    case ConstChunk(bytes) => |bytes| == 2 || |bytes| == 4 || |bytes| == 8
  }

  function ChunkBytes(c: Chunk, mem: seq<Byte>): seq<Byte>
    requires ChunkIn(c, |mem|)
  {
    match c
    case DataChunk(addr, size) => mem[addr..addr + size]
    case ConstChunk(bytes) => bytes
  }

  predicate ChunksIn(cs: seq<Chunk>, limit: nat) {
    forall i :: 0 <= i < |cs| ==> ChunkIn(cs[i], limit)
  }

  /** Sum of the words of all chunks, each chunk padded on its own. */
  function ChunkSum(cs: seq<Chunk>, mem: seq<Byte>): nat
    requires ChunksIn(cs, |mem|)
  {
    if cs == [] then 0 else WordSum(ChunkBytes(cs[0], mem)) + ChunkSum(cs[1..], mem)
  }

  /** What a receiver computes over the chunks. */
  function Checked(cs: seq<Chunk>, mem: seq<Byte>): nat
    requires ChunksIn(cs, |mem|)
  {
    Norm(ChunkSum(cs, mem))
  }

  method AddChunk(acc0: nat, c: Chunk, mem: array<Byte>) returns (acc: nat)
    requires acc0 <= 0xffff && ChunkIn(c, mem.Length)
    ensures acc == Norm(acc0 + WordSum(ChunkBytes(c, mem[..])))
  {
    match c
    case DataChunk(addr, size) =>
      assert mem[addr..addr + size] == mem[..][addr..addr + size];
      acc := Update(acc0, mem[addr..addr + size]);
    case ConstChunk(bytes) => acc := Update(acc0, bytes);
  }

  lemma {:induction false} AccumulateStep(acc: nat, cs: seq<Chunk>, i: nat, m: seq<Byte>)
    requires i < |cs| && ChunksIn(cs, |m|)
    ensures Norm(Norm(acc + WordSum(ChunkBytes(cs[i], m))) + ChunkSum(cs[i + 1..], m)) ==
        Norm(acc + ChunkSum(cs[i..], m))
  {
    assert cs[i..][1..] == cs[i + 1..];
    NormAdd(acc + WordSum(ChunkBytes(cs[i], m)), ChunkSum(cs[i + 1..], m));
  }

  method AccumulateNext(acc: nat, cs: seq<Chunk>, i: nat, mem: array<Byte>) returns (r: nat)
    requires i < |cs| && acc <= 0xffff && ChunksIn(cs, mem.Length)
    ensures r <= 0xffff && Norm(r + ChunkSum(cs[i + 1..], mem[..])) == Norm(acc + ChunkSum(cs[i..], mem[..]))
  {
    AccumulateStep(acc, cs, i, mem[..]);
    r := AddChunk(acc, cs[i], mem);
  }

  /** The chunk loop of the arg_csum_inet case. */
  method Accumulate(cs: seq<Chunk>, mem: array<Byte>) returns (acc: nat)
    requires ChunksIn(cs, mem.Length)
    ensures acc == Checked(cs, mem[..])
  {
    acc := 0;
    ghost var m := mem[..];
    var i := 0;
    while i < |cs|
      invariant 0 <= i <= |cs| && acc <= 0xffff
      invariant Norm(acc + ChunkSum(cs[i..], m)) == Checked(cs, m)
    {
      acc := AccumulateNext(acc, cs, i, mem);
      i := i + 1;
    }
    assert cs[|cs|..] == [];
    NormSmall(acc);
  }

  /** A data chunk that does not touch the two bytes at `f`. */
  predicate Apart(c: Chunk, f: nat) {
    c.DataChunk? ==> c.addr + c.size <= f || f + 2 <= c.addr
  }

  /** Exactly one chunk covers the field, at an even offset. */
  predicate CoversOnce(cs: seq<Chunk>, f: nat) {
    exists k :: 0 <= k < |cs| && cs[k].DataChunk? && cs[k].addr <= f && f + 2 <= cs[k].addr + cs[k].size
                && (f - cs[k].addr) % 2 == 0
                && forall j :: 0 <= j < |cs| && j != k ==> Apart(cs[j], f)
  }

  lemma {:induction false} StoreApart(cs: seq<Chunk>, mem: seq<Byte>, f: nat, lo: Byte, hi: Byte)
    requires f + 2 <= |mem| && ChunksIn(cs, |mem|) && forall j :: 0 <= j < |cs| ==> Apart(cs[j], f)
    ensures ChunkSum(cs, Store(mem, f, lo, hi)) == ChunkSum(cs, mem)
    decreases cs
  {
    if cs != [] {
      assert ChunkBytes(cs[0], Store(mem, f, lo, hi)) == ChunkBytes(cs[0], mem);
      StoreApart(cs[1..], mem, f, lo, hi);
    }
  }

  lemma {:induction false} StoreCovered(cs: seq<Chunk>, mem: seq<Byte>, f: nat, lo: Byte, hi: Byte)
    requires f + 2 <= |mem| && ChunksIn(cs, |mem|) && CoversOnce(cs, f) && mem[f] == 0 && mem[f + 1] == 0
    ensures ChunkSum(cs, Store(mem, f, lo, hi)) == ChunkSum(cs, mem) + Word(lo, hi)
    decreases cs
  {
    var after := Store(mem, f, lo, hi);
    var k :| 0 <= k < |cs| && cs[k].DataChunk? && cs[k].addr <= f && f + 2 <= cs[k].addr + cs[k].size
             && (f - cs[k].addr) % 2 == 0 && forall j :: 0 <= j < |cs| && j != k ==> Apart(cs[j], f);
    if k == 0 {
      var c := cs[0];
      var n := f - c.addr;
      WordSumStore(ChunkBytes(c, mem), n, lo, hi);
      assert ChunkBytes(c, after) == Store(ChunkBytes(c, mem), n, lo, hi);
      forall j | 0 <= j < |cs[1..]| ensures Apart(cs[1..][j], f) { assert cs[1..][j] == cs[j + 1]; }
      StoreApart(cs[1..], mem, f, lo, hi);
    } else {
      assert ChunkBytes(cs[0], after) == ChunkBytes(cs[0], mem);
      assert cs[1..][k - 1] == cs[k];
      assert CoversOnce(cs[1..], f) by {
        forall j | 0 <= j < |cs[1..]| && j != k - 1 ensures Apart(cs[1..][j], f) { assert cs[1..][j] == cs[j + 1]; }
      }
      StoreCovered(cs[1..], mem, f, lo, hi);
    }
  }

  /** One checksum instruction: the covered chunks sum to all ones afterwards. */
  method RunOne(ins: Instr, mem: array<Byte>)
    requires ins.field + 2 <= mem.Length && ChunksIn(ins.chunks, mem.Length) && CoversOnce(ins.chunks, ins.field)
    requires mem[ins.field] == 0 && mem[ins.field + 1] == 0
    modifies mem
    ensures Checked(ins.chunks, mem[..]) == 0xffff
    ensures forall i :: 0 <= i < mem.Length && i != ins.field && i != ins.field + 1 ==> mem[i] == old(mem[i])
  {
    var acc := Accumulate(ins.chunks, mem);
    var lo, hi := Digest(acc);
    ghost var m := mem[..];
    ComplementStored(ins.chunks, m, ins.field, lo, hi);
    mem[ins.field], mem[ins.field + 1] := lo, hi;
    assert mem[..] == Store(m, ins.field, lo, hi);
  }

  /** csum_inet_digest, as the two bytes it is stored in. */
  method Digest(acc: nat) returns (lo: Byte, hi: Byte)
    requires acc <= 0xffff
    ensures Word(lo, hi) == 0xffff - acc
  {
    lo, hi := (0xffff - acc) % 256, (0xffff - acc) / 256;
  }

  lemma {:induction false} ComplementStored(cs: seq<Chunk>, mem: seq<Byte>, f: nat, lo: Byte, hi: Byte)
    requires f + 2 <= |mem| && ChunksIn(cs, |mem|) && CoversOnce(cs, f) && mem[f] == 0 && mem[f + 1] == 0
    requires Word(lo, hi) == 0xffff - Checked(cs, mem)
    ensures Checked(cs, Store(mem, f, lo, hi)) == 0xffff
  {
    StoreCovered(cs, mem, f, lo, hi);
    NormComplement(ChunkSum(cs, mem));
  }

  /** The instructions writeChecksums emits: fields in descending order and apart, each field
      covered once, and no field of a later instruction inside the chunks of an earlier one. */
  predicate Nested(instrs: seq<Instr>, limit: nat) {
    && (forall i :: 0 <= i < |instrs| ==>
          instrs[i].field + 2 <= limit && ChunksIn(instrs[i].chunks, limit) &&
              CoversOnce(instrs[i].chunks, instrs[i].field))
    && (forall i, j :: 0 <= i < j < |instrs| ==>
          && instrs[j].field + 2 <= instrs[i].field
          && forall c :: c in instrs[i].chunks ==> Apart(c, instrs[j].field))
  }

  /** A byte of no checksum field. */
  predicate Outside(instrs: seq<Instr>, k: nat) {
    forall i :: 0 <= i < |instrs| ==> k != instrs[i].field && k != instrs[i].field + 1
  }

  /** After all checksum instructions every covered region, with its pseudo-header, sums to
      all ones, at once; no other byte changed. */
  method RunChecksums(instrs: seq<Instr>, mem: array<Byte>)
    requires Nested(instrs, mem.Length)
    requires forall i :: 0 <= i < |instrs| ==> mem[instrs[i].field] == 0 && mem[instrs[i].field + 1] == 0
    modifies mem
    ensures forall i :: 0 <= i < |instrs| ==> Checked(instrs[i].chunks, mem[..]) == 0xffff
    ensures forall k :: 0 <= k < mem.Length && Outside(instrs, k) ==> mem[k] == old(mem[k])
  {
    var n := 0;
    while n < |instrs|
      invariant 0 <= n <= |instrs|
      invariant forall i :: 0 <= i < n ==> Checked(instrs[i].chunks, mem[..]) == 0xffff
      invariant forall i :: n <= i < |instrs| ==> mem[instrs[i].field] == 0 && mem[instrs[i].field + 1] == 0
      invariant forall k :: 0 <= k < mem.Length && Outside(instrs, k) ==> mem[k] == old(mem[k])
    {
      RunNext(instrs, n, mem);
      n := n + 1;
    }
  }

  /** One instruction among the others. */
  method RunNext(instrs: seq<Instr>, n: nat, mem: array<Byte>)
    requires Nested(instrs, mem.Length) && n < |instrs|
    requires mem[instrs[n].field] == 0 && mem[instrs[n].field + 1] == 0
    modifies mem
    ensures Checked(instrs[n].chunks, mem[..]) == 0xffff
    ensures forall i :: 0 <= i < n ==> Checked(instrs[i].chunks, mem[..]) == old(Checked(instrs[i].chunks, mem[..]))
    ensures forall i :: n < i < |instrs| ==>
      mem[instrs[i].field] == old(mem[instrs[i].field]) && mem[instrs[i].field + 1] == old(mem[instrs[i].field + 1])
    ensures forall k :: 0 <= k < mem.Length && k != instrs[n].field && k != instrs[n].field + 1 ==>
        mem[k] == old(mem[k])
  {
    ghost var before := mem[..];
    RunOne(instrs[n], mem);
    ghost var f := instrs[n].field;
    assert mem[..] == Store(before, f, mem[f], mem[f + 1]);
    OthersKept(instrs, mem.Length, n, before, mem[f], mem[f + 1]);
  }

  /** One instruction keeps the sums of the earlier ones and the fields of the later ones. */
  lemma {:induction false} OthersKept(instrs: seq<Instr>, limit: nat, n: nat, before: seq<Byte>, lo: Byte, hi: Byte)
    requires Nested(instrs, limit) && |before| == limit && n < |instrs|
    ensures var after := Store(before, instrs[n].field, lo, hi);
      && (forall i :: 0 <= i < n ==> Checked(instrs[i].chunks, after) == Checked(instrs[i].chunks, before))
      && (forall i :: n < i < |instrs| ==>
            after[instrs[i].field] == before[instrs[i].field] &&
                after[instrs[i].field + 1] == before[instrs[i].field + 1])
  {
    var f := instrs[n].field;
    forall i | 0 <= i < n
      ensures Checked(instrs[i].chunks, Store(before, f, lo, hi)) == Checked(instrs[i].chunks, before)
    {
      forall j | 0 <= j < |instrs[i].chunks| ensures Apart(instrs[i].chunks[j], f) {
        assert instrs[i].chunks[j] in instrs[i].chunks;
      }
      StoreApart(instrs[i].chunks, before, f, lo, hi);
    }
  }

  // ----- chunks and concatenation -----

  function Concat(cs: seq<Chunk>, mem: seq<Byte>): seq<Byte>
    requires ChunksIn(cs, |mem|)
  {
    if cs == [] then [] else ChunkBytes(cs[0], mem) + Concat(cs[1..], mem)
  }

  /** If all chunks but the last have even length, the chunk-wise checksum is the RFC 1071
      checksum of the concatenation. */
  lemma {:induction false} ChunksAreConcatenation(cs: seq<Chunk>, mem: seq<Byte>)
    requires ChunksIn(cs, |mem|)
    requires forall i :: 0 <= i < |cs| - 1 ==> |ChunkBytes(cs[i], mem)| % 2 == 0
    ensures Checked(cs, mem) == Norm(WordSum(Concat(cs, mem)))
  {
    ChunkSumConcat(cs, mem);
  }

  lemma {:induction false} ChunkSumConcat(cs: seq<Chunk>, mem: seq<Byte>)
    requires ChunksIn(cs, |mem|)
    requires forall i :: 0 <= i < |cs| - 1 ==> |ChunkBytes(cs[i], mem)| % 2 == 0
    ensures ChunkSum(cs, mem) == WordSum(Concat(cs, mem))
    decreases cs
  {
    if cs == [] {
    } else {
      var b := ChunkBytes(cs[0], mem);
      forall i | 0 <= i < |cs[1..]| - 1
        ensures |ChunkBytes(cs[1..][i], mem)| % 2 == 0
      {
        assert cs[1..][i] == cs[i + 1];
      }
      ChunkSumConcat(cs[1..], mem);
      if |cs| == 1 {
        assert cs[1..] == [] && b + [] == b;
      } else {
        WordSumAppend(b, Concat(cs[1..], mem));
      }
    }
  }

  // ----- pseudo-headers -----

  function Swap16(v: nat): nat
    requires v < 0x1_0000
  {
    v % 256 * 256 + v / 256
  }

  function Swap32(v: nat): nat
    requires v < TWO32
  {
    v % 256 * 0x100_0000 + v / 0x100 % 256 * 0x1_0000 + v / 0x1_0000 % 256 * 0x100 + v / 0x100_0000
  }

  function Le(v: nat, n: nat): (b: seq<Byte>)
    ensures |b| == n
  {
    if n == 0 then [] else [v % 256] + Le(v / 256, n - 1)
  }

  /** composePseudoCsumIPv4; the packet size is cut to 16 bits. */
  function PseudoIPv4(src: nat, dst: nat, protocol: Byte, packet: nat, size: nat): seq<Chunk> {
    [DataChunk(src, 4), DataChunk(dst, 4), ConstChunk(Le(Swap16(protocol), 2)),
     ConstChunk(Le(Swap16(size % 0x1_0000), 2)), DataChunk(packet, size)]
  }

  /** composePseudoCsumIPv6; the packet size is cut to 32 bits. */
  function PseudoIPv6(src: nat, dst: nat, protocol: Byte, packet: nat, size: nat): seq<Chunk> {
    [DataChunk(src, 16), DataChunk(dst, 16), ConstChunk(Le(Swap32(size % TWO32), 4)),
     ConstChunk(Le(Swap32(protocol), 4)), DataChunk(packet, size)]
  }

  lemma {:induction false} Swap16Bytes(v: nat)
    requires v < 0x1_0000
    ensures Le(Swap16(v), 2) == [v / 256, v % 256]
  {
    var s := Swap16(v);
    assert s % 256 == v / 256 && s / 256 == v % 256;
    assert Le(s / 256, 1) == [s / 256 % 256] + Le(s / 256 / 256, 0);
  }

  lemma {:induction false} LeStep(lo: Byte, hi: nat, n: nat)
    ensures Le(lo + 256 * hi, n + 1) == [lo] + Le(hi, n)
  {
    assert (lo + 256 * hi) % 256 == lo && (lo + 256 * hi) / 256 == hi;
  }

  lemma {:induction false} Swap32Bytes(v: nat)
    requires v < TWO32
    ensures Le(Swap32(v), 4) == [v / 0x100_0000, v / 0x1_0000 % 256, v / 0x100 % 256, v % 256]
  {
    var b0: Byte, b1: Byte, b2: Byte, b3: Byte := v % 256, v / 0x100 % 256, v / 0x1_0000 % 256, v / 0x100_0000;
    var s3: nat := b0;
    var s2: nat := b1 + 256 * s3;
    var s1: nat := b2 + 256 * s2;
    assert Swap32(v) == b3 + 256 * s1;
    LeStep(b3, s1, 3);
    LeStep(b2, s2, 2);
    LeStep(b1, s3, 1);
    LeStep(b0, 0, 0);
  }

  /** The words summed in front of an IPv4 packet besides the addresses: zero, protocol and the
      length in network order, as section 3.1 of RFC 793 lays them out; the length is the
      packet size exactly for packets below 64K. */
  lemma {:induction false} PseudoHeaderIPv4(src: nat, dst: nat, protocol: Byte, packet: nat, size: nat)
    ensures var cs := PseudoIPv4(src, dst, protocol, packet, size);
            cs[2].bytes + cs[3].bytes == [0, protocol, size / 256 % 256, size % 256]
    ensures size / 256 % 256 * 256 + size % 256 == size <==> size < 0x1_0000
  {
    Swap16Bytes(protocol);
    Swap16Bytes(size % 0x1_0000);
    LowBytes(size);
    Fits(size);
  }

  lemma {:induction false} Fits(size: nat)
    ensures size / 256 % 256 * 256 + size % 256 == size <==> size < 0x1_0000
  {
    LowBytes(size);
  }

  lemma {:induction false} LowBytes(size: nat)
    ensures size % 0x1_0000 / 256 == size / 256 % 256 && size % 0x1_0000 % 256 == size % 256
    ensures size / 256 % 256 * 256 + size % 256 == size % 0x1_0000
  {
    var q, m := size / 0x1_0000, size % 0x1_0000;
    assert size == q * 0x1_0000 + m;
    assert size / 256 == q * 256 + m / 256;
  }

  /** The same for IPv6 (section 8.1 of RFC 2460): length in 32 bits, three zeros, next header. */
  lemma {:induction false} PseudoHeaderIPv6(src: nat, dst: nat, protocol: Byte, packet: nat, size: nat)
    requires size < TWO32
    ensures var cs := PseudoIPv6(src, dst, protocol, packet, size);
            && cs[2].bytes == [size / 0x100_0000, size / 0x1_0000 % 256, size / 0x100 % 256, size % 256]
            && cs[3].bytes == [0, 0, 0, protocol]
  {
    assert size % TWO32 == size;
    Swap32Bytes(size);
    ProtocolBytes(protocol);
  }

  lemma {:induction false} ProtocolBytes(protocol: Byte)
    ensures Le(Swap32(protocol), 4) == [0, 0, 0, protocol]
  {
    Swap32Bytes(protocol);
    var v: nat := protocol;
    assert v / 0x100_0000 == 0 && v / 0x1_0000 == 0 && v / 0x100 == 0 && v % 256 == v;
  }
}
