/**
  What the law of SquashMemory asks, in the terms of the tree.

  Without bitfields: what squashing fills in, or changes, must not show.  For disjoint objects
  over zeroed memory, with every bitfield inside its own storage: every leaf must keep its bytes
  and every bitfield its bits.
 */
module SquashExact {
  import opened Ir
  import opened ExecFormat
  import opened ExecCompile
  import opened ExecMemory
  import opened Arith
  import opened Bits
  import opened Squash
  import opened SquashKeeps
  import opened SquashMemory

  // ----- trees without bitfields -----

  /** A byte that a squashed tree lays out, and what was copied in there before, if anything. */
  datatype Laid = Laid(addr: nat, was: Option<Byte>, now: Byte)

  function Lay(addr: nat, was: seq<Byte>, now: seq<Byte>): seq<Laid>
    decreases now
  {
    if now == [] then []
    else if was == [] then [Laid(addr, None, now[0])] + Lay(addr + 1, [], now[1..])
    else [Laid(addr, Some(was[0]), now[0])] + Lay(addr + 1, was[1..], now[1..])
  }

  function LeafLayout(env: Env, any: AnyTypes, a: Arg, base: nat, off: nat): seq<Laid> {
    Lay(base + off, if NoCopyin(a) then [] else LeafBytes(env, a), NewBytes(env, any, a))
  }

  /** Zeros behind `size` bytes. */
  function Fill(addr: nat, size: nat, total: nat): seq<Laid> {
    if size >= total then [] else Lay(addr + size, [], Zeros(total - size))
  }

  function Layout(env: Env, any: AnyTypes, a: Arg, base: nat, off: nat): seq<Laid>
    decreases a, 1
  {
    match a
    case PointerArg(_, _, _, res) =>
      LeafLayout(env, any, a, base, off) + if res.Some?
          then Layout(env, any, res.value, PointeeBase(env.tgt, a), 0) else []
    case UnionArg(_, option) => Layout(env, any, option, base, off) + Fill(base + off, Size(option), Size(a))
    case GroupArg(_, inner) => FieldsLayout(env, any, inner, base, off) + Fill(base + off, SizeSeq(inner), Size(a))
    case _ => LeafLayout(env, any, a, base, off)
  }

  function FieldsLayout(env: Env, any: AnyTypes, args: seq<Arg>, base: nat, off: nat): seq<Laid>
    decreases args, 0
  {
    if args == [] then []
    else Layout(env, any, args[0], base, off) + FieldsLayout(env, any, args[1..], base, off + Size(args[0]))
  }

  predicate NoBits(a: Arg)
    decreases a, 1
  {
    !IsBitfield(a.typ) &&
    match a
    case PointerArg(_, _, _, res) => res.Some? ==> NoBits(res.value)
    case UnionArg(_, option) => NoBits(option)
    case GroupArg(_, inner) => NoBitsSeq(inner)
    case _ => true
  }

  predicate NoBitsSeq(args: seq<Arg>)
    decreases args, 0
  {
    args != [] ==> NoBits(args[0]) && NoBitsSeq(args[1..])
  }

  /** What is laid out in the end, and what was copied in before. */
  function NewCells(ls: seq<Laid>): seq<Cell> {
    if ls == [] then [] else [Cell(ls[0].addr, ls[0].now)] + NewCells(ls[1..])
  }

  function OldCell(l: Laid): seq<Cell> {
    if l.was.Some? then [Cell(l.addr, l.was.value)] else []
  }

  function OldCells(ls: seq<Laid>): seq<Cell> {
    if ls == [] then [] else OldCell(ls[0]) + OldCells(ls[1..])
  }

  lemma {:induction false} NewJoin(a: seq<Laid>, b: seq<Laid>)
    ensures NewCells(a + b) == NewCells(a) + NewCells(b)
  {
    if a == [] {
      assert a + b == b;
    } else {
      assert (a + b)[1..] == a[1..] + b && (a + b)[0] == a[0];
      NewJoin(a[1..], b);
      Assoc([Cell(a[0].addr, a[0].now)], NewCells(a[1..]), NewCells(b));
    }
  }

  lemma {:induction false} OldJoin(a: seq<Laid>, b: seq<Laid>)
    ensures OldCells(a + b) == OldCells(a) + OldCells(b)
  {
    if a == [] {
      assert a + b == b;
    } else {
      assert (a + b)[1..] == a[1..] + b && (a + b)[0] == a[0];
      OldJoin(a[1..], b);
      Assoc(OldCell(a[0]), OldCells(a[1..]), OldCells(b));
    }
  }

  lemma {:induction false} LaidBytes(addr: nat, was: seq<Byte>, now: seq<Byte>)
    ensures NewCells(Lay(addr, was, now)) == At(addr, now)
    ensures |was| <= |now| ==> OldCells(Lay(addr, was, now)) == At(addr, was)
    decreases now
  {
    if now != [] {
      var more, ls := if was == [] then [] else was[1..], Lay(addr, was, now);
      var rest := Lay(addr + 1, more, now[1..]);
      LaidBytes(addr + 1, more, now[1..]);
      assert ls[1..] == rest && ls[0].addr == addr && ls[0].now == now[0];
      AtHead(addr, now);
      if was != [] { AtHead(addr, was); }
    }
  }

  lemma {:induction false} AtHead(addr: nat, bytes: seq<Byte>)
    requires bytes != []
    ensures At(addr, bytes) == [Cell(addr, bytes[0])] + At(addr + 1, bytes[1..])
  {
  }

  lemma {:induction false} FillLaid(addr: nat, size: nat, total: nat)
    ensures NewCells(Fill(addr, size, total)) == Rest(addr, size, total) && OldCells(Fill(addr, size, total)) == []
  {
    if size < total {
      LaidBytes(addr + size, [], Zeros(total - size));
      assert At(addr + size, []) == [];
    }
  }

  /** A layout shows the stores of the tree before squashing, and its meaning after. */
  ghost predicate Shows(ls: seq<Laid>, ws: seq<Store>, cells: seq<Cell>) {
    NewCells(ls) == cells && Same(ws, OldCells(ls))
  }

  lemma {:induction false} ShowsJoin(a: seq<Laid>, b: seq<Laid>, wa: seq<Store>, wb: seq<Store>, ca: seq<Cell>,
      cb: seq<Cell>)
    requires Shows(a, wa, ca) && Shows(b, wb, cb)
    ensures Shows(a + b, wa + wb, ca + cb)
  {
    NewJoin(a, b);
    OldJoin(a, b);
    SameJoin(wa, wb, OldCells(a), OldCells(b));
  }

  /** A fill is stored by nobody. */
  lemma {:induction false} ShowsFill(a: seq<Laid>, wa: seq<Store>, ca: seq<Cell>, addr: nat, size: nat, total: nat)
    requires Shows(a, wa, ca)
    ensures Shows(a + Fill(addr, size, total), wa, ca + Rest(addr, size, total))
  {
    FillLaid(addr, size, total);
    ShowsJoin(a, Fill(addr, size, total), wa, [], ca, Rest(addr, size, total));
    assert wa + [] == wa;
  }

  lemma {:induction false} LeafSizes(env: Env, any: AnyTypes, a: Arg)
    requires SoundLeaf(env, any, a) && any.Ok() && !a.GroupArg? && !a.UnionArg? && !IsBitfield(a.typ)
    ensures |LeafBytes(env, a)| == Size(a) == |NewBytes(env, any, a)|
  {
    if !NoCopyin(a) { LeafStored(env, any, a, 0); }
    if a.ConstArg? && !IsPad(a.typ) { ConstBytes(env, any, a); }
    if a.ResultArg? {
      ResultBytes(env, any, a);
      var b := Retyped(a, AnyRes(any, a.typ.com.size).value);
      LeafStored(env, any, b, 0);
    }
  }

  lemma {:induction false} LeafShown(env: Env, any: AnyTypes, a: Arg, base: U64, off: nat)
    requires SoundLeaf(env, any, a) && any.Ok() && !a.GroupArg? && !a.UnionArg? && !IsBitfield(a.typ)
    ensures Shows(LeafLayout(env, any, a, base, off), LeafStores(env, a, base, off),
        At(base + off, NewBytes(env, any, a)))
  {
    LeafSizes(env, any, a);
    var was := if NoCopyin(a) then [] else LeafBytes(env, a);
    LaidBytes(base + off, was, NewBytes(env, any, a));
    SameBytes(base + off, was);
  }

  lemma {:induction false} TreeShown(env: Env, any: AnyTypes, a: Arg, base: U64, off: nat)
    requires IsSound(env, any, a) && any.Ok() && NoBits(a)
    ensures Shows(Layout(env, any, a, base, off), Stores(env, a, base, off), Means(env, any, a, base, off))
    decreases a, 1
  {
    SoundNotBits(env, any, a);
    match a
    case PointerArg(_, _, _, res) =>
      LeafShown(env, any, a, base, off);
      var here, ws, cells := LeafLayout(env, any, a, base, off), LeafStores(env, a, base, off),
          At(base + off, NewBytes(env, any, a));
      if res.Some? {
        var obj := PointeeBase(env.tgt, a);
        TreeShown(env, any, res.value, obj, 0);
        ShowsJoin(here, Layout(env, any, res.value, obj, 0), ws, Stores(env, res.value, obj, 0), cells,
            Means(env, any, res.value, obj, 0));
      } else {
        ShowsJoin(here, [], ws, [], cells, []);
      }
    case UnionArg(_, option) =>
      TreeShown(env, any, option, base, off);
      ShowsFill(Layout(env, any, option, base, off), Stores(env, option, base, off), Means(env, any, option, base, off),
                base + off, Size(option), Size(a));
    case GroupArg(_, inner) =>
      FieldsShown(env, any, inner, base, off);
      ShowsFill(FieldsLayout(env, any, inner, base, off), StoresSeq(env, inner, base, off),
          FieldsMean(env, any, inner, base, off, 0),
                base + off, SizeSeq(inner), Size(a));
    case _ =>
      LeafShown(env, any, a, base, off);
  }

  lemma {:induction false} PlainMean(env: Env, any: AnyTypes, args: seq<Arg>, base: nat, off: nat)
    requires args != [] && !IsBitfield(args[0].typ)
    ensures FieldsMean(env, any, args, base, off, 0) ==
        Means(env, any, args[0], base, off) + FieldsMean(env, any, args[1..], base, off + Size(args[0]), 0)
  {
  }

  lemma {:induction false} FieldsParts(env: Env, any: AnyTypes, args: seq<Arg>, base: U64, off: nat)
    requires args != [] && NoBitsSeq(args)
    ensures FieldsLayout(env, any, args, base, off) ==
        Layout(env, any, args[0], base, off) + FieldsLayout(env, any, args[1..], base, off + Size(args[0]))
    ensures StoresSeq(env, args, base, off) ==
        Stores(env, args[0], base, off) + StoresSeq(env, args[1..], base, off + Size(args[0]))
    ensures FieldsMean(env, any, args, base, off, 0) ==
        Means(env, any, args[0], base, off) + FieldsMean(env, any, args[1..], base, off + Size(args[0]), 0)
  {
    PlainMean(env, any, args, base, off);
  }

  lemma {:induction false} FieldsShown(env: Env, any: AnyTypes, args: seq<Arg>, base: U64, off: nat)
    requires SoundFields(SoundIn(env, any), args) && any.Ok() && NoBitsSeq(args)
    ensures Shows(FieldsLayout(env, any, args, base, off), StoresSeq(env, args, base, off),
        FieldsMean(env, any, args, base, off, 0))
    decreases args, 0
  {
    if args != [] {
      var n := Size(args[0]);
      TreeShown(env, any, args[0], base, off);
      FieldsShown(env, any, args[1..], base, off + n);
      FieldsParts(env, any, args, base, off);
      ShowsJoin(Layout(env, any, args[0], base, off), FieldsLayout(env, any, args[1..], base, off + n),
                Stores(env, args[0], base, off), StoresSeq(env, args[1..], base, off + n),
                Means(env, any, args[0], base, off), FieldsMean(env, any, args[1..], base, off + n, 0));
    }
  }

  /** What is laid out last at `x`. */
  function LastLaid(ls: seq<Laid>, x: nat): Option<Laid> {
    if ls == [] then None
    else if LastLaid(ls[1..], x).Some? then LastLaid(ls[1..], x)
    else if ls[0].addr == x then Some(ls[0])
    else None
  }

  lemma {:induction false} LastOfLayout(ls: seq<Laid>, x: nat)
    ensures LastLaid(ls, x).None? ==> LastAt(NewCells(ls), x).None? && LastAt(OldCells(ls), x).None?
    ensures LastLaid(ls, x).Some? ==> LastAt(NewCells(ls), x) == Some(LastLaid(ls, x).value.now)
    ensures LastLaid(ls, x).Some? && LastLaid(ls, x).value.was.Some? ==>
        LastAt(OldCells(ls), x) == LastLaid(ls, x).value.was
  {
    if ls != [] {
      LastOfLayout(ls[1..], x);
      LastCellJoin(OldCell(ls[0]), OldCells(ls[1..]), x);
      if ls[0].was.Some? { assert OldCell(ls[0])[1..] == []; }
    }
  }

  /** A byte of memory, if none of the cells is there. */
  function ByteAfter(mem: Mem, cells: seq<Cell>, x: nat): Byte {
    if LastAt(cells, x).Some? then LastAt(cells, x).value else Get(mem, x)
  }

  /** Where the last byte laid out is a fill, it equals what it hides: the byte copied in there, or
      that of memory.  Where it was copied in before, it has not changed. */
  ghost predicate Harmless(mem: Mem, ls: seq<Laid>) {
    forall x: nat | LastLaid(ls, x).Some? ::
      var l := LastLaid(ls, x).value;
      l.now == if l.was.Some? then l.was.value else ByteAfter(mem, OldCells(ls), x)
  }

  lemma {:induction false} AgreeInBytes(mem: Mem, ws: seq<Store>, was: seq<Cell>, cells: seq<Cell>)
    requires Same(ws, was)
    ensures Agree(mem, ws, cells) <==> forall x: nat :: ByteAfter(mem, was, x) == ByteAfter(mem, cells, x)
  {
    forall z: nat
      ensures After(mem, LastBit(ws, z), z) == Bit(ByteAfter(mem, was, z / 8), z % 8)
    {
      assert LastBit(ws, z) == CellBit(was, z);
    }
    forall z: nat ensures After(mem, CellBit(cells, z), z) == Bit(ByteAfter(mem, cells, z / 8), z % 8) { }
    if Agree(mem, ws, cells) {
      forall x: nat ensures ByteAfter(mem, was, x) == ByteAfter(mem, cells, x) {
        forall k: nat | k < 8 ensures Bit(ByteAfter(mem, was, x), k) == Bit(ByteAfter(mem, cells, x), k) {
          var z := 8 * x + k;
          assert z / 8 == x && z % 8 == k;
          assert After(mem, LastBit(ws, z), z) == After(mem, CellBit(cells, z), z);
        }
        SameByte(ByteAfter(mem, was, x), ByteAfter(mem, cells, x));
      }
    }
  }

  /** Without bitfields, overlapping objects or not, the condition of the law is that fills and
      changed leaves do not show. */
  lemma {:induction false} OverlapExact(env: Env, any: AnyTypes, a: Arg, base: U64, off: nat, mem: Mem)
    requires IsSound(env, any, a) && any.Ok() && NoBits(a)
    ensures Agree(mem, Stores(env, a, base, off), Means(env, any, a, base, off)) <==>
            Harmless(mem, Layout(env, any, a, base, off))
  {
    var ls := Layout(env, any, a, base, off);
    TreeShown(env, any, a, base, off);
    AgreeInBytes(mem, Stores(env, a, base, off), OldCells(ls), NewCells(ls));
    forall x: nat
      ensures ByteAfter(mem, OldCells(ls), x) == ByteAfter(mem, NewCells(ls), x) <==>
              (LastLaid(ls, x).Some? ==>
                 var l := LastLaid(ls, x).value;
                 l.now == if l.was.Some? then l.was.value else ByteAfter(mem, OldCells(ls), x))
    {
      LastOfLayout(ls, x);
    }
  }

  /** Squashing a pointer to a tree without bitfields keeps memory if and only if what it fills in
      and changes does not show. */
  lemma {:induction false} SquashKeepsOverlappingIff(env: Env, any: AnyTypes, a: Arg, mem: Mem) returns (s: Squashed)
    requires any.Ok() && IsSound(env, any, a) && a.PointerArg? && a.res.Some? && NoBits(a.res.value)
    ensures IsSquashed(env, any, a, s)
    ensures Mapped(mem, s.before) && Mapped(mem, s.after) ==>
      && Run(env.m, mem, s.before).Some? && Run(env.m, mem, s.after).Some?
      && (Run(env.m, mem, s.before) == Run(env.m, mem, s.after) <==>
            Harmless(mem, Layout(env, any, a.res.value, PointeeBase(env.tgt, a), 0)))
  {
    s := SquashKeepsMemoryIff(env, any, a, mem);
    SoundNotBits(env, any, a);
    OverlapExact(env, any, a.res.value, PointeeBase(env.tgt, a), 0, mem);
  }

  // ----- disjoint objects -----

  predicate OrZero(b: Option<bool>) {
    b.Some? && b.value
  }

  /** Every bit ends up the same over zeros. */
  ghost predicate AgreeZero(ws: seq<Store>, cells: seq<Cell>) {
    forall z: nat :: OrZero(LastBit(ws, z)) == OrZero(CellBit(cells, z))
  }

  /** The stores stay inside the bytes of the cells. */
  ghost predicate Within(ws: seq<Store>, cells: seq<Cell>) {
    forall z: nat :: LastBit(ws, z).Some? ==> LastAt(cells, z / 8).Some?
  }

  ghost predicate Apart(a: seq<Cell>, b: seq<Cell>) {
    forall x: nat :: LastAt(a, x).None? || LastAt(b, x).None?
  }

  lemma {:induction false} DistinctParts(a: seq<Cell>, b: seq<Cell>)
    requires Distinct(a + b)
    ensures Distinct(a) && Distinct(b) && Apart(a, b)
  {
    var all := a + b;
    assert forall i :: 0 <= i < |a| ==> all[i] == a[i];
    assert forall j :: 0 <= j < |b| ==> all[|a| + j] == b[j];
    forall i, j | 0 <= i < j < |b| ensures b[i].addr != b[j].addr {
      assert all[|a| + i].addr != all[|a| + j].addr;
    }
    forall x: nat ensures LastAt(a, x).None? || LastAt(b, x).None? {
      LastIsCell(a, x);
      LastIsCell(b, x);
      forall i, j | 0 <= i < |a| && 0 <= j < |b| ensures a[i].addr != b[j].addr {
        assert all[i].addr != all[|a| + j].addr;
      }
    }
  }

  /** Two parts that are apart agree each on its own. */
  lemma {:induction false} AgreeJoin(wa: seq<Store>, wb: seq<Store>, ca: seq<Cell>, cb: seq<Cell>)
    requires Within(wa, ca) && Within(wb, cb) && Apart(ca, cb)
    ensures Within(wa + wb, ca + cb)
    ensures AgreeZero(wa + wb, ca + cb) <==> AgreeZero(wa, ca) && AgreeZero(wb, cb)
  {
    forall z: nat
      ensures LastBit(wa + wb, z).Some? ==> LastAt(ca + cb, z / 8).Some?
      ensures OrZero(LastBit(wa + wb, z)) == OrZero(CellBit(ca + cb, z)) <==>
              OrZero(LastBit(wa, z)) == OrZero(CellBit(ca, z)) && OrZero(LastBit(wb, z)) == OrZero(CellBit(cb, z))
    {
      LastJoin(wa, wb, z);
      LastCellJoin(ca, cb, z / 8);
      assert LastAt(ca, z / 8).None? || LastAt(cb, z / 8).None?;
      assert LastBit(wa, z).Some? ==> LastAt(ca, z / 8).Some?;
      assert LastBit(wb, z).Some? ==> LastAt(cb, z / 8).Some?;
    }
  }

  /** Zeros that nobody stores. */
  lemma {:induction false} AgreeFill(ws: seq<Store>, cells: seq<Cell>, addr: nat, size: nat, total: nat)
    requires Within(ws, cells) && Apart(cells, Rest(addr, size, total))
    ensures var all := cells + Rest(addr, size, total);
      Within(ws, all) && (AgreeZero(ws, all) <==> AgreeZero(ws, cells))
  {
    var rest := Rest(addr, size, total);
    forall z: nat ensures !OrZero(CellBit(rest, z)) {
      if size < total { LastInRange(addr + size, Zeros(total - size), z / 8); }
      BitOfZero(z % 8);
    }
    AgreeJoin(ws, [], cells, rest);
    assert ws + [] == ws;
  }

  // ----- leaves -----

  /** The leaf keeps its bytes; zeros stand for what is not copied in. */
  predicate LeafKept(env: Env, any: AnyTypes, a: Arg) {
    LeafBytes(env, a) == NewBytes(env, any, a)
  }

  lemma {:induction false} BytesAgree(addr: nat, was: seq<Byte>, now: seq<Byte>)
    requires |was| == |now|
    ensures Within([ByteStore(addr, was)], At(addr, now))
    ensures AgreeZero([ByteStore(addr, was)], At(addr, now)) <==> was == now
  {
    var ws, cells := [ByteStore(addr, was)], At(addr, now);
    forall z: nat
      ensures LastBit(ws, z).Some? ==> LastAt(cells, z / 8).Some?
      ensures LastBit(ws, z) == CellBit(At(addr, was), z)
    {
      BytesAreBits(addr, was, z);
      LastInRange(addr, was, z / 8);
      LastInRange(addr, now, z / 8);
    }
    if AgreeZero(ws, cells) {
      forall i | 0 <= i < |was| ensures was[i] == now[i] {
        forall k: nat | k < 8 ensures Bit(was[i], k) == Bit(now[i], k) {
          var z := 8 * (addr + i) + k;
          assert z / 8 == addr + i && z % 8 == k;
          LastInRange(addr, was, addr + i);
          LastInRange(addr, now, addr + i);
          assert OrZero(LastBit(ws, z)) == OrZero(CellBit(cells, z));
        }
        SameByte(was[i], now[i]);
      }
    }
  }

  lemma {:induction false} ZerosStored(addr: nat, n: nat, z: nat)
    ensures !OrZero(LastBit([ByteStore(addr, Zeros(n))], z))
  {
    BytesAreBits(addr, Zeros(n), z);
    LastInRange(addr, Zeros(n), z / 8);
    BitOfZero(z % 8);
  }

  lemma {:induction false} LeafAgrees(env: Env, any: AnyTypes, a: Arg, base: U64, off: nat)
    requires SoundLeaf(env, any, a) && any.Ok() && !a.GroupArg? && !a.UnionArg? && !IsBitfield(a.typ)
    ensures var ws, cells := LeafStores(env, a, base, off), At(base + off, NewBytes(env, any, a));
      Within(ws, cells) && (AgreeZero(ws, cells) <==> LeafKept(env, any, a))
  {
    LeafSizes(env, any, a);
    BytesAgree(base + off, LeafBytes(env, a), NewBytes(env, any, a));
    if NoCopyin(a) {
      var ws := [ByteStore(base + off, LeafBytes(env, a))];
      forall z: nat ensures !OrZero(LastBit(ws, z)) { ZerosStored(base + off, Size(a), z); }
    }
  }

  // ----- bitfields -----

  /** Size of the storage of the bitfields at the head of the list: that of the first one that
      has a size. */
  function Flush(args: seq<Arg>): nat {
    if args == [] || !IsBitfield(args[0].typ) then 0
    else if Size(args[0]) != 0 then Size(args[0])
    else Flush(args[1..])
  }

  lemma {:induction false} FlushLe(args: seq<Arg>)
    ensures Flush(args) <= SizeSeq(args)
  {
    if args != [] { FlushLe(args[1..]); }
  }

  /** Each bitfield lies in a unit that starts with its storage, inside the storage and behind the
      fields before it, which end at bit `pos`. */
  predicate InPlace(a: Arg)
    decreases a, 1
  {
    match a
    case PointerArg(_, _, _, res) => res.Some? ==> InPlace(res.value)
    case UnionArg(_, option) => InPlace(option)
    case GroupArg(_, inner) => InPlaceSeq(inner, 0)
    case _ => true
  }

  predicate InPlaceSeq(args: seq<Arg>, pos: nat)
    decreases args, 0
  {
    if args == [] then pos == 0
    else if IsBitfield(args[0].typ) then
      var b := args[0].typ.bits;
      && b.unitOff == 0 && pos <= b.off && b.off + b.len <= 8 * Flush(args)
      && InPlaceSeq(args[1..], if Size(args[0]) == 0 then b.off + b.len else 0)
    else pos == 0 && InPlace(args[0]) && InPlaceSeq(args[1..], 0)
  }

  /** The value of the field that is copied in; 0 stands for what is not. */
  function OldField(env: Env, a: Arg): U64 {
    if NoCopyin(a) then 0 else FieldValue(env, a)
  }

  predicate FieldKept(env: Env, a: Arg)
    requires IsBitfield(a.typ)
  {
    OldField(env, a) % Pow2(a.typ.bits.len) == BitsValue(a) % Pow2(a.typ.bits.len)
  }

  /** Every leaf keeps its bytes, and every bitfield its bits. */
  predicate LeavesKept(env: Env, any: AnyTypes, a: Arg)
    decreases a, 1
  {
    match a
    case PointerArg(_, _, _, res) => LeafKept(env, any, a) && (res.Some? ==> LeavesKept(env, any, res.value))
    case UnionArg(_, option) => LeavesKept(env, any, option)
    case GroupArg(_, inner) => LeavesKeptSeq(env, any, inner)
    case _ => LeafKept(env, any, a)
  }

  predicate LeavesKeptSeq(env: Env, any: AnyTypes, args: seq<Arg>)
    decreases args, 0
  {
    args != [] ==>
      && (if IsBitfield(args[0].typ) then FieldKept(env, args[0]) else LeavesKept(env, any, args[0]))
      && LeavesKeptSeq(env, any, args[1..])
  }

  ghost predicate SameLow(x: nat, y: nat, n: nat) {
    forall k: nat | k < n :: Bit(x, k) == Bit(y, k)
  }

  lemma {:induction false} SameModulo(x: nat, y: nat, n: nat)
    ensures x % Pow2(n) == y % Pow2(n) <==> SameLow(x, y, n)
  {
    var q, r := Divided(x, Pow2(n));
    var q1, r1 := Divided(y, Pow2(n));
    LowBits(x, n, r, q);
    LowBits(y, n, r1, q1);
    if SameLow(x, y, n) { SameBits(r, r1, n); }
    if r == r1 {
      forall k: nat | k < n ensures Bit(x, k) == Bit(y, k) { assert Bit(x, k) == Bit(r, k); }
    }
  }

  lemma {:induction false} LowBits(x: nat, n: nat, lo: nat, hi: nat)
    requires lo < Pow2(n) && x == lo + Pow2(n) * hi
    ensures SameLow(x, lo, n)
  {
    forall k: nat | k < n ensures Bit(x, k) == Bit(lo, k) { BitOfSplit(x, n, lo, hi, k); }
  }

  lemma {:induction false} PowOf64()
    ensures Pow2(64) == TWO64
  {
    PowOf8();
    PowAdd(8, 8);
    assert Pow2(16) == 0x1_0000;
    PowAdd(16, 16);
    assert Pow2(32) == 0x1_0000_0000;
    PowAdd(32, 32);
  }

  lemma {:induction false} OrBit(a: nat, b: nat, k: nat)
    ensures Bit(Or(a, b), k) == (Bit(a, k) || Bit(b, k))
    decreases k
  {
    if a == 0 && b == 0 {
      BitOfZero(k);
    } else if k > 0 {
      OrBit(a / 2, b / 2, k - 1);
    }
  }

  lemma {:induction false} BitOfMod64(x: nat, k: nat)
    ensures Bit(x % TWO64, k) == (k < 64 && Bit(x, k))
  {
    PowOf64();
    var q, r := Divided(x, TWO64);
    BitOfSplit(x, 64, r, q, k);
  }

  lemma {:induction false} BitOfField(v: nat, off: nat, len: nat, k: nat)
    ensures Bit(v % Pow2(len) * Pow2(off), k) == (off <= k < off + len && Bit(v, k - off))
  {
    var q, f := Divided(v, Pow2(len));
    BitOfShift(f, off, k);
    if k >= off { BitOfSplit(v, len, f, q, k - off); }
  }

  /** The accumulator after one more field. */
  lemma {:induction false} AddBitsBit(acc: nat, t: Type, v: U64, k: nat)
    requires HasBits(t) && t.bits.off + t.bits.len <= 64
    ensures Bit(AddBits(acc, t, v), k) ==
        (Bit(acc, k) || (t.bits.off <= k < t.bits.off + t.bits.len && Bit(v, k - t.bits.off)))
  {
    var x := v % Pow2(t.bits.len) * Pow2(t.bits.off);
    BitOfField(v, t.bits.off, t.bits.len, k);
    BitOfMod64(x, k);
    OrBit(acc, x % TWO64, k);
  }

  /** The stores so far: all below bit `pos` of the storage. */
  ghost predicate Low(ws: seq<Store>, at: nat, pos: nat) {
    forall z: nat :: LastBit(ws, z).Some? ==> at <= z < at + pos
  }

  ghost predicate Below(acc: nat, pos: nat) {
    forall k: nat :: Bit(acc, k) ==> k < pos
  }

  /** The stores so far agree with the accumulator. */
  ghost predicate LowAgree(ws: seq<Store>, at: nat, acc: nat) {
    forall k: nat :: OrZero(LastBit(ws, at + k)) == Bit(acc, k)
  }

  /** What is added to the storage by one field: bits of `v` from `from` on. */
  ghost predicate AddsField(ws: seq<Store>, ws1: seq<Store>, at: nat, from: nat, len: nat, v: nat) {
    forall z: nat ::
      OrZero(LastBit(ws1, z)) == if at + from <= z < at + from + len then Bit(v, z - at - from)
          else OrZero(LastBit(ws, z))
  }

  lemma {:induction false} FieldStored(env: Env, a: Arg, base: U64, off: nat, pos: nat, ws: seq<Store>)
    requires IsBitfield(a.typ) && SoundBits(a) && a.typ.bits.unitOff == 0 && base + off < TWO64 && pos <= a.typ.bits.off
    requires Low(ws, 8 * (base + off), pos)
    ensures var at, b, ws1 := 8 * (base + off), a.typ.bits, ws + Stores(env, a, base, off);
      Low(ws1, at, b.off + b.len) && AddsField(ws, ws1, at, b.off, b.len, OldField(env, a))
  {
    var at, b, one := 8 * (base + off), a.typ.bits, Stores(env, a, base, off);
    AddrIs(base, off, a.typ);
    forall z: nat
      ensures LastBit(ws + one, z).Some? ==> at <= z < at + b.off + b.len
      ensures OrZero(LastBit(ws + one, z)) ==
              if at + b.off <= z < at + b.off + b.len then Bit(OldField(env, a), z - at - b.off)
                  else OrZero(LastBit(ws, z))
    {
      LastJoin(ws, one, z);
      if NoCopyin(a) {
        if z >= at + b.off { BitOfZero(z - at - b.off); }
      } else {
        LastOfOne(one[0], z);
      }
    }
  }

  lemma {:induction false} FieldAdded(acc: nat, t: Type, v: U64, acc1: nat, pos: nat)
    requires HasBits(t) && t.bits.off + t.bits.len <= 64 && pos <= t.bits.off && Below(acc, pos)
    requires acc1 == AddBits(acc, t, v)
    ensures Below(acc1, t.bits.off + t.bits.len)
    ensures forall k: nat ::
      Bit(acc1, k) == if t.bits.off <= k < t.bits.off + t.bits.len then Bit(v, k - t.bits.off) else Bit(acc, k)
  {
    forall k: nat
      ensures Bit(acc1, k) == if t.bits.off <= k < t.bits.off + t.bits.len then Bit(v, k - t.bits.off) else Bit(acc, k)
    {
      AddBitsBit(acc, t, v, k);
    }
  }

  lemma {:induction false} FieldAgrees(ws: seq<Store>, ws1: seq<Store>, at: nat, pos: nat, from: nat, len: nat, v: nat,
      w: nat, acc: nat, acc1: nat)
    requires Low(ws, at, pos) && Below(acc, pos) && pos <= from && AddsField(ws, ws1, at, from, len, v)
    requires forall k: nat :: Bit(acc1, k) == if from <= k < from + len then Bit(w, k - from) else Bit(acc, k)
    ensures LowAgree(ws1, at, acc1) <==> LowAgree(ws, at, acc) && SameLow(v, w, len)
  {
    forall k: nat
      ensures OrZero(LastBit(ws1, at + k)) == if from <= k < from + len then Bit(v, k - from)
          else OrZero(LastBit(ws, at + k))
      ensures k >= from ==> !OrZero(LastBit(ws, at + k)) && !Bit(acc, k)
    {
    }
    if LowAgree(ws1, at, acc1) {
      forall k: nat | k < len ensures Bit(v, k) == Bit(w, k) {
        assert OrZero(LastBit(ws1, at + (from + k))) == Bit(acc1, from + k);
      }
      forall k: nat ensures OrZero(LastBit(ws, at + k)) == Bit(acc, k) {
        assert OrZero(LastBit(ws1, at + k)) == Bit(acc1, k);
      }
    }
  }

  lemma {:induction false} OneField(env: Env, a: Arg, base: U64, off: nat, pos: nat, acc: nat, ws: seq<Store>,
      acc1: nat)
    requires IsBitfield(a.typ) && SoundBits(a) && a.typ.bits.unitOff == 0 && base + off < TWO64 && pos <= a.typ.bits.off
    requires Low(ws, 8 * (base + off), pos) && Below(acc, pos) && acc1 == AddBits(acc, a.typ, BitsValue(a))
    ensures var at, ws1, end := 8 * (base + off), ws + Stores(env, a, base, off), a.typ.bits.off + a.typ.bits.len;
      && Low(ws1, at, end) && Below(acc1, end)
      && (LowAgree(ws1, at, acc1) <==> LowAgree(ws, at, acc) && FieldKept(env, a))
  {
    var b := a.typ.bits;
    FieldStored(env, a, base, off, pos, ws);
    FieldAdded(acc, a.typ, BitsValue(a), acc1, pos);
    FieldAgrees(ws, ws + Stores(env, a, base, off), 8 * (base + off), pos, b.off, b.len, OldField(env, a), BitsValue(a),
        acc, acc1);
    SameModulo(OldField(env, a), BitsValue(a), b.len);
  }

  /** The storage of finished bitfields. */
  lemma {:induction false} StorageAgrees(ws: seq<Store>, addr: nat, acc: nat, end: nat, n: nat)
    requires Low(ws, 8 * addr, end) && Below(acc, end) && end <= 8 * n
    ensures var cells := At(addr, LeBytes(acc, n));
      Within(ws, cells) && (AgreeZero(ws, cells) <==> LowAgree(ws, 8 * addr, acc))
  {
    var at, cells := 8 * addr, At(addr, LeBytes(acc, n));
    forall z: nat
      ensures CellBit(cells, z) == if at <= z < at + 8 * n then Some(Bit(acc, z - at)) else None
    {
      LastInRange(addr, LeBytes(acc, n), z / 8);
      if at <= z < at + 8 * n { BitOfBytes(acc, n, z / 8 - addr, z % 8); }
    }
    if LowAgree(ws, at, acc) {
      forall z: nat ensures OrZero(LastBit(ws, z)) == OrZero(CellBit(cells, z)) {
        if z >= at { assert OrZero(LastBit(ws, at + (z - at))) == Bit(acc, z - at); }
      }
    }
    if AgreeZero(ws, cells) {
      forall k: nat ensures OrZero(LastBit(ws, at + k)) == Bit(acc, k) {
        assert OrZero(LastBit(ws, at + k)) == OrZero(CellBit(cells, at + k));
      }
    }
  }

  // ----- trees -----

  ghost predicate TreeReady(env: Env, any: AnyTypes, a: Arg, base: U64, off: nat) {
    && IsSound(env, any, a) && any.Ok() && InPlace(a) && base + off + Size(a) <= TWO64
    && Distinct(Means(env, any, a, base, off))
  }

  ghost predicate TreeAgreed(env: Env, any: AnyTypes, a: Arg, base: U64, off: nat) {
    Agreed(Stores(env, a, base, off), Means(env, any, a, base, off), LeavesKept(env, any, a))
  }

  /** The stores leave what the cells mean exactly if `kept`. */
  ghost predicate Agreed(ws: seq<Store>, cells: seq<Cell>, kept: bool) {
    Within(ws, cells) && (AgreeZero(ws, cells) <==> kept)
  }

  ghost predicate FieldsAgreed(env: Env, any: AnyTypes, args: seq<Arg>, base: U64, off: nat) {
    Agreed(StoresSeq(env, args, base, off), FieldsMean(env, any, args, base, off, 0), LeavesKeptSeq(env, any, args))
  }

  lemma {:induction false} PointerAgreed(env: Env, any: AnyTypes, a: Arg, base: U64, off: nat)
    requires SoundLeaf(env, any, a) && any.Ok() && a.PointerArg? && !IsBitfield(a.typ)
    requires Distinct(Means(env, any, a, base, off))
    requires a.res.Some? ==> TreeAgreed(env, any, a.res.value, PointeeBase(env.tgt, a), 0)
    ensures TreeAgreed(env, any, a, base, off)
  {
    var ws, here := LeafStores(env, a, base, off), At(base + off, NewBytes(env, any, a));
    LeafAgrees(env, any, a, base, off);
    if a.res.Some? {
      var obj := PointeeBase(env.tgt, a);
      var there := Means(env, any, a.res.value, obj, 0);
      DistinctParts(here, there);
      AgreeJoin(ws, Stores(env, a.res.value, obj, 0), here, there);
    } else {
      assert here + [] == here && ws + [] == ws;
    }
  }

  lemma {:induction false} UnionParts(env: Env, any: AnyTypes, a: Arg, base: U64, off: nat)
    requires a.UnionArg?
    ensures Stores(env, a, base, off) == Stores(env, a.option, base, off)
    ensures Means(env, any, a, base, off) ==
        Means(env, any, a.option, base, off) + Rest(base + off, Size(a.option), Size(a))
    ensures LeavesKept(env, any, a) <==> LeavesKept(env, any, a.option)
  {
  }

  lemma {:induction false} GroupParts(env: Env, any: AnyTypes, a: Arg, base: U64, off: nat)
    requires a.GroupArg?
    ensures Stores(env, a, base, off) == StoresSeq(env, a.inner, base, off)
    ensures Means(env, any, a, base, off) ==
        FieldsMean(env, any, a.inner, base, off, 0) + Rest(base + off, SizeSeq(a.inner), Size(a))
    ensures LeavesKept(env, any, a) <==> LeavesKeptSeq(env, any, a.inner)
  {
  }

  /** Zeros after the stores change nothing. */
  lemma {:induction false} FillAgreed(ws: seq<Store>, cells: seq<Cell>, rest: seq<Cell>, all: seq<Cell>, addr: nat,
      size: nat, total: nat, kept: bool)
    requires rest == Rest(addr, size, total) && all == cells + rest && Distinct(all) && Agreed(ws, cells, kept)
    ensures Agreed(ws, all, kept)
  {
    DistinctParts(cells, rest);
    AgreeFill(ws, cells, addr, size, total);
  }

  lemma {:induction false} UnionAgreed(env: Env, any: AnyTypes, a: Arg, base: U64, off: nat)
    requires a.UnionArg? && Distinct(Means(env, any, a, base, off)) && TreeAgreed(env, any, a.option, base, off)
    ensures TreeAgreed(env, any, a, base, off)
  {
    UnionParts(env, any, a, base, off);
    FillAgreed(Stores(env, a, base, off), Means(env, any, a.option, base, off),
        Rest(base + off, Size(a.option), Size(a)), Means(env, any, a, base, off), base + off, Size(a.option), Size(a),
        LeavesKept(env, any, a));
  }

  lemma {:induction false} GroupAgreed(env: Env, any: AnyTypes, a: Arg, base: U64, off: nat)
    requires a.GroupArg? && Distinct(Means(env, any, a, base, off)) && FieldsAgreed(env, any, a.inner, base, off)
    ensures TreeAgreed(env, any, a, base, off)
  {
    GroupParts(env, any, a, base, off);
    FillAgreed(Stores(env, a, base, off), FieldsMean(env, any, a.inner, base, off, 0),
        Rest(base + off, SizeSeq(a.inner), Size(a)), Means(env, any, a, base, off), base + off, SizeSeq(a.inner),
        Size(a), LeavesKept(env, any, a));
  }

  lemma {:induction false} MeansParts(env: Env, any: AnyTypes, a: Arg, base: U64, off: nat)
    requires Distinct(Means(env, any, a, base, off))
    ensures a.PointerArg? && a.res.Some? ==> Distinct(Means(env, any, a.res.value, PointeeBase(env.tgt, a), 0))
    ensures a.UnionArg? ==> Distinct(Means(env, any, a.option, base, off))
    ensures a.GroupArg? ==> Distinct(FieldsMean(env, any, a.inner, base, off, 0))
  {
    match a
    case PointerArg(_, _, _, res) =>
      if res.Some? {
        DistinctParts(At(base + off, NewBytes(env, any, a)), Means(env, any, res.value, PointeeBase(env.tgt, a), 0));
      }
    case UnionArg(_, option) =>
        DistinctParts(Means(env, any, option, base, off), Rest(base + off, Size(option), Size(a)));
    case GroupArg(_, inner) =>
        DistinctParts(FieldsMean(env, any, inner, base, off, 0), Rest(base + off, SizeSeq(inner), Size(a)));
    case _ =>
  }

  lemma {:induction false} TreeAgrees(env: Env, any: AnyTypes, a: Arg, base: U64, off: nat)
    requires TreeReady(env, any, a, base, off)
    ensures TreeAgreed(env, any, a, base, off)
    decreases a, 1
  {
    SoundNotBits(env, any, a);
    MeansParts(env, any, a, base, off);
    match a
    case PointerArg(_, _, _, res) =>
      if res.Some? { TreeAgrees(env, any, res.value, PointeeBase(env.tgt, a), 0); }
      PointerAgreed(env, any, a, base, off);
    case UnionArg(_, option) =>
      TreeAgrees(env, any, option, base, off);
      UnionAgreed(env, any, a, base, off);
    case GroupArg(t, inner) =>
      GroupSize(t, inner);
      FieldsAgree(env, any, inner, base, off);
      GroupAgreed(env, any, a, base, off);
    case _ =>
      LeafAgrees(env, any, a, base, off);
  }

  ghost predicate FieldsReady(env: Env, any: AnyTypes, args: seq<Arg>, base: U64, off: nat, pos: nat, acc: nat) {
    && SoundFields(SoundIn(env, any), args) && any.Ok() && InPlaceSeq(args, pos) && base + off + SizeSeq(args) <= TWO64
    && Distinct(FieldsMean(env, any, args, base, off, acc))
  }

  lemma {:induction false} FieldsAgree(env: Env, any: AnyTypes, args: seq<Arg>, base: U64, off: nat)
    requires FieldsReady(env, any, args, base, off, 0, 0)
    ensures FieldsAgreed(env, any, args, base, off)
    decreases args, 1
  {
    if args == [] {
    } else if IsBitfield(args[0].typ) {
      NoFieldYet(8 * (base + off));
      PendingAgree(env, any, args, base, off, 0, 0, []);
      assert [] + StoresSeq(env, args, base, off) == StoresSeq(env, args, base, off);
    } else {
      var n := Size(args[0]);
      var here, more := Means(env, any, args[0], base, off), FieldsMean(env, any, args[1..], base, off + n, 0);
      DistinctParts(here, more);
      TreeAgrees(env, any, args[0], base, off);
      FieldsAgree(env, any, args[1..], base, off + n);
      AgreeJoin(Stores(env, args[0], base, off), StoresSeq(env, args[1..], base, off + n), here, more);
    }
  }

  lemma {:induction false} NoFieldYet(at: nat)
    ensures Low([], at, 0) && Below(0, 0) && LowAgree([], at, 0)
  {
    forall k: nat ensures !Bit(0, k) { BitOfZero(k); }
  }

  /** In the middle of a storage: `ws` are the stores of its fields so far. */
  ghost predicate PendingAgreed(env: Env, any: AnyTypes, args: seq<Arg>, base: U64, off: nat, acc: nat,
      ws: seq<Store>) {
    var all, cells := ws + StoresSeq(env, args, base, off), FieldsMean(env, any, args, base, off, acc);
    Within(all, cells) && (AgreeZero(all, cells) <==>
        LowAgree(ws, 8 * (base + off), acc) && LeavesKeptSeq(env, any, args))
  }

  lemma {:induction false} StoresAssoc(a: seq<Store>, b: seq<Store>, c: seq<Store>)
    ensures a + (b + c) == (a + b) + c
  {
  }

  /** The bitfield that ends its storage. */
  lemma {:induction false} FlushAgreed(env: Env, any: AnyTypes, args: seq<Arg>, base: U64, off: nat, acc: nat,
      ws: seq<Store>, acc1: nat, end: nat)
    requires args != [] && IsBitfield(args[0].typ) && Size(args[0]) != 0
    requires acc1 == AddBits(acc, args[0].typ, BitsValue(args[0]))
    requires Distinct(FieldsMean(env, any, args, base, off, acc))
    requires FieldsAgreed(env, any, args[1..], base, off + Size(args[0]))
    requires var ws1 := ws + Stores(env, args[0], base, off);
      && Low(ws1, 8 * (base + off), end) && Below(acc1, end) && end <= 8 * Size(args[0])
      && (LowAgree(ws1, 8 * (base + off), acc1) <==> LowAgree(ws, 8 * (base + off), acc) && FieldKept(env, args[0]))
    ensures PendingAgreed(env, any, args, base, off, acc, ws)
  {
    var n, ws1, wb := Size(args[0]), ws + Stores(env, args[0], base, off),
        StoresSeq(env, args[1..], base, off + Size(args[0]));
    var here, more := At(base + off, LeBytes(acc1, n)), FieldsMean(env, any, args[1..], base, off + n, 0);
    DistinctParts(here, more);
    StorageAgrees(ws1, base + off, acc1, end, n);
    AgreeJoin(ws1, wb, here, more);
    StoresAssoc(ws, Stores(env, args[0], base, off), wb);
  }

  /** A bitfield that does not end its storage. */
  lemma {:induction false} PendingMore(env: Env, any: AnyTypes, args: seq<Arg>, base: U64, off: nat, acc: nat,
      ws: seq<Store>, acc1: nat)
    requires args != [] && IsBitfield(args[0].typ) && Size(args[0]) == 0
    requires acc1 == AddBits(acc, args[0].typ, BitsValue(args[0]))
    requires var ws1 := ws + Stores(env, args[0], base, off);
      && PendingAgreed(env, any, args[1..], base, off, acc1, ws1)
      && (LowAgree(ws1, 8 * (base + off), acc1) <==> LowAgree(ws, 8 * (base + off), acc) && FieldKept(env, args[0]))
    ensures PendingAgreed(env, any, args, base, off, acc, ws)
  {
    StoresAssoc(ws, Stores(env, args[0], base, off), StoresSeq(env, args[1..], base, off));
  }

  /** What holds of the fields behind the first bitfield. */
  lemma {:induction false} PendingReady(env: Env, any: AnyTypes, args: seq<Arg>, base: U64, off: nat, pos: nat,
      acc: nat, acc1: nat)
    requires FieldsReady(env, any, args, base, off, pos, acc) && args != [] && IsBitfield(args[0].typ)
    requires acc1 == AddBits(acc, args[0].typ, BitsValue(args[0]))
    ensures base + off < TWO64 && SoundBits(args[0]) && InPlaceSeq(args, pos)
    ensures Size(args[0]) == 0 ==>
      && FieldsReady(env, any, args[1..], base, off, args[0].typ.bits.off + args[0].typ.bits.len, acc1)
      && args[1..] != [] && IsBitfield(args[1].typ)
    ensures Size(args[0]) != 0 ==>
      && FieldsReady(env, any, args[1..], base, off + Size(args[0]), 0, 0)
      && args[0].typ.bits.off + args[0].typ.bits.len <= 8 * Size(args[0])
  {
    FlushLe(args);
    var n := Size(args[0]);
    if n != 0 { DistinctParts(At(base + off, LeBytes(acc1, n)), FieldsMean(env, any, args[1..], base, off + n, 0)); }
  }

  lemma {:induction false} PendingAgree(env: Env, any: AnyTypes, args: seq<Arg>, base: U64, off: nat, pos: nat,
      acc: nat, ws: seq<Store>)
    requires FieldsReady(env, any, args, base, off, pos, acc) && args != [] && IsBitfield(args[0].typ)
    requires Low(ws, 8 * (base + off), pos) && Below(acc, pos)
    ensures PendingAgreed(env, any, args, base, off, acc, ws)
    decreases args, 0
  {
    var a, n, b := args[0], Size(args[0]), args[0].typ.bits;
    var acc1, ws1 := AddBits(acc, a.typ, BitsValue(a)), ws + Stores(env, a, base, off);
    PendingReady(env, any, args, base, off, pos, acc, acc1);
    OneField(env, a, base, off, pos, acc, ws, acc1);
    if n == 0 {
      PendingAgree(env, any, args[1..], base, off, b.off + b.len, acc1, ws1);
      PendingMore(env, any, args, base, off, acc, ws, acc1);
    } else {
      FieldsAgree(env, any, args[1..], base, off + n);
      FlushAgreed(env, any, args, base, off, acc, ws, acc1, b.off + b.len);
    }
  }

  ghost predicate Zeroed(mem: Mem, cells: seq<Cell>) {
    forall x: nat :: LastAt(cells, x).Some? ==> Get(mem, x) == 0
  }

  /** Squashing a pointer to disjoint objects in zeroed memory, with bitfields in place, keeps
      memory if and only if every leaf keeps its bytes and every bitfield its bits. */
  lemma {:induction false} SquashKeepsDisjointIff(env: Env, any: AnyTypes, a: Arg, mem: Mem) returns (s: Squashed)
    requires any.Ok() && IsSound(env, any, a) && a.PointerArg? && a.res.Some? && InPlace(a.res.value)
    requires Distinct(Means(env, any, a.res.value, PointeeBase(env.tgt, a), 0))
    requires Zeroed(mem, Means(env, any, a.res.value, PointeeBase(env.tgt, a), 0))
    ensures IsSquashed(env, any, a, s)
    ensures Mapped(mem, s.before) && Mapped(mem, s.after) ==>
      && Run(env.m, mem, s.before).Some? && Run(env.m, mem, s.after).Some?
      && (Run(env.m, mem, s.before) == Run(env.m, mem, s.after) <==> LeavesKept(env, any, a.res.value))
  {
    var obj := PointeeBase(env.tgt, a);
    var ws, cells := Stores(env, a.res.value, obj, 0), Means(env, any, a.res.value, obj, 0);
    s := SquashKeepsMemoryIff(env, any, a, mem);
    SoundNotBits(env, any, a);
    TreeAgrees(env, any, a.res.value, obj, 0);
    forall z: nat
      ensures After(mem, LastBit(ws, z), z) == After(mem, CellBit(cells, z), z) <==>
          OrZero(LastBit(ws, z)) == OrZero(CellBit(cells, z))
    {
      BitOfZero(z % 8);
      assert LastAt(cells, z / 8).Some? ==> Get(mem, z / 8) == 0;
    }
    assert Agree(mem, ws, cells) <==> AgreeZero(ws, cells);
  }

  // ----- which leaves keep their bytes -----

  /** A constant that goes in and is the same for every process. */
  lemma {:induction false} ConstKept(env: Env, any: AnyTypes, a: Arg)
    requires a.ConstArg? && SoundInt(a) && !a.typ.ProcT? && a.typ.com.dir != DirOut
    ensures LeafKept(env, any, a)
  {
    ConstLeaf(env, a);
    ConstBytes(env, any, a);
    NoStride(ConstValue(a).value.0, env.m.procid);
  }

  /** Pointers that go in, and data. */
  lemma {:induction false} PointerKept(env: Env, any: AnyTypes, a: Arg)
    requires SoundLeaf(env, any, a) && (a.DataArg? || (a.PointerArg? && a.typ.com.dir != DirOut))
    ensures LeafKept(env, any, a)
  {
    if a.PointerArg? {
      NoStride(PhysicalAddr(env.tgt, a).value, env.m.procid);
    }
  }

  predicate Produced(env: Env, a: Arg)
    requires a.ResultArg?
  {
    a.ref.Some? ==> Rank(env.used, a.ref.value) % TWO64 in env.m.results
  }

  /** A result in native order: if it was produced, or its default is that of the any types. */
  lemma {:induction false} ResultKept(env: Env, any: AnyTypes, a: Arg)
    requires a.ResultArg? && SoundResult(env, a) && any.Ok() && a.typ.com.dir != DirOut && a.typ.format == Native
    ensures LeafKept(env, any, a) <==>
            Produced(env, a) || LeBytes(a.typ.default, a.typ.com.size) == LeBytes(TWO64 - 1, a.typ.com.size)
  {
    ResultBytes(env, any, a);
    if a.ref.None? { NoStride(a.val, env.m.procid); }
  }

  /** A result in big-endian order is squashed to native order: if it was produced and its bytes
      read the same, or it was not and its default is that of the any types. */
  lemma {:induction false} BigEndianResultKept(env: Env, any: AnyTypes, a: Arg)
    requires a.ResultArg? && SoundResult(env, a) && any.Ok() && a.typ.com.dir != DirOut && a.typ.format == BigEndian
    ensures LeafKept(env, any, a) <==>
            if Produced(env, a) then Reversed(LeafBytes(env, a)) == LeafBytes(env, a)
            else LeBytes(a.typ.default, a.typ.com.size) == LeBytes(TWO64 - 1, a.typ.com.size)
  {
    var n := a.typ.com.size;
    if Produced(env, a) {
      var v := ProducedBytes(env, any, a);
      ReversedTwice(LeBytes(v, n));
    } else {
      UnproducedBytes(env, any, a);
      OnesReversed(n);
      ReversedTwice(LeBytes(a.typ.default, n));
    }
  }

  lemma {:induction false} ProducedBytes(env: Env, any: AnyTypes, a: Arg) returns (v: U64)
    requires a.ResultArg? && SoundResult(env, a) && any.Ok() && a.typ.com.dir != DirOut && a.typ.format == BigEndian
    requires Produced(env, a)
    ensures NewBytes(env, any, a) == LeBytes(v, a.typ.com.size)
    ensures LeafBytes(env, a) == Reversed(LeBytes(v, a.typ.com.size))
  {
    ResultBytes(env, any, a);
    if a.ref.None? {
      v := a.val;
      NoStride(a.val, env.m.procid);
    } else {
      v := ReferredBytes(env, any, a);
    }
  }

  lemma {:induction false} ReferredBytes(env: Env, any: AnyTypes, a: Arg) returns (v: U64)
    requires a.ResultArg? && SoundResult(env, a) && any.Ok() && a.typ.com.dir != DirOut && a.typ.format == BigEndian
    requires a.ref.Some? && Produced(env, a)
    ensures NewBytes(env, any, a) == LeBytes(v, a.typ.com.size)
    ensures LeafBytes(env, a) == Reversed(LeBytes(v, a.typ.com.size))
  {
    ResultBytes(env, any, a);
    v := ResultValue(env.m, Rank(env.used, a.ref.value) % TWO64, a.opDiv, a.opAdd, 0);
  }

  lemma {:induction false} UnproducedBytes(env: Env, any: AnyTypes, a: Arg)
    requires a.ResultArg? && SoundResult(env, a) && any.Ok() && a.typ.com.dir != DirOut && a.typ.format == BigEndian
    requires !Produced(env, a)
    ensures NewBytes(env, any, a) == LeBytes(TWO64 - 1, a.typ.com.size)
    ensures LeafBytes(env, a) == Reversed(LeBytes(a.typ.default, a.typ.com.size))
  {
    ResultBytes(env, any, a);
  }

  lemma {:induction false} AllOnes(k: nat, n: nat, i: nat)
    requires i < n <= k
    ensures LeBytes(Pow2(8 * k) - 1, n)[i] == 255
    decreases i
  {
    PowOf8();
    PowAdd(8, 8 * (k - 1));
    assert (Pow2(8 * k) - 1) / 256 == Pow2(8 * (k - 1)) - 1;
    if i > 0 { AllOnes(k - 1, n - 1, i - 1); }
  }

  lemma {:induction false} OnesReversed(n: nat)
    requires n <= 8
    ensures Reversed(LeBytes(TWO64 - 1, n)) == LeBytes(TWO64 - 1, n)
  {
    var ones := LeBytes(TWO64 - 1, n);
    PowOf64();
    forall i | 0 <= i < n ensures Reversed(ones)[i] == ones[i] {
      ReversedAt(ones, i);
      AllOnes(8, n, i);
      AllOnes(8, n, n - 1 - i);
    }
  }

  lemma {:induction false} ReversedTwice(b: seq<Byte>)
    ensures Reversed(Reversed(b)) == b
  {
    forall i | 0 <= i < |b| ensures Reversed(Reversed(b))[i] == b[i] {
      ReversedAt(Reversed(b), i);
      ReversedAt(b, |b| - 1 - i);
    }
  }
}
