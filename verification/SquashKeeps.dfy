/**
  Squashing keeps sizes and what the tree means in memory; its panics are unreachable.
 */
module SquashKeeps {
  import opened Ir
  import opened ExecFormat
  import opened ExecCompile
  import opened ExecMemory
  import opened Squash

  type Bytes = Arg -> seq<Byte>

  // ----- lists of squashed elements -----

  /** An element of a squashed list. */
  predicate IsElem(any: AnyTypes, e: Arg) {
    e.UnionArg? && e.typ == any.union && (e.option.DataArg? ==> e.option.typ == any.blob && e.option.outSize == 0)
  }

  predicate AreElems(any: AnyTypes, elems: seq<Arg>) {
    forall i :: 0 <= i < |elems| ==> IsElem(any, elems[i])
  }

  function Shown(f: Bytes, tgt: Target, elems: seq<Arg>, base: nat): seq<Cell> {
    ContentFields(f, tgt, elems, base, 0, 0)
  }

  lemma {:induction false} Assoc(a: seq<Cell>, b: seq<Cell>, c: seq<Cell>)
    ensures (a + b) + c == a + (b + c)
  {
  }

  lemma {:induction false} Snoc(f: Bytes, tgt: Target, any: AnyTypes, xs: seq<Arg>, y: Arg, base: nat, off: nat)
    requires any.Ok() && AreElems(any, xs) && IsElem(any, y)
    ensures SizeSeq(xs + [y]) == SizeSeq(xs) + Size(y)
    ensures ContentFields(f, tgt, xs + [y], base, off, 0) ==
        ContentFields(f, tgt, xs, base, off, 0) + Content(f, tgt, y, base, off + SizeSeq(xs))
    decreases xs
  {
    var all := xs + [y];
    if xs == [] {
      assert all == [y] && all[1..] == [];
      assert ContentFields(f, tgt, [], base, off + Size(y), 0) == [];
    } else {
      assert all[0] == xs[0] && all[1..] == xs[1..] + [y];
      Snoc(f, tgt, any, xs[1..], y, base, off + Size(xs[0]));
      Assoc(Content(f, tgt, xs[0], base, off), ContentFields(f, tgt, xs[1..], base, off + Size(xs[0]), 0),
            Content(f, tgt, y, base, off + SizeSeq(xs)));
    }
  }

  lemma {:induction false} SoundSnoc(ok: Arg -> bool, any: AnyTypes, xs: seq<Arg>, y: Arg)
    requires any.Ok() && AreElems(any, xs) && IsElem(any, y) && SoundFields(ok, xs) && Sound(ok, y)
    ensures SoundFields(ok, xs + [y])
    decreases xs
  {
    var all := xs + [y];
    if xs == [] {
      assert all == [y] && all[1..] == [];
      assert SoundFields(ok, []);
    } else {
      assert all[0] == xs[0] && all[1..] == xs[1..] + [y];
      SoundSnoc(ok, any, xs[1..], y);
    }
  }

  lemma {:induction false} SoundInit(ok: Arg -> bool, any: AnyTypes, xs: seq<Arg>, y: Arg)
    requires any.Ok() && AreElems(any, xs) && IsElem(any, y) && SoundFields(ok, xs + [y])
    ensures SoundFields(ok, xs) && Sound(ok, y)
    decreases xs
  {
    var all := xs + [y];
    if xs == [] {
      assert all == [y];
    } else {
      assert all[0] == xs[0] && all[1..] == xs[1..] + [y];
      SoundInit(ok, any, xs[1..], y);
    }
  }

  /** The leaves of a tree: which are allowed, and their bytes. */
  datatype View = View(f: Bytes, ok: Arg -> bool, tgt: Target, any: AnyTypes, base: nat)

  /** `e1` is `e0` with `size` more bytes that mean `content`. */
  ghost predicate Extends(v: View, e0: seq<Arg>, e1: seq<Arg>, size: nat, content: seq<Cell>) {
    && AreElems(v.any, e1) && SoundFields(v.ok, e1)
    && SizeSeq(e1) == SizeSeq(e0) + size
    && Shown(v.f, v.tgt, e1, v.base) == Shown(v.f, v.tgt, e0, v.base) + content
  }

  ghost predicate Start(v: View, e: seq<Arg>) {
    v.any.Ok() && AreElems(v.any, e) && SoundFields(v.ok, e)
  }

  lemma {:induction false} ExtendsTwice(v: View, e0: seq<Arg>, e1: seq<Arg>, e2: seq<Arg>, s1: nat, c1: seq<Cell>,
      s2: nat, c2: seq<Cell>)
    requires Extends(v, e0, e1, s1, c1) && Extends(v, e1, e2, s2, c2)
    ensures Extends(v, e0, e2, s1 + s2, c1 + c2)
  {
    Assoc(Shown(v.f, v.tgt, e0, v.base), c1, c2);
  }

  lemma {:induction false} ExtendsNone(v: View, e: seq<Arg>)
    requires Start(v, e)
    ensures Extends(v, e, e, 0, [])
  {
    assert Shown(v.f, v.tgt, e, v.base) + [] == Shown(v.f, v.tgt, e, v.base);
  }

  /** A new element. */
  lemma {:induction false} NewElem(v: View, e: seq<Arg>, y: Arg)
    requires Start(v, e) && IsElem(v.any, y) && Sound(v.ok, y)
    ensures Extends(v, e, e + [y], Size(y), Content(v.f, v.tgt, y, v.base, SizeSeq(e)))
  {
    Snoc(v.f, v.tgt, v.any, e, y, v.base, 0);
    SoundSnoc(v.ok, v.any, e, y);
  }

  function BlobElem(any: AnyTypes, data: seq<Byte>): Arg {
    UnionArg(any.union, DataArg(any.blob, data, 0))
  }

  /** A blob stands for its data. */
  ghost predicate BlobsOk(v: View) {
    forall data :: v.f(DataArg(v.any.blob, data, 0)) == data && v.ok(DataArg(v.any.blob, data, 0))
  }

  lemma {:induction false} BlobMeans(v: View, data: seq<Byte>, off: nat)
    requires v.any.Ok() && BlobsOk(v)
    ensures IsElem(v.any, BlobElem(v.any, data)) && Size(BlobElem(v.any, data)) == |data| &&
        Sound(v.ok, BlobElem(v.any, data))
    ensures Content(v.f, v.tgt, BlobElem(v.any, data), v.base, off) == At(v.base + off, data)
  {
    var d := DataArg(v.any.blob, data, 0);
    assert Size(d) == |data|;
    assert Content(v.f, v.tgt, d, v.base, off) == At(v.base + off, data);
    assert At(v.base + off, data) + [] == At(v.base + off, data);
  }

  lemma {:induction false} GrowBlob(v: View, xs: seq<Arg>, old_: seq<Byte>, data: seq<Byte>)
    requires Start(v, xs + [BlobElem(v.any, old_)]) && Start(v, xs) && BlobsOk(v)
    ensures var e := xs + [BlobElem(v.any, old_)];
      Extends(v, e, xs + [BlobElem(v.any, old_ + data)], |data|, At(v.base + SizeSeq(e), data))
  {
    BlobGrown(v, xs, old_, data, xs + [BlobElem(v.any, old_)], xs + [BlobElem(v.any, old_ + data)]);
  }

  lemma {:induction false} BlobGrown(v: View, xs: seq<Arg>, old_: seq<Byte>, data: seq<Byte>, e1: seq<Arg>,
      e2: seq<Arg>)
    requires Start(v, xs) && BlobsOk(v) && e1 == xs + [BlobElem(v.any, old_)]
    requires e2 == xs + [BlobElem(v.any, old_ + data)]
    ensures Extends(v, e1, e2, |data|, At(v.base + SizeSeq(e1), data))
  {
    var off := SizeSeq(xs);
    NewBlob(v, xs, old_);
    NewBlob(v, xs, old_ + data);
    AtJoin(v.base + off, old_, data);
    assert |old_ + data| == |old_| + |data|;
    var c1, c2 := At(v.base + off, old_), At(v.base + off + |old_|, data);
    ExtendsIs(v, xs, e2, |old_ + data|, At(v.base + off, old_ + data), e2, |old_| + |data|, c1 + c2);
    Regroup(v, xs, e1, e2, |old_|, c1, |data|, c2);
    assert SizeSeq(e1) == off + |old_|;
    ExtendsIs(v, e1, e2, |data|, c2, e2, |data|, At(v.base + SizeSeq(e1), data));
  }

  lemma {:induction false} NewBlob(v: View, xs: seq<Arg>, data: seq<Byte>)
    requires Start(v, xs) && BlobsOk(v)
    ensures Extends(v, xs, xs + [BlobElem(v.any, data)], |data|, At(v.base + SizeSeq(xs), data))
  {
    BlobMeans(v, data, SizeSeq(xs));
    NewElem(v, xs, BlobElem(v.any, data));
  }

  lemma {:induction false} Regroup(v: View, e: seq<Arg>, e1: seq<Arg>, e2: seq<Arg>, s1: nat, c1: seq<Cell>, s2: nat,
      c2: seq<Cell>)
    requires Extends(v, e, e1, s1, c1) && Extends(v, e, e2, s1 + s2, c1 + c2)
    ensures Extends(v, e1, e2, s2, c2)
  {
    Assoc(Shown(v.f, v.tgt, e, v.base), c1, c2);
  }

  lemma {:induction false} AddDataKeeps(v: View, e: seq<Arg>, data: seq<Byte>)
    requires Start(v, e) && BlobsOk(v)
    ensures Extends(v, e, AddData(v.any, e, data), |data|, At(v.base + SizeSeq(e), data))
  {
    if e != [] && IsBlob(e[|e| - 1]) {
      var xs, last := e[..|e| - 1], e[|e| - 1];
      assert IsElem(v.any, last);
      assert e == xs + [last] && last == BlobElem(v.any, last.option.data);
      SoundInit(v.ok, v.any, xs, last);
      GrowBlob(v, xs, last.option.data, data);
      assert AddData(v.any, e, data) == xs + [BlobElem(v.any, last.option.data + data)];
    } else {
      NewBlob(v, e, data);
      assert AddData(v.any, e, data) == e + [BlobElem(v.any, data)];
    }
  }

  lemma {:induction false} AddPadKeeps(v: View, e0: seq<Arg>, e1: seq<Arg>, size: nat, content: seq<Cell>, full: nat)
    requires v.any.Ok() && BlobsOk(v) && Extends(v, e0, e1, size, content) && size <= full
    ensures AddPad(v.any, Some(e1), full - size).Some?
    ensures Extends(v, e0, AddPad(v.any, Some(e1), full - size).value, full,
        content + Rest(v.base + SizeSeq(e0), size, full))
  {
    if size == full {
      assert content + [] == content;
    } else {
      var zeros := Zeros(full - size);
      AddDataKeeps(v, e1, zeros);
      var e2, more := AddData(v.any, e1, zeros), At(v.base + SizeSeq(e1), zeros);
      ExtendsTwice(v, e0, e1, e2, size, content, full - size, more);
      assert more == Rest(v.base + SizeSeq(e0), size, full);
      ExtendsIs(v, e0, e2, size + (full - size), content + more, AddPad(v.any, Some(e1), full - size).value, full,
                content + Rest(v.base + SizeSeq(e0), size, full));
    }
  }

  /** The same fact about equal things. */
  lemma {:induction false} ExtendsIs(v: View, e0: seq<Arg>, e1: seq<Arg>, size: nat, content: seq<Cell>, e2: seq<Arg>,
      size2: nat,
                                     content2: seq<Cell>)
    requires Extends(v, e0, e1, size, content) && e1 == e2 && size == size2 && content == content2
    ensures Extends(v, e0, e2, size2, content2)
  {
  }

  // ----- leaves -----

  lemma {:induction false} BytesOfVal(b: seq<Byte>)
    ensures LeBytes(LeVal(b), |b|) == b
  {
    if b != [] {
      BytesOfVal(b[1..]);
      var v, lo := LeVal(b[1..]), b[0];
      LowByte(lo, v);
      assert LeBytes(LeVal(b), |b|) == [lo] + LeBytes(v, |b| - 1);
      assert b == [lo] + b[1..];
    }
  }

  lemma {:induction false} LowByte(lo: Byte, v: nat)
    ensures (lo + 256 * v) % 256 == lo && (lo + 256 * v) / 256 == v
  {
  }

  lemma {:induction false} SwapBytes(v: U64, size: nat)
    requires size <= 8
    ensures LeBytes(Swap(v, size), size) == Reversed(LeBytes(v, size))
  {
    BytesOfVal(Reversed(LeBytes(v, size)));
  }

  lemma {:induction false} NoStride(v: U64, procid: U64)
    ensures (v + 0 * procid) % TWO64 == v
  {
  }

  lemma {:induction false} ConstWritten(env: Env, a: Arg)
    requires a.ConstArg? && SoundInt(a)
    ensures WriteArg(env.tgt, StaticInfos(env.used), a) ==
            Some(ExecConst(a.typ.com.size, FormatCode(a.typ.bits.format), ConstValue(a).value.0, 0, 0,
                ConstValue(a).value.1))
    ensures NoCopyin(a) <==> a.typ.com.dir == DirOut || Size(a) == 0
  {
  }

  /** What the executor makes of the value in the process it runs in. */
  function OldValue(env: Env, a: Arg): U64
    requires a.ConstArg? && ConstValue(a).Some?
  {
    (ConstValue(a).value.0 + ConstValue(a).value.1 * env.m.procid) % TWO64
  }

  lemma {:induction false} ConstLeaf(env: Env, a: Arg)
    requires a.ConstArg? && SoundInt(a) && a.typ.com.dir != DirOut
    ensures LeafBytes(env, a) == IntBytes(OldValue(env, a), Size(a), FormatCode(a.typ.bits.format))
  {
    ConstWritten(env, a);
    if Size(a) == 0 {
      assert LeafBytes(env, a) == [];
      assert IntBytes(OldValue(env, a), 0, FormatCode(a.typ.bits.format)) == [];
    }
  }

  /** The bytes of a squashed constant, in both byte orders. */
  lemma {:induction false} ConstBytes(env: Env, any: AnyTypes, a: Arg)
    requires a.ConstArg? && SoundInt(a)
    ensures SquashedValue(a).Some?
    ensures NewBytes(env, any, a) == IntBytes(ConstValue(a).value.0, Size(a), FormatCode(a.typ.bits.format))
  {
    if a.typ.bits.format == BigEndian {
      SwapBytes(ConstValue(a).value.0, a.typ.com.size);
    }
  }

  /** A checksum becomes a marker that hints can find. */
  lemma {:induction false} ChecksumMarked(any: AnyTypes, a: Arg, elems: seq<Arg>)
    requires a.ConstArg? && a.typ.CsumT? && a.typ.com.size == 2
    ensures SquashConst(any, a, elems) == Some(AddData(any, elems, [0x90, 0x78]))
  {
    var v: nat, w: nat := 0xabcd_ef12_3456_7890, 0xab_cdef_1234_5678;
    assert v % 256 == 0x90 && v / 256 == w && w % 256 == 0x78;
    assert LeBytes(w, 1) == [0x78] + LeBytes(w / 256, 0);
    assert LeBytes(v, 2) == [0x90] + LeBytes(w, 1) == [0x90, 0x78];
    assert SquashedValue(a) == Some(0xabcd_ef12_3456_7890) && Size(a) == 2;
  }

  /** The view of an environment. */
  function ViewOf(env: Env, any: AnyTypes, base: nat): View {
    View(Leaves(env, any), SoundIn(env, any), env.tgt, any, base)
  }

  lemma {:induction false} ViewBlobs(env: Env, any: AnyTypes, base: nat)
    requires any.Ok()
    ensures BlobsOk(ViewOf(env, any, base))
  {
  }

  ghost predicate Kept(v: View, e: seq<Arg>, r: Option<seq<Arg>>, size: nat, content: seq<Cell>) {
    r.Some? && Extends(v, e, r.value, size, content)
  }

  lemma {:induction false} ConstAdds(env: Env, any: AnyTypes, a: Arg, e: seq<Arg>)
    requires SoundLeaf(env, any, a) && a.ConstArg?
    ensures |NewBytes(env, any, a)| == Size(a) && SquashConst(any, a, e) == Some(AddData(any, e, NewBytes(env, any, a)))
  {
    if !IsPad(a.typ) {
      ConstBytes(env, any, a);
    }
  }

  lemma {:induction false} LeafKeeps(env: Env, any: AnyTypes, base: nat, bytes: seq<Byte>, e: seq<Arg>)
    requires Start(ViewOf(env, any, base), e)
    ensures Extends(ViewOf(env, any, base), e, AddData(any, e, bytes), |bytes|, At(base + SizeSeq(e), bytes))
  {
    ViewBlobs(env, any, base);
    AddDataKeeps(ViewOf(env, any, base), e, bytes);
  }

  /** A retyped result stays what it is. */
  lemma {:induction false} ResultBytes(env: Env, any: AnyTypes, a: Arg)
    requires a.ResultArg? && SoundResult(env, a) && any.Ok()
    ensures AnyRes(any, a.typ.com.size).Some?
    ensures var b := Retyped(a, AnyRes(any, a.typ.com.size).value);
      SoundResult(env, b) && Size(b) == Size(a) && NewBytes(env, any, b) == NewBytes(env, any, a) == LeafBytes(env, b)
  {
  }

  lemma {:induction false} ResultKeeps(env: Env, any: AnyTypes, base: nat, a: Arg, e: seq<Arg>)
    requires SoundLeaf(env, any, a) && a.ResultArg? && Start(ViewOf(env, any, base), e)
    ensures Kept(ViewOf(env, any, base), e, SquashResult(any, a, e), Size(a),
        At(base + SizeSeq(e), NewBytes(env, any, a)))
  {
    var y := ResultElem(env, any, base, a, e);
    ElemKeeps(env, any, base, e, y, SquashResult(any, a, e), Size(a), NewBytes(env, any, a));
  }

  lemma {:induction false} ElemKeeps(env: Env, any: AnyTypes, base: nat, e: seq<Arg>, y: Arg, r: Option<seq<Arg>>,
      size: nat, bytes: seq<Byte>)
    requires Start(ViewOf(env, any, base), e) && IsElem(any, y) && Sound(SoundIn(env, any), y) && r == Some(e + [y])
    requires size == Size(y) && At(base + SizeSeq(e), bytes) == Content(Leaves(env, any), env.tgt, y, base, SizeSeq(e))
    ensures Kept(ViewOf(env, any, base), e, r, size, At(base + SizeSeq(e), bytes))
  {
    ElemAdds(ViewOf(env, any, base), e, y, r, size, At(base + SizeSeq(e), bytes));
  }

  lemma {:induction false} ElemAdds(v: View, e: seq<Arg>, y: Arg, r: Option<seq<Arg>>, size: nat, content: seq<Cell>)
    requires Start(v, e) && IsElem(v.any, y) && Sound(v.ok, y) && r == Some(e + [y])
    requires size == Size(y) && content == Content(v.f, v.tgt, y, v.base, SizeSeq(e))
    ensures Kept(v, e, r, size, content)
  {
    NewElem(v, e, y);
  }

  /** The element for a result. */
  lemma {:induction false} ResultElem(env: Env, any: AnyTypes, base: nat, a: Arg, e: seq<Arg>) returns (y: Arg)
    requires SoundLeaf(env, any, a) && a.ResultArg? && any.Ok()
    ensures var v := ViewOf(env, any, base);
      && IsElem(any, y) && Sound(v.ok, y) && Size(y) == Size(a) && SquashResult(any, a, e) == Some(e + [y])
      && Content(v.f, v.tgt, y, base, SizeSeq(e)) == At(base + SizeSeq(e), NewBytes(env, any, a))
  {
    ResultBytes(env, any, a);
    var b := Retyped(a, AnyRes(any, a.typ.com.size).value);
    y := UnionArg(any.union, b);
    ResultStep(env, any, a, e, b);
    ResultView(env, any, base, b, SizeSeq(e));
    UnionMeans(ViewOf(env, any, base), b, SizeSeq(e));
  }

  lemma {:induction false} ResultStep(env: Env, any: AnyTypes, a: Arg, e: seq<Arg>, b: Arg)
    requires a.ResultArg? && SoundResult(env, a) && AnyRes(any, a.typ.com.size).Some?
    requires b == Retyped(a, AnyRes(any, a.typ.com.size).value)
    ensures SquashResult(any, a, e) == Some(e + [UnionArg(any.union, b)])
  {
  }

  lemma {:induction false} ResultView(env: Env, any: AnyTypes, base: nat, b: Arg, off: nat)
    requires b.ResultArg? && SoundResult(env, b)
    ensures var v := ViewOf(env, any, base);
      Sound(v.ok, b) && Content(v.f, v.tgt, b, base, off) == At(base + off, NewBytes(env, any, b))
  {
    var v := ViewOf(env, any, base);
    assert v.ok(b) && v.f(b) == NewBytes(env, any, b);
  }

  /** An element means what its option means. */
  lemma {:induction false} UnionMeans(v: View, option: Arg, off: nat)
    requires v.any.Ok() && Sound(v.ok, option) && !option.DataArg?
    ensures var e := UnionArg(v.any.union, option);
      IsElem(v.any, e) && Size(e) == Size(option) && Sound(v.ok, e) &&
      Content(v.f, v.tgt, e, v.base, off) == Content(v.f, v.tgt, option, v.base, off)
  {
    assert Content(v.f, v.tgt, option, v.base, off) + [] == Content(v.f, v.tgt, option, v.base, off);
  }

  lemma {:induction false} NilPointerAdds(env: Env, any: AnyTypes, a: Arg, e: seq<Arg>)
    requires SoundLeaf(env, any, a) && a.PointerArg? && a.res.None?
    ensures |NewBytes(env, any, a)| == Size(a) &&
        SquashImpl(env.tgt, any, a, e) == Some(AddData(any, e, NewBytes(env, any, a)))
  {
  }

  // ----- trees -----

  /** What a tree means in memory once it is squashed. */
  function Means(env: Env, any: AnyTypes, a: Arg, base: nat, off: nat): seq<Cell> {
    Content(Leaves(env, any), env.tgt, a, base, off)
  }

  function FieldsMean(env: Env, any: AnyTypes, args: seq<Arg>, base: nat, off: nat, acc: nat): seq<Cell> {
    ContentFields(Leaves(env, any), env.tgt, args, base, off, acc)
  }

  predicate IsSound(env: Env, any: AnyTypes, a: Arg) {
    Sound(SoundIn(env, any), a)
  }

  /** A squashed pointer: same address and size, same size of the object, same meaning. */
  ghost predicate PtrKept(env: Env, any: AnyTypes, a: Arg, r: Option<Arg>)
    requires a.PointerArg? && a.res.Some?
  {
    && r.Some? && r.value.PointerArg? && r.value.res.Some?
    && r.value.address == a.address && r.value.vmaSize == a.vmaSize
    && IsSound(env, any, r.value) && Size(r.value) == Size(a)
    && Size(r.value.res.value) == Size(a.res.value)
    && NewBytes(env, any, r.value) == NewBytes(env, any, a)
    && var obj := PointeeBase(env.tgt, a);
       Means(env, any, r.value.res.value, obj, 0) == Means(env, any, a.res.value, obj, 0)
  }

  lemma {:induction false} ListMeans(v: View, elems: seq<Arg>)
    requires Start(v, elems)
    ensures var list := GroupArg(v.any.list, elems);
      Size(list) == SizeSeq(elems) && Sound(v.ok, list) &&
          Content(v.f, v.tgt, list, v.base, 0) == Shown(v.f, v.tgt, elems, v.base)
  {
    assert Shown(v.f, v.tgt, elems, v.base) + [] == Shown(v.f, v.tgt, elems, v.base);
  }

  lemma {:induction false} NewPointer(env: Env, any: AnyTypes, a: Arg, list: Arg)
    requires a.PointerArg? && a.res.Some? && SoundLeaf(env, any, a) && Size(list) == Size(a.res.value)
    ensures var p := PointerArg(PtrT(a.typ.com.(dir := DirIn, optional := true), any.pointee), a.address, a.vmaSize,
        Some(list));
      SoundLeaf(env, any, p) && NewBytes(env, any, p) == NewBytes(env, any, a)
  {
    var p := PointerArg(PtrT(a.typ.com.(dir := DirIn, optional := true), any.pointee), a.address, a.vmaSize,
        Some(list));
    assert PhysicalAddr(env.tgt, p) == PhysicalAddr(env.tgt, a);
  }

  lemma {:induction false} PtrKeeps(env: Env, any: AnyTypes, a: Arg)
    requires any.Ok() && IsSound(env, any, a) && a.PointerArg? && a.res.Some?
    ensures PtrKept(env, any, a, SquashPtr(env.tgt, any, a))
    decreases a, 0
  {
    var obj, res := PointeeBase(env.tgt, a), a.res.value;
    var v := ViewOf(env, any, obj);
    assert SoundLeaf(env, any, a);
    assert Start(v, []);
    ImplKeeps(env, any, obj, res, []);
    var elems := SquashImpl(env.tgt, any, res, []).value;
    ListMeans(v, elems);
    assert Shown(v.f, v.tgt, [], obj) == [];
    assert [] + Means(env, any, res, obj, 0) == Means(env, any, res, obj, 0);
    NewPointer(env, any, a, GroupArg(any.list, elems));
  }

  lemma {:induction false} PointerMeans(env: Env, any: AnyTypes, a: Arg, b: Arg, base: nat, off: nat)
    requires a.PointerArg? && b.PointerArg? && a.res.Some? && b.res.Some?
    requires NewBytes(env, any, b) == NewBytes(env, any, a)
    requires PointeeBase(env.tgt, a) == PointeeBase(env.tgt, b)
    requires Means(env, any, a.res.value, PointeeBase(env.tgt, a), 0) ==
        Means(env, any, b.res.value, PointeeBase(env.tgt, a), 0)
    ensures Means(env, any, a, base, off) == Means(env, any, b, base, off)
  {
  }

  lemma {:induction false} PointerKeeps(env: Env, any: AnyTypes, base: nat, a: Arg, e: seq<Arg>)
    requires any.Ok() && a.PointerArg? && a.res.Some? && BfLen(a.typ) == 0 && Start(ViewOf(env, any, base), e)
    requires PtrKept(env, any, a, SquashPtr(env.tgt, any, a))
    ensures Kept(ViewOf(env, any, base), e, SquashImpl(env.tgt, any, a, e), Size(a),
        Means(env, any, a, base, SizeSeq(e)))
  {
    var v := ViewOf(env, any, base);
    var p := SquashPtr(env.tgt, any, a).value;
    PointerMeans(env, any, a, p, base, SizeSeq(e));
    UnionMeans(v, p, SizeSeq(e));
    NewElem(v, e, UnionArg(any.union, p));
  }

  lemma {:induction false} OutDataKeeps(env: Env, any: AnyTypes, base: nat, a: Arg, e: seq<Arg>)
    requires SoundLeaf(env, any, a) && a.DataArg? && a.typ.com.dir == DirOut && Start(ViewOf(env, any, base), e)
    ensures Kept(ViewOf(env, any, base), e, SquashImpl(env.tgt, any, a, e), Size(a),
        At(base + SizeSeq(e), NewBytes(env, any, a)))
  {
    var v := ViewOf(env, any, base);
    ExtendsNone(v, e);
    assert [] + Rest(base + SizeSeq(e), 0, Size(a)) == At(base + SizeSeq(e), Zeros(Size(a)));
    PaddedIn(env, any, base, e, Some(e), 0, [], Size(a), SquashImpl(env.tgt, any, a, e),
        At(base + SizeSeq(e), NewBytes(env, any, a)));
  }

  lemma {:induction false} GroupSize(t: Type, inner: seq<Arg>)
    requires (t.StructT? || t.ArrayT?) && (!t.com.varlen ==> SizeSeq(inner) == t.com.size)
    ensures Size(GroupArg(t, inner)) == SizeSeq(inner) + GroupPad(t, inner)
  {
  }

  lemma {:induction false} PaddedKeeps(v: View, e: seq<Arg>, r: Option<seq<Arg>>, size: nat, content: seq<Cell>,
      full: nat)
    requires v.any.Ok() && BlobsOk(v) && Kept(v, e, r, size, content) && size <= full
    ensures Kept(v, e, AddPad(v.any, r, full - size), full, content + Rest(v.base + SizeSeq(e), size, full))
  {
    AddPadKeeps(v, e, r.value, size, content, full);
  }

  /** The same fact about equal things. */
  lemma {:induction false} KeptIs(v: View, e: seq<Arg>, r: Option<seq<Arg>>, size: nat, content: seq<Cell>,
                                  r1: Option<seq<Arg>>, size1: nat, content1: seq<Cell>)
    requires Kept(v, e, r, size, content) && r == r1 && size == size1 && content == content1
    ensures Kept(v, e, r1, size1, content1)
  {
  }

  lemma {:induction false} PaddedView(v: View, e: seq<Arg>, r: Option<seq<Arg>>, size: nat, content: seq<Cell>,
      full: nat,
                                      r1: Option<seq<Arg>>, content1: seq<Cell>)
    requires v.any.Ok() && BlobsOk(v) && Kept(v, e, r, size, content) && size <= full
    requires r1 == AddPad(v.any, r, full - size) && content1 == content + Rest(v.base + SizeSeq(e), size, full)
    ensures Kept(v, e, r1, full, content1)
  {
    PaddedKeeps(v, e, r, size, content, full);
    KeptIs(v, e, AddPad(v.any, r, full - size), full, content + Rest(v.base + SizeSeq(e), size, full), r1, full,
        content1);
  }

  lemma {:induction false} PaddedIn(env: Env, any: AnyTypes, base: nat, e: seq<Arg>, r: Option<seq<Arg>>, size: nat,
                                    content: seq<Cell>, full: nat, r1: Option<seq<Arg>>, content1: seq<Cell>)
    requires any.Ok() && Kept(ViewOf(env, any, base), e, r, size, content) && size <= full
    requires r1 == AddPad(any, r, full - size) && content1 == content + Rest(base + SizeSeq(e), size, full)
    ensures Kept(ViewOf(env, any, base), e, r1, full, content1)
  {
    ViewBlobs(env, any, base);
    PaddedView(ViewOf(env, any, base), e, r, size, content, full, r1, content1);
  }

  lemma {:induction false} GroupStep(env: Env, any: AnyTypes, base: nat, t: Type, inner: seq<Arg>, e: seq<Arg>)
    requires BfLen(t) == 0 && (t.StructT? || t.ArrayT?) && (!t.com.varlen ==> SizeSeq(inner) == t.com.size)
    ensures var a := GroupArg(t, inner);
      && SizeSeq(inner) <= Size(a)
      && SquashImpl(env.tgt, any, a, e) ==
           AddPad(any, SquashFields(env.tgt, any, inner, 0, e), Size(a) - SizeSeq(inner))
      && Means(env, any, a, base, SizeSeq(e)) ==
         FieldsMean(env, any, inner, base, SizeSeq(e), 0) + Rest(base + SizeSeq(e), SizeSeq(inner), Size(a))
  {
    GroupSize(t, inner);
  }

  lemma {:induction false} UnionStep(env: Env, any: AnyTypes, base: nat, t: Type, option: Arg, e: seq<Arg>)
    requires t.UnionT? && (!t.com.varlen ==> Size(option) <= t.com.size)
    ensures var a := UnionArg(t, option);
      && Size(option) <= Size(a)
      && SquashImpl(env.tgt, any, a, e) == AddPad(any, SquashImpl(env.tgt, any, option, e), Size(a) - Size(option))
      && Means(env, any, a, base, SizeSeq(e)) ==
         Means(env, any, option, base, SizeSeq(e)) + Rest(base + SizeSeq(e), Size(option), Size(a))
  {
  }

  lemma {:induction false} GroupKeeps(env: Env, any: AnyTypes, base: nat, a: Arg, e: seq<Arg>)
    requires any.Ok() && a.GroupArg? && IsSound(env, any, a)
    requires Kept(ViewOf(env, any, base), e, SquashFields(env.tgt, any, a.inner, 0, e), SizeSeq(a.inner),
                  FieldsMean(env, any, a.inner, base, SizeSeq(e), 0))
    ensures Kept(ViewOf(env, any, base), e, SquashImpl(env.tgt, any, a, e), Size(a),
        Means(env, any, a, base, SizeSeq(e)))
  {
    GroupStep(env, any, base, a.typ, a.inner, e);
    PaddedIn(env, any, base, e, SquashFields(env.tgt, any, a.inner, 0, e), SizeSeq(a.inner),
             FieldsMean(env, any, a.inner, base, SizeSeq(e), 0), Size(a), SquashImpl(env.tgt, any, a, e),
                 Means(env, any, a, base, SizeSeq(e)));
  }

  lemma {:induction false} UnionKeeps(env: Env, any: AnyTypes, base: nat, a: Arg, e: seq<Arg>)
    requires any.Ok() && a.UnionArg? && IsSound(env, any, a)
    requires Kept(ViewOf(env, any, base), e, SquashImpl(env.tgt, any, a.option, e), Size(a.option),
                  Means(env, any, a.option, base, SizeSeq(e)))
    ensures Kept(ViewOf(env, any, base), e, SquashImpl(env.tgt, any, a, e), Size(a),
        Means(env, any, a, base, SizeSeq(e)))
  {
    UnionStep(env, any, base, a.typ, a.option, e);
    PaddedIn(env, any, base, e, SquashImpl(env.tgt, any, a.option, e), Size(a.option),
             Means(env, any, a.option, base, SizeSeq(e)), Size(a), SquashImpl(env.tgt, any, a, e),
                 Means(env, any, a, base, SizeSeq(e)));
  }

  lemma {:induction false} ConstKeeps(env: Env, any: AnyTypes, base: nat, a: Arg, e: seq<Arg>)
    requires any.Ok() && IsSound(env, any, a) && Start(ViewOf(env, any, base), e) && a.ConstArg?
    ensures Kept(ViewOf(env, any, base), e, SquashImpl(env.tgt, any, a, e), Size(a),
        Means(env, any, a, base, SizeSeq(e)))
  {
    var bytes := NewBytes(env, any, a);
    ConstAdds(env, any, a, e);
    assert !IsBitfield(a.typ);
    ConstStep(env, any, a, e);
    LeafKeeps(env, any, base, bytes, e);
    KeptIs(ViewOf(env, any, base), e, Some(AddData(any, e, bytes)), |bytes|, At(base + SizeSeq(e), bytes),
           SquashImpl(env.tgt, any, a, e), Size(a), Means(env, any, a, base, SizeSeq(e)));
  }

  lemma {:induction false} ConstStep(env: Env, any: AnyTypes, a: Arg, e: seq<Arg>)
    requires a.ConstArg? && !IsBitfield(a.typ)
    ensures SquashImpl(env.tgt, any, a, e) == SquashConst(any, a, e)
    ensures forall base: nat :: Means(env, any, a, base, SizeSeq(e)) == At(base + SizeSeq(e), NewBytes(env, any, a))
  {
  }

  lemma {:induction false} NilKeeps(env: Env, any: AnyTypes, base: nat, a: Arg, e: seq<Arg>)
    requires any.Ok() && IsSound(env, any, a) && Start(ViewOf(env, any, base), e) && a.PointerArg? && a.res.None?
    ensures Kept(ViewOf(env, any, base), e, SquashImpl(env.tgt, any, a, e), Size(a),
        Means(env, any, a, base, SizeSeq(e)))
  {
    NilPointerAdds(env, any, a, e);
    LeafKeeps(env, any, base, NewBytes(env, any, a), e);
    assert Means(env, any, a, base, SizeSeq(e)) == At(base + SizeSeq(e), NewBytes(env, any, a)) + [];
  }

  lemma {:induction false} InDataKeeps(env: Env, any: AnyTypes, base: nat, a: Arg, e: seq<Arg>)
    requires any.Ok() && IsSound(env, any, a) && Start(ViewOf(env, any, base), e) && a.DataArg?
    requires a.typ.com.dir != DirOut
    ensures Kept(ViewOf(env, any, base), e, SquashImpl(env.tgt, any, a, e), Size(a),
        Means(env, any, a, base, SizeSeq(e)))
  {
    assert |a.data| == Size(a);
    LeafKeeps(env, any, base, a.data, e);
  }

  lemma {:induction false} ImplKeeps(env: Env, any: AnyTypes, base: nat, a: Arg, e: seq<Arg>)
    requires any.Ok() && IsSound(env, any, a) && Start(ViewOf(env, any, base), e)
    ensures Kept(ViewOf(env, any, base), e, SquashImpl(env.tgt, any, a, e), Size(a),
        Means(env, any, a, base, SizeSeq(e)))
    decreases a, 1
  {
    match a
    case ConstArg(_, _) => ConstKeeps(env, any, base, a, e);
    case ResultArg(_, _, _, _, _) => ResultKeeps(env, any, base, a, e);
    case PointerArg(_, _, _, res) =>
      if res.Some? {
        PtrKeeps(env, any, a);
        PointerKeeps(env, any, base, a, e);
      } else {
        NilKeeps(env, any, base, a, e);
      }
    case UnionArg(_, option) =>
      ImplKeeps(env, any, base, option, e);
      UnionKeeps(env, any, base, a, e);
    case DataArg(t, data, _) =>
      if t.com.dir == DirOut {
        OutDataKeeps(env, any, base, a, e);
      } else {
        InDataKeeps(env, any, base, a, e);
      }
    case GroupArg(t, inner) =>
      FieldsKeep(env, any, base, inner, 0, e);
      GroupKeeps(env, any, base, a, e);
  }

  lemma {:induction false} BitsSquash(a: Arg)
    requires SoundBits(a)
    ensures SquashedValue(a) == Some(BitsValue(a))
  {
  }

  ghost predicate FieldsKept(v: View, args: seq<Arg>, acc: nat, e: seq<Arg>) {
    Kept(v, e, SquashFields(v.tgt, v.any, args, acc, e), SizeSeq(args),
        ContentFields(v.f, v.tgt, args, v.base, SizeSeq(e), acc))
  }

  /** A list from its head and the rest. */
  lemma {:induction false} PlainKept(v: View, args: seq<Arg>, acc: nat, e: seq<Arg>)
    requires args != [] && !IsBitfield(args[0].typ)
    requires Kept(v, e, SquashImpl(v.tgt, v.any, args[0], e), Size(args[0]),
        Content(v.f, v.tgt, args[0], v.base, SizeSeq(e)))
    requires FieldsKept(v, args[1..], acc, SquashImpl(v.tgt, v.any, args[0], e).value)
    ensures FieldsKept(v, args, acc, e)
  {
    var e1, off := SquashImpl(v.tgt, v.any, args[0], e).value, SizeSeq(e);
    var e2 := SquashFields(v.tgt, v.any, args[1..], acc, e1).value;
    ExtendsTwice(v, e, e1, e2, Size(args[0]), Content(v.f, v.tgt, args[0], v.base, off),
                 SizeSeq(args[1..]), ContentFields(v.f, v.tgt, args[1..], v.base, off + Size(args[0]), acc));
  }

  lemma {:induction false} PendingKept(v: View, args: seq<Arg>, acc: nat, e: seq<Arg>)
    requires args != [] && IsBitfield(args[0].typ) && SoundBits(args[0]) && Size(args[0]) == 0
    requires FieldsKept(v, args[1..], AddBits(acc, args[0].typ, BitsValue(args[0])), e)
    ensures FieldsKept(v, args, acc, e)
  {
    BitsSquash(args[0]);
  }

  /** The bitfield that ends its storage. */
  lemma {:induction false} FlushKept(v: View, args: seq<Arg>, acc: nat, e: seq<Arg>, bytes: seq<Byte>)
    requires args != [] && IsBitfield(args[0].typ) && SoundBits(args[0]) && Size(args[0]) != 0
    requires bytes == LeBytes(AddBits(acc, args[0].typ, BitsValue(args[0])), Size(args[0]))
    requires Extends(v, e, AddData(v.any, e, bytes), |bytes|, At(v.base + SizeSeq(e), bytes))
    requires FieldsKept(v, args[1..], 0, AddData(v.any, e, bytes))
    ensures FieldsKept(v, args, acc, e)
  {
    var e1, off := AddData(v.any, e, bytes), SizeSeq(e);
    var e2 := SquashFields(v.tgt, v.any, args[1..], 0, e1).value;
    var c1, c2 := At(v.base + off, bytes), ContentFields(v.f, v.tgt, args[1..], v.base, off + |bytes|, 0);
    ExtendsTwice(v, e, e1, e2, |bytes|, c1, SizeSeq(args[1..]), c2);
    BitsSquash(args[0]);
    assert SquashFields(v.tgt, v.any, args, acc, e) == Some(e2);
    assert ContentFields(v.f, v.tgt, args, v.base, off, acc) == c1 + c2;
  }

  lemma {:induction false} FieldsKeep(env: Env, any: AnyTypes, base: nat, args: seq<Arg>, acc: nat, e: seq<Arg>)
    requires any.Ok() && SoundFields(SoundIn(env, any), args) && Start(ViewOf(env, any, base), e)
    ensures FieldsKept(ViewOf(env, any, base), args, acc, e)
    decreases args, 0
  {
    var v := ViewOf(env, any, base);
    if args == [] {
      ExtendsNone(v, e);
    } else if !IsBitfield(args[0].typ) {
      ImplKeeps(env, any, base, args[0], e);
      FieldsKeep(env, any, base, args[1..], acc, SquashImpl(env.tgt, any, args[0], e).value);
      PlainKept(v, args, acc, e);
    } else if Size(args[0]) == 0 {
      FieldsKeep(env, any, base, args[1..], AddBits(acc, args[0].typ, BitsValue(args[0])), e);
      PendingKept(v, args, acc, e);
    } else {
      var bytes := LeBytes(AddBits(acc, args[0].typ, BitsValue(args[0])), Size(args[0]));
      LeafKeeps(env, any, base, bytes, e);
      FieldsKeep(env, any, base, args[1..], 0, AddData(any, e, bytes));
      FlushKept(v, args, acc, e, bytes);
    }
  }

  // ----- result arguments keep their places -----

  /** A result argument but for its type. */
  datatype Bare = Bare(ref: Option<Loc>, opDiv: U64, opAdd: U64, val: U64)

  /** The result arguments of a tree, in order. */
  function Bares(a: Arg): seq<Bare> {
    match a
    case PointerArg(_, _, _, res) => if res.Some? then Bares(res.value) else []
    case GroupArg(_, inner) => BaresSeq(inner)
    case UnionArg(_, option) => Bares(option)
    case ResultArg(_, ref, opDiv, opAdd, val) => [Bare(ref, opDiv, opAdd, val)]
    case _ => []
  }

  function BaresSeq(args: seq<Arg>): seq<Bare> {
    if args == [] then [] else Bares(args[0]) + BaresSeq(args[1..])
  }

  /** `e1` has the results of `e`, and then `more`. */
  ghost predicate SameResults(e: seq<Arg>, e1: seq<Arg>, n: nat, refs: set<Loc>, more: seq<Bare>) {
    NumResultsSeq(e1) == NumResultsSeq(e) + n && RefsSeq(e1) == RefsSeq(e) + refs && BaresSeq(e1) == BaresSeq(e) + more
  }

  lemma {:induction false} BaresJoin(a: seq<Bare>, b: seq<Bare>, c: seq<Bare>)
    ensures (a + b) + c == a + (b + c)
  {
  }

  lemma {:induction false} SameTwice(e: seq<Arg>, e1: seq<Arg>, e2: seq<Arg>, n: nat, refs: set<Loc>, more: seq<Bare>,
                                     n1: nat, refs1: set<Loc>, more1: seq<Bare>)
    requires SameResults(e, e1, n, refs, more) && SameResults(e1, e2, n1, refs1, more1)
    ensures SameResults(e, e2, n + n1, refs + refs1, more + more1)
  {
    BaresJoin(BaresSeq(e), more, more1);
  }

  lemma {:induction false} SameNothing(e: seq<Arg>)
    ensures SameResults(e, e, 0, {}, [])
  {
    assert BaresSeq(e) + [] == BaresSeq(e);
  }

  lemma {:induction false} ResultsSnoc(xs: seq<Arg>, y: Arg)
    ensures SameResults(xs, xs + [y], NumResults(y), Refs(y), Bares(y))
  {
    var all := xs + [y];
    if xs == [] {
      assert all == [y] && all[1..] == [];
      assert NumResultsSeq([]) == 0 && RefsSeq([]) == {} && BaresSeq([]) == [];
      assert Bares(y) + [] == Bares(y) && [] + Bares(y) == Bares(y);
    } else {
      assert all[0] == xs[0] && all[1..] == xs[1..] + [y];
      ResultsSnoc(xs[1..], y);
      BaresJoin(Bares(xs[0]), BaresSeq(xs[1..]), Bares(y));
    }
  }

  lemma {:induction false} AddDataResults(any: AnyTypes, e: seq<Arg>, data: seq<Byte>)
    ensures SameResults(e, AddData(any, e, data), 0, {}, [])
  {
    if e != [] && IsBlob(e[|e| - 1]) {
      var xs, last := e[..|e| - 1], e[|e| - 1];
      var grown := AddData(any, e, data)[|e| - 1];
      assert e == xs + [last] && AddData(any, e, data) == xs + [grown];
      ResultsSnoc(xs, last);
      ResultsSnoc(xs, grown);
      assert NumResults(last) == 0 && Refs(last) == {} && Bares(last) == [];
      assert NumResults(grown) == 0 && Refs(grown) == {} && Bares(grown) == [];
      assert BaresSeq(e) == BaresSeq(xs) + [] == BaresSeq(xs + [grown]);
    } else {
      var y := BlobElem(any, data);
      ResultsSnoc(e, y);
      assert AddData(any, e, data) == e + [y] && NumResults(y) == 0 && Refs(y) == {} && Bares(y) == [];
    }
    assert BaresSeq(e) + [] == BaresSeq(e);
  }

  lemma {:induction false} AddPadResults(any: AnyTypes, e: seq<Arg>, r: Option<seq<Arg>>, pad: int, n: nat,
      refs: set<Loc>, more: seq<Bare>)
    requires AddPad(any, r, pad).Some? && SameResults(e, r.value, n, refs, more)
    ensures SameResults(e, AddPad(any, r, pad).value, n, refs, more)
  {
    if pad > 0 {
      AddDataResults(any, r.value, Zeros(pad));
      SameTwice(e, r.value, AddPad(any, r, pad).value, n, refs, more, 0, {}, []);
      assert more + [] == more && refs + {} == refs;
    }
  }

  /** Squashing neither drops nor reorders result arguments, so locations and references keep
      their meaning: whatever the tree, if it does not panic, the results of the new list are
      those of the old one and of the tree, in order, but for their types. */
  lemma {:induction false} ImplResults(tgt: Target, any: AnyTypes, a: Arg, e: seq<Arg>)
    requires SquashImpl(tgt, any, a, e).Some?
    ensures SameResults(e, SquashImpl(tgt, any, a, e).value, NumResults(a), Refs(a), Bares(a))
    decreases a, 1
  {
    match a
    case ConstArg(_, _) =>
      AddDataResults(any, e, if IsPad(a.typ) then Zeros(Size(a)) else LeBytes(SquashedValue(a).value, Size(a)));
    case ResultArg(_, ref, opDiv, opAdd, val) =>
      var y := SquashResult(any, a, e).value[|e|];
      ResultsSnoc(e, y);
      assert SquashImpl(tgt, any, a, e) == Some(e + [y]) && NumResults(y) == 1 && Refs(y) == Refs(a);
      assert Bares(y) == Bares(a);
    case PointerArg(_, _, _, res) =>
      if res.Some? {
        PtrResults(tgt, any, a);
        ResultsSnoc(e, UnionArg(any.union, SquashPtr(tgt, any, a).value));
      } else {
        AddDataResults(any, e, LeBytes(PhysicalAddr(tgt, a).value, Size(a)));
      }
    case UnionArg(t, option) =>
      ImplResults(tgt, any, option, e);
      AddPadResults(any, e, SquashImpl(tgt, any, option, e), if t.com.varlen then 0 else t.com.size - Size(option),
                    NumResults(option), Refs(option), Bares(option));
    case DataArg(t, data, _) =>
      AddDataResults(any, e, data);
      SameNothing(e);
      if t.com.dir == DirOut { AddPadResults(any, e, Some(e), Size(a), 0, {}, []); }
    case GroupArg(t, inner) =>
      FieldsResults(tgt, any, inner, 0, e);
      AddPadResults(any, e, SquashFields(tgt, any, inner, 0, e), GroupPad(t, inner), NumResultsSeq(inner),
          RefsSeq(inner), BaresSeq(inner));
  }

  /** The results of a bitfield and of what follows it. */
  lemma {:induction false} BitsResults(args: seq<Arg>, e: seq<Arg>, e1: seq<Arg>)
    requires args != [] && args[0].ConstArg?
    requires SameResults(e, e1, NumResultsSeq(args[1..]), RefsSeq(args[1..]), BaresSeq(args[1..]))
    ensures SameResults(e, e1, NumResultsSeq(args), RefsSeq(args), BaresSeq(args))
  {
    assert [] + BaresSeq(args[1..]) == BaresSeq(args[1..]) && {} + RefsSeq(args[1..]) == RefsSeq(args[1..]);
  }

  lemma {:induction false} FieldsResults(tgt: Target, any: AnyTypes, args: seq<Arg>, acc: nat, e: seq<Arg>)
    requires SquashFields(tgt, any, args, acc, e).Some?
    ensures SameResults(e, SquashFields(tgt, any, args, acc, e).value, NumResultsSeq(args), RefsSeq(args),
        BaresSeq(args))
    decreases args, 0
  {
    var end := SquashFields(tgt, any, args, acc, e).value;
    if args == [] {
      SameNothing(e);
    } else {
      var n, refs, more := NumResultsSeq(args[1..]), RefsSeq(args[1..]), BaresSeq(args[1..]);
      if IsBitfield(args[0].typ) {
        var acc1 := AddBits(acc, args[0].typ, SquashedValue(args[0]).value);
        if Size(args[0]) == 0 {
          FieldsResults(tgt, any, args[1..], acc1, e);
        } else {
          var data := LeBytes(acc1, Size(args[0]));
          AddDataResults(any, e, data);
          FieldsResults(tgt, any, args[1..], 0, AddData(any, e, data));
          SameTwice(e, AddData(any, e, data), end, 0, {}, [], n, refs, more);
          assert [] + more == more && {} + refs == refs;
        }
        BitsResults(args, e, end);
      } else {
        var next := SquashImpl(tgt, any, args[0], e).value;
        ImplResults(tgt, any, args[0], e);
        FieldsResults(tgt, any, args[1..], acc, next);
        SameTwice(e, next, end, NumResults(args[0]), Refs(args[0]), Bares(args[0]), n, refs, more);
      }
    }
  }

  /** A squashed pointer has the results of the pointer, in order, but for their types. */
  lemma {:induction false} PtrResults(tgt: Target, any: AnyTypes, a: Arg)
    requires a.PointerArg? && SquashPtr(tgt, any, a).Some?
    ensures var b := SquashPtr(tgt, any, a).value;
      NumResults(b) == NumResults(a) && Refs(b) == Refs(a) && Bares(b) == Bares(a)
    decreases a, 0
  {
    ImplResults(tgt, any, a.res.value, []);
    assert [] + Bares(a.res.value) == Bares(a.res.value);
  }
}
