/**
  The edits of the minimizer keep programs valid.

  Shapes and links are kept apart: what validate asks of each argument, and where references may
  go.  Links follow from what Clone needs, and from no argument referring to the return value of
  its own call.
 */
module ValidEdits {
  import opened Ir
  import opened Defaults
  import opened Sizes
  import opened ArgEdit
  import opened Cloning
  import opened Minimize

  // ----- shapes -----

  /** What holds of every argument in use: an object ends inside the address space, and blobs have
      the sizes that the description compiler gives them. */
  predicate Described(a: Arg)
    decreases a, 1
  {
    match a
    case PointerArg(_, address, _, res) => res.Some? ==> address + Size(res.value) < TWO64 && Described(res.value)
    case UnionArg(_, option) => Described(option)
    case GroupArg(_, inner) => DescribedSeq(inner)
    case DataArg(t, _, _) => t.BufferT? && !t.com.varlen && t.kind != StringBuf ==> BlobFixed(t)
    case _ => true
  }

  predicate DescribedSeq(args: seq<Arg>)
    decreases args, 0
  {
    args != [] ==> Described(args[0]) && DescribedSeq(args[1..])
  }

  predicate BlobFixed(t: Type)
    requires t.BufferT?
  {
    t.kind != BlobRand && (t.kind == BlobRange ==> t.rangeBegin == t.com.size)
  }

  /** An argument of the type that validate accepts. */
  ghost predicate Fine(tgt: Target, a: Arg, t: Type) {
    ValidArg(tgt, a, t) && Described(a)
  }

  ghost predicate FineSeq(tgt: Target, args: seq<Arg>, sh: Shape) {
    ValidSeq(tgt, args, sh) && DescribedSeq(args)
  }

  ghost predicate CallShaped(tgt: Target, call: Call) {
    && call.meta in tgt.syscalls
    && FineSeq(tgt, call.args, Fields(call.meta.args))
    && (call.meta.ret.None? ==> call.ret.None?)
    && (call.meta.ret.Some? ==> IsReturn(call.meta.ret.value) && call.ret == Some(ReturnArg(call.meta.ret.value)))
  }

  /** ValidProg but for links. */
  ghost predicate Shaped(tgt: Target, p: Program) {
    |tgt.special| > 0 && forall c | 0 <= c < |p| :: CallShaped(tgt, p[c])
  }

  // ----- mapped references -----

  lemma {:induction false} MappedSize(f: Loc -> Option<Loc>, a: Arg)
    ensures Size(MapRefs(f, a)) == Size(a)
    decreases a, 1
  {
    match a
    case UnionArg(_, option) => MappedSize(f, option);
    case GroupArg(_, inner) => MappedSizeSeq(f, inner);
    case _ =>
  }

  lemma {:induction false} MappedSizeSeq(f: Loc -> Option<Loc>, args: seq<Arg>)
    ensures SizeSeq(MapRefsSeq(f, args)) == SizeSeq(args)
    decreases args, 0
  {
    if args != [] {
      MappedSize(f, args[0]);
      MappedSizeSeq(f, args[1..]);
      assert MapRefsSeq(f, args)[1..] == MapRefsSeq(f, args[1..]);
    }
  }

  lemma {:induction false} MappedFine(tgt: Target, f: Loc -> Option<Loc>, a: Arg, t: Type)
    requires Fine(tgt, a, t)
    ensures Fine(tgt, MapRefs(f, a), t)
    decreases a, 1
  {
    match a
    case PointerArg(_, _, _, res) =>
      if res.Some? {
        MappedFine(tgt, f, res.value, tgt.pointees[t.pointee]);
        MappedSize(f, res.value);
      }
    case UnionArg(_, option) => MappedFine(tgt, f, option, FindOption(t.options, option.typ.com.field).value);
    case GroupArg(_, inner) => MappedFineSeq(tgt, f, inner, ShapeOf(t));
    case _ =>
  }

  lemma {:induction false} MappedFineSeq(tgt: Target, f: Loc -> Option<Loc>, args: seq<Arg>, sh: Shape)
    requires FineSeq(tgt, args, sh)
    ensures FineSeq(tgt, MapRefsSeq(f, args), sh)
    decreases args, 0
  {
    if args != [] {
      MappedFine(tgt, f, args[0], Head(sh).value);
      MappedFineSeq(tgt, f, args[1..], Tail(sh));
      assert MapRefsSeq(f, args)[1..] == MapRefsSeq(f, args[1..]);
    }
  }

  // ----- assigned sizes -----

  lemma {:induction false} OutlineFine(tgt: Target, a: Arg, t: Type)
    ensures Fine(tgt, Outline(a), t) <==> Fine(tgt, a, t)
    decreases a, 1
  {
    match a
    case PointerArg(_, _, _, res) =>
      if res.Some? {
        OutlineSize(res.value);
        if t.PtrT? && t.pointee < |tgt.pointees| { OutlineFine(tgt, res.value, tgt.pointees[t.pointee]); }
      }
    case UnionArg(_, option) =>
      if t.UnionT? {
        var o := FindOption(t.options, option.typ.com.field);
        if o.Some? { OutlineFine(tgt, option, o.value); }
      }
    case GroupArg(_, inner) =>
      if t.StructT? || t.ArrayT? { OutlineFineSeq(tgt, inner, ShapeOf(t)); }
    case _ =>
  }

  lemma {:induction false} OutlineFineSeq(tgt: Target, args: seq<Arg>, sh: Shape)
    ensures FineSeq(tgt, OutlineSeq(args), sh) <==> FineSeq(tgt, args, sh)
    decreases args, 0
  {
    if args != [] {
      assert OutlineSeq(args)[1..] == OutlineSeq(args[1..]);
      if Head(sh).Some? {
        OutlineFine(tgt, args[0], Head(sh).value);
        OutlineFineSeq(tgt, args[1..], Tail(sh));
      }
    }
  }

  lemma {:induction false} SameFine(tgt: Target, x: seq<Arg>, y: seq<Arg>, sh: Shape)
    requires OutlineSeq(x) == OutlineSeq(y) && FineSeq(tgt, x, sh)
    ensures FineSeq(tgt, y, sh)
  {
    OutlineFineSeq(tgt, x, sh);
    OutlineFineSeq(tgt, y, sh);
  }

  // ----- another argument in place of one -----

  lemma {:induction false} AlignIs(x: nat, align: nat) returns (q: nat)
    requires align > 0
    ensures AlignUp(x, align) == align * q && x <= align * q < x + align
  {
    var d, r := x / align, x % align;
    assert x == align * d + r;
    q := if r == 0 then d else d + 1;
    assert align * (d + 1) == align * d + align;
  }

  lemma {:induction false} MultiplesLe(p: nat, q: nat, q1: nat)
    requires p * q < p * q1 + p
    ensures p * q <= p * q1
  {
    if q > q1 {
      var d := q - q1 - 1;
      assert p * q == p * q1 + p + p * d;
    }
  }

  lemma {:induction false} AlignMono(x: nat, y: nat, align: nat)
    requires x <= y
    ensures AlignUp(x, align) <= AlignUp(y, align)
  {
    if align != 0 {
      var q := AlignIs(x, align);
      var q1 := AlignIs(y, align);
      MultiplesLe(align, q, q1);
    }
  }

  lemma {:induction false} SizeSet(args: seq<Arg>, i: nat, b: Arg)
    requires i < |args|
    ensures SizeSeq(args[i := b]) == SizeSeq(args) - Size(args[i]) + Size(b)
  {
    if i == 0 {
      assert args[i := b][1..] == args[1..];
    } else {
      assert args[i := b][1..] == args[1..][i - 1 := b];
      SizeSet(args[1..], i - 1, b);
    }
  }

  lemma {:induction false} TypeIs(tgt: Target, a: Arg, t: Type)
    requires ValidArg(tgt, a, t)
    ensures a.typ == t
  {
  }

  /** The type that a member of a valid list must have. */
  lemma {:induction false} FineSet(tgt: Target, args: seq<Arg>, sh: Shape, i: nat, b: Arg)
    requires i < |args| && FineSeq(tgt, args, sh) && Fine(tgt, b, args[i].typ)
    ensures FineSeq(tgt, args[i := b], sh)
    decreases args
  {
    if i == 0 {
      TypeIs(tgt, args[0], Head(sh).value);
      assert args[i := b][1..] == args[1..];
    } else {
      assert args[i := b][1..] == args[1..][i - 1 := b];
      FineSet(tgt, args[1..], Tail(sh), i - 1, b);
    }
  }

  lemma {:induction false} FineAt(tgt: Target, args: seq<Arg>, sh: Shape, i: nat)
    requires i < |args| && FineSeq(tgt, args, sh)
    ensures Fine(tgt, args[i], args[i].typ)
    decreases args
  {
    if i > 0 {
      FineAt(tgt, args[1..], Tail(sh), i - 1);
    } else {
      TypeIs(tgt, args[0], Head(sh).value);
    }
  }

  /** A smaller kid of its own type in place of one. */
  lemma {:induction false} SmallerPointee(tgt: Target, a: Arg, b: Arg)
    requires a.PointerArg? && a.res.Some? && PointerOk(tgt, a)
    requires Size(b) <= Size(a.res.value) && a.address + Size(a.res.value) < TWO64
    ensures PointerOk(tgt, PointerArg(a.typ, a.address, a.vmaSize, Some(b)))
  {
    var end, was := a.address + Size(b), a.address + Size(a.res.value);
    Unwrapped(end);
    Unwrapped(was);
  }

  lemma {:induction false} Unwrapped(x: nat)
    requires x < TWO64
    ensures Wrap(x) == x
  {
  }

  lemma {:induction false} FinePointee(tgt: Target, a: Arg, b: Arg)
    requires Fine(tgt, a, a.typ) && a.PointerArg? && a.res.Some?
    requires Fine(tgt, b, a.res.value.typ) && Size(b) <= Size(a.res.value)
    ensures Fine(tgt, PointerArg(a.typ, a.address, a.vmaSize, Some(b)), a.typ)
  {
    TypeIs(tgt, a.res.value, tgt.pointees[a.typ.pointee]);
    SmallerPointee(tgt, a, b);
  }

  lemma {:induction false} FineMembers(tgt: Target, a: Arg, k: nat, b: Arg)
    requires Fine(tgt, a, a.typ) && a.GroupArg? && k < |a.inner|
    requires Fine(tgt, b, a.inner[k].typ) && Size(b) <= Size(a.inner[k])
    ensures var r := GroupArg(a.typ, a.inner[k := b]); Fine(tgt, r, a.typ) && Size(r) <= Size(a)
  {
    FineSet(tgt, a.inner, ShapeOf(a.typ), k, b);
    SizeSet(a.inner, k, b);
    AlignMono(SizeSeq(a.inner[k := b]), SizeSeq(a.inner), if a.typ.StructT? then a.typ.align else 0);
  }

  lemma {:induction false} FineKid(tgt: Target, a: Arg, k: nat, b: Arg)
    requires Fine(tgt, a, a.typ) && k < |Kids(a)| && Fine(tgt, b, Kids(a)[k].typ) && Size(b) <= Size(Kids(a)[k])
    ensures var r := WithKids(a, Kids(a)[k := b]); Fine(tgt, r, a.typ) && Size(r) <= Size(a)
  {
    match a
    case PointerArg(t, address, _, res) =>
      assert Kids(a)[k] == res.value && Kids(a)[k := b] == [b];
      FinePointee(tgt, a, b);
    case UnionArg(t, option) =>
      TypeIs(tgt, option, FindOption(t.options, option.typ.com.field).value);
      TypeIs(tgt, b, option.typ);
      assert Kids(a)[k] == option && Kids(a)[k := b] == [b];
    case GroupArg(t, inner) =>
      FineMembers(tgt, a, k, b);
    case _ =>
  }

  lemma {:induction false} KidFine(tgt: Target, a: Arg, k: nat)
    requires Fine(tgt, a, a.typ) && k < |Kids(a)|
    ensures Fine(tgt, Kids(a)[k], Kids(a)[k].typ)
  {
    match a
    case PointerArg(t, _, _, res) => TypeIs(tgt, res.value, tgt.pointees[t.pointee]);
    case UnionArg(t, option) => TypeIs(tgt, option, FindOption(t.options, option.typ.com.field).value);
    case GroupArg(t, inner) => FineAt(tgt, inner, ShapeOf(t), k);
    case _ =>
  }

  /** The argument at a position. */
  lemma {:induction false} AtFine(tgt: Target, args: seq<Arg>, pos: Pos)
    requires Has(args, pos) && Fine(tgt, args[pos[0]], args[pos[0]].typ)
    ensures Fine(tgt, At(args, pos), At(args, pos).typ)
    decreases |pos|
  {
    if |pos| > 1 {
      KidFine(tgt, args[pos[0]], pos[1]);
      AtFine(tgt, Kids(args[pos[0]]), pos[1..]);
    }
  }

  lemma {:induction false} PutOne(tgt: Target, args: seq<Arg>, pos: Pos, b: Arg)
    requires Has(args, pos) && Fine(tgt, args[pos[0]], args[pos[0]].typ)
    requires Fine(tgt, b, At(args, pos).typ) && Size(b) <= Size(At(args, pos))
    ensures var r := Put(args, pos, b)[pos[0]];
      Fine(tgt, r, args[pos[0]].typ) && Size(r) <= Size(args[pos[0]]) && Put(args, pos, b) == args[pos[0] := r]
    decreases |pos|
  {
    if |pos| > 1 {
      var a := args[pos[0]];
      KidFine(tgt, a, pos[1]);
      PutOne(tgt, Kids(a), pos[1..], b);
      FineKid(tgt, a, pos[1], Put(Kids(a), pos[1..], b)[pos[1]]);
    }
  }

  /** The list with a smaller argument of the same type at a position. */
  lemma {:induction false} PutFine(tgt: Target, args: seq<Arg>, sh: Shape, pos: Pos, b: Arg)
    requires Has(args, pos) && FineSeq(tgt, args, sh) && Fine(tgt, b, At(args, pos).typ)
    requires Size(b) <= Size(At(args, pos))
    ensures FineSeq(tgt, Put(args, pos, b), sh)
  {
    FineAt(tgt, args, sh, pos[0]);
    PutOne(tgt, args, pos, b);
    FineSet(tgt, args, sh, pos[0], Put(args, pos, b)[pos[0]]);
  }

  // ----- what is put in place -----

  lemma {:induction false} NullFine(tgt: Target, t: Type)
    requires |tgt.special| > 0 && (t.PtrT? || t.VmaT?)
    requires t.PtrT? ==> t.com.dir != DirOut && t.pointee < |tgt.pointees|
    ensures Fine(tgt, PointerArg(t, 0, 0, None), t)
  {
    assert Neg64(0) == 0;
  }

  lemma {:induction false} FineDrop(tgt: Target, args: seq<Arg>, sh: Shape, k: nat)
    requires k < |args| && FineSeq(tgt, args, sh) && sh.Elems?
    ensures FineSeq(tgt, args[..k] + args[k + 1..], sh)
    decreases args
  {
    var rest := args[..k] + args[k + 1..];
    if k == 0 {
      assert rest == args[1..];
    } else {
      assert rest[0] == args[0] && rest[1..] == args[1..][..k - 1] + args[1..][k..];
      FineDrop(tgt, args[1..], sh, k - 1);
    }
  }

  lemma {:induction false} SizeDrop(args: seq<Arg>, k: nat)
    requires k < |args|
    ensures SizeSeq(args[..k] + args[k + 1..]) <= SizeSeq(args)
  {
    var rest := args[..k] + args[k + 1..];
    if k == 0 {
      assert rest == args[1..];
    } else {
      assert rest[0] == args[0] && rest[1..] == args[1..][..k - 1] + args[1..][k..];
      SizeDrop(args[1..], k - 1);
    }
  }

  lemma {:induction false} ExactCount(tgt: Target, args: seq<Arg>, sh: Shape)
    requires ValidSeq(tgt, args, sh) && sh.Exactly?
    ensures |args| == sh.n
    decreases args
  {
    if args != [] { ExactCount(tgt, args[1..], Tail(sh)); }
  }

  /** An array without one of its elements, where its length may vary. */
  lemma {:induction false} ElemFine(tgt: Target, a: Arg, k: nat)
    requires Fine(tgt, a, a.typ) && a.GroupArg? && a.typ.ArrayT? && k < |a.inner|
    requires a.typ.akind.RandLen? || |a.inner| > a.typ.akind.begin
    ensures var b := GroupArg(a.typ, a.inner[..k] + a.inner[k + 1..]); Fine(tgt, b, a.typ) && Size(b) <= Size(a)
  {
    if ShapeOf(a.typ).Exactly? { ExactCount(tgt, a.inner, ShapeOf(a.typ)); }
    FineDrop(tgt, a.inner, ShapeOf(a.typ), k);
    SizeDrop(a.inner, k);
  }

  /** Less data, where the minimizer cuts. */
  lemma {:induction false} CutFine(tgt: Target, a: Arg, n: nat)
    requires Fine(tgt, a, a.typ) && a.DataArg? && a.typ.BufferT? && a.typ.com.dir != DirOut
    requires (a.typ.kind == BlobRand || a.typ.kind == BlobRange) && n <= |a.data|
    requires (n == |a.data| || a.typ.rangeBegin <= n)
    ensures var b := DataArg(a.typ, a.data[..n], a.outSize); Fine(tgt, b, a.typ) && Size(b) <= Size(a)
  {
    if n == |a.data| { assert a.data[..n] == a.data; }
  }

  /** The default in place of a reference, as minimization puts it. */
  function DefaultResult(a: Arg): Arg
    requires a.ResultArg?
  {
    ResultArg(a.typ, None, a.opDiv, a.opAdd, if a.typ.ResourceT? then a.typ.default else 0)
  }

  lemma {:induction false} DefaultFine(tgt: Target, a: Arg)
    requires Fine(tgt, a, a.typ) && (a.ConstArg? || a.ResultArg?)
    ensures a.ConstArg? && (a.typ.IntT? || a.typ.FlagsT? || a.typ.ProcT?) ==>
        Fine(tgt, ConstArg(a.typ, DefaultVal(a.typ)), a.typ)
    ensures a.ResultArg? ==> Fine(tgt, DefaultResult(a), a.typ)
  {
  }

  // ----- links -----

  /** No argument refers to the return value of its own call. */
  ghost predicate NoOwnRet(p: Program) {
    forall c, j | 0 <= c < |p| && 0 <= j < |ResultsSeq(p[c].args)| :: RefOf(ResultsSeq(p[c].args)[j]) != Some(Loc(c, 0))
  }

  ghost predicate Linked(p: Program) {
    Clonable(p) && NoOwnRet(p)
  }

  /** The results stand at ordinal `k` and on, and refer to earlier ones. */
  ghost predicate AllBefore(rs: seq<Arg>, c: nat, k: nat) {
    forall j | 0 <= j < |rs| :: RefOf(rs[j]).Some? ==> Before(RefOf(rs[j]).value, c, k + j)
  }

  lemma {:induction false} BeforeParts(r: seq<Arg>, s: seq<Arg>, c: nat, k: nat)
    requires AllBefore(r + s, c, k)
    ensures AllBefore(r, c, k) && AllBefore(s, c, k + |r|)
  {
    forall j | 0 <= j < |r| && RefOf(r[j]).Some?
      ensures Before(RefOf(r[j]).value, c, k + j)
    {
      assert (r + s)[j] == r[j];
    }
    forall j | 0 <= j < |s| && RefOf(s[j]).Some? ensures Before(RefOf(s[j]).value, c, k + |r| + j) {
      assert (r + s)[|r| + j] == s[j];
    }
  }

  lemma {:induction false} LinksFrom(a: Arg, c: nat, k: nat)
    requires AllBefore(Results(a), c, k)
    ensures LinksOk(a, c, k)
    decreases a, 1
  {
    match a
    case PointerArg(_, _, _, res) => if res.Some? { LinksFrom(res.value, c, k); }
    case GroupArg(_, inner) => LinksFromSeq(inner, c, k);
    case UnionArg(_, option) => LinksFrom(option, c, k);
    case ResultArg(_, _, _, _, _) => assert Results(a)[0] == a;
    case _ =>
  }

  lemma {:induction false} LinksFromSeq(args: seq<Arg>, c: nat, k: nat)
    requires AllBefore(ResultsSeq(args), c, k)
    ensures LinksOkSeq(args, c, k)
    decreases args, 0
  {
    if args != [] {
      ResultsCount(args[0]);
      BeforeParts(Results(args[0]), ResultsSeq(args[1..]), c, k);
      LinksFrom(args[0], c, k);
      LinksFromSeq(args[1..], c, k + NumResults(args[0]));
    }
  }

  ghost predicate SomeRef(rs: seq<Arg>, l: Loc) {
    exists j :: 0 <= j < |rs| && RefOf(rs[j]) == Some(l)
  }

  lemma {:induction false} SomeRefJoin(r: seq<Arg>, s: seq<Arg>, l: Loc)
    requires SomeRef(r, l) || SomeRef(s, l)
    ensures SomeRef(r + s, l)
  {
    if SomeRef(r, l) {
      var j :| 0 <= j < |r| && RefOf(r[j]) == Some(l);
      assert (r + s)[j] == r[j];
    } else {
      var j :| 0 <= j < |s| && RefOf(s[j]) == Some(l);
      assert (r + s)[|r| + j] == s[j];
    }
  }

  lemma {:induction false} RefsFrom(a: Arg, l: Loc)
    requires l in Refs(a)
    ensures SomeRef(Results(a), l)
    decreases a, 1
  {
    match a
    case PointerArg(_, _, _, res) => RefsFrom(res.value, l);
    case GroupArg(_, inner) => RefsFromSeq(inner, l);
    case UnionArg(_, option) => RefsFrom(option, l);
    case ResultArg(_, _, _, _, _) => assert Results(a)[0] == a;
    case _ =>
  }

  lemma {:induction false} RefsFromSeq(args: seq<Arg>, l: Loc)
    requires l in RefsSeq(args)
    ensures SomeRef(ResultsSeq(args), l)
    decreases args, 0
  {
    if l in Refs(args[0]) {
      RefsFrom(args[0], l);
    } else {
      RefsFromSeq(args[1..], l);
    }
    SomeRefJoin(Results(args[0]), ResultsSeq(args[1..]), l);
  }

  lemma {:induction false} RefsOfProg(p: Program, l: Loc)
    requires l in RefsProg(p)
    ensures exists c :: 0 <= c < |p| && l in RefsSeq(p[c].args)
  {
    if l !in RefsSeq(p[0].args) {
      RefsOfProg(p[1..], l);
      var c :| 0 <= c < |p[1..]| && l in RefsSeq(p[1..][c].args);
      assert p[c + 1] == p[1..][c];
    }
  }

  lemma {:induction false} LinkedRef(p: Program, c: nat, j: nat)
    requires Linked(p) && c < |p| && j < |ResultsSeq(p[c].args)| && RefOf(ResultsSeq(p[c].args)[j]).Some?
    ensures var l := RefOf(ResultsSeq(p[c].args)[j]).value; Before(l, c, 1 + j) && Exists(p, l)
  {
    assert CallClonable(p, c, ResultsSeq(p[c].args));
    var l := RefOf(ResultsSeq(p[c].args)[j]).value;
    assert l != Loc(c, 0);
  }

  /** Shapes and links together are validity. */
  lemma {:induction false} IsValid(tgt: Target, p: Program)
    requires Shaped(tgt, p) && Linked(p)
    ensures ValidProg(tgt, p)
  {
    forall c | 0 <= c < |p| ensures ValidCall(tgt, p[c], c) {
      assert CallShaped(tgt, p[c]);
      forall j | 0 <= j < |ResultsSeq(p[c].args)| && RefOf(ResultsSeq(p[c].args)[j]).Some?
        ensures Before(RefOf(ResultsSeq(p[c].args)[j]).value, c, 1 + j) { LinkedRef(p, c, j); }
      LinksFromSeq(p[c].args, c, 1);
    }
    forall l | l in RefsProg(p) ensures Exists(p, l) {
      RefsOfProg(p, l);
      var c :| 0 <= c < |p| && l in RefsSeq(p[c].args);
      RefsFromSeq(p[c].args, l);
      var j :| 0 <= j < |ResultsSeq(p[c].args)| && RefOf(ResultsSeq(p[c].args)[j]) == Some(l);
      LinkedRef(p, c, j);
    }
  }

  /** In a valid program no argument refers to the return value of its own call. */
  lemma {:induction false} ValidNoOwnRet(tgt: Target, p: Program)
    requires ValidProg(tgt, p)
    ensures NoOwnRet(p)
  {
    forall c, j | 0 <= c < |p| && 0 <= j < |ResultsSeq(p[c].args)|
      ensures RefOf(ResultsSeq(p[c].args)[j]) != Some(Loc(c, 0))
    {
      assert ValidCall(tgt, p[c], c);
      if RefOf(ResultsSeq(p[c].args)[j]).Some? { LinksOkAtSeq(p[c].args, c, 1, j); }
    }
  }

  // ----- edits -----

  /** What a program keeps. */
  ghost predicate Good(tgt: Target, p: Program) {
    Shaped(tgt, p) && Linked(p)
  }

  lemma {:induction false} MappedShaped(tgt: Target, f: Loc -> Option<Loc>, p: Program)
    requires Shaped(tgt, p)
    ensures Shaped(tgt, MapProg(f, p))
  {
    forall c | 0 <= c < |p| ensures CallShaped(tgt, MapProg(f, p)[c]) {
      assert CallShaped(tgt, p[c]);
      MappedFineSeq(tgt, f, p[c].args, Fields(p[c].meta.args));
    }
  }

  lemma {:induction false} ArgsShaped(tgt: Target, p: Program, i: nat, args: seq<Arg>)
    requires Shaped(tgt, p) && i < |p| && FineSeq(tgt, args, Fields(p[i].meta.args))
    ensures Shaped(tgt, p[i := p[i].(args := args)])
  {
    var q := p[i := p[i].(args := args)];
    forall c | 0 <= c < |q| ensures CallShaped(tgt, q[c]) { assert CallShaped(tgt, p[c]); }
  }

  /** Assigned sizes make no difference. */
  lemma {:induction false} SizesGood(tgt: Target, p: Program, i: nat, args: seq<Arg>)
    requires Good(tgt, p) && i < |p| && OutlineSeq(args) == OutlineSeq(p[i].args)
    ensures Good(tgt, p[i := p[i].(args := args)])
  {
    assert CallShaped(tgt, p[i]);
    SameFine(tgt, p[i].args, args, Fields(p[i].meta.args));
    ArgsShaped(tgt, p, i, args);
    SameResults(p[i].args, args);
    SetArgsLinked(p, i, args);
  }

  lemma {:induction false} SetArgsLinked(p: Program, c: nat, args: seq<Arg>)
    requires c < |p| && Linked(p) && NoNewRefs(ResultsSeq(p[c].args), ResultsSeq(args))
    ensures Linked(p[c := p[c].(args := args)])
  {
    SetArgsClonable(p, c, args);
    var q := p[c := p[c].(args := args)];
    forall d, j | 0 <= d < |q| && 0 <= j < |ResultsSeq(q[d].args)|
      ensures RefOf(ResultsSeq(q[d].args)[j]) != Some(Loc(d, 0))
    {
      assert RefOf(ResultsSeq(p[d].args)[j]) != Some(Loc(d, 0));
    }
  }

  /** removeCall keeps programs valid. */
  lemma {:induction false} RemoveCallGood(tgt: Target, p: Program, c: nat)
    requires c < |p| && Good(tgt, p)
    ensures Good(tgt, RemoveCall(p, c))
  {
    var f, rest := WithoutCall(c), p[..c] + p[c + 1..];
    forall d | 0 <= d < |rest| ensures CallShaped(tgt, rest[d]) {
      assert rest[d] == p[if d < c then d else d + 1];
    }
    MappedShaped(tgt, f, rest);
    RemoveCallClonable(p, c);
    RemoveCallOwnRet(p, c);
  }

  lemma {:induction false} RemoveCallOwnRet(p: Program, c: nat)
    requires c < |p| && NoOwnRet(p)
    ensures NoOwnRet(RemoveCall(p, c))
  {
    var f, q := WithoutCall(c), RemoveCall(p, c);
    forall d, j | 0 <= d < |q| && 0 <= j < |ResultsSeq(q[d].args)|
      ensures RefOf(ResultsSeq(q[d].args)[j]) != Some(Loc(d, 0))
    {
      var e := if d < c then d else d + 1;
      assert q[d] == MapCall(f, p[e]);
      NotOwnRet(p, c, d, e, j);
    }
  }

  lemma {:induction false} NotOwnRet(p: Program, c: nat, d: nat, e: nat, j: nat)
    requires c < |p| && NoOwnRet(p) && d < |p| && e < |p| && e == (if d < c then d else d + 1) && e != c
    requires j < |ResultsSeq(MapCall(WithoutCall(c), p[e]).args)|
    ensures RefOf(ResultsSeq(MapCall(WithoutCall(c), p[e]).args)[j]) != Some(Loc(d, 0))
  {
    MappedResultsSeq(WithoutCall(c), p[e].args);
    assert RefOf(ResultsSeq(p[e].args)[j]) != Some(Loc(e, 0));
  }

  lemma {:induction false} WithoutOwnRet(p: Program, c: nat, args: seq<Arg>, pre: seq<Arg>, mid: seq<Arg>,
      post: seq<Arg>)
    requires c < |p| && NoOwnRet(p) && TakesOut(p, c, args, pre, mid, post)
    ensures NoOwnRet(Without(p, c, args, |pre|, |mid|))
  {
    var q := Without(p, c, args, |pre|, |mid|);
    forall d, i | 0 <= d < |q| && 0 <= i < |ResultsSeq(q[d].args)|
      ensures RefOf(ResultsSeq(q[d].args)[i]) != Some(Loc(d, 0))
    {
      var j := Stood(c, |pre|, |mid|, d, i);
      WithoutResult(p, c, args, pre, mid, post, d, i);
      assert RefOf(ResultsSeq(p[d].args)[j]) != Some(Loc(d, 0));
    }
  }

  /** So do rewrites that put a smaller argument of the same type in place of one, and take results
      out. */
  lemma {:induction false} RewriteGood(tgt: Target, p: Program, c: nat, pos: Pos, b: Arg, pre: seq<Arg>, mid: seq<Arg>,
      post: seq<Arg>)
    requires c < |p| && Has(p[c].args, pos) && Good(tgt, p) && TakesOut(p, c, Put(p[c].args, pos, b), pre, mid, post)
    requires Fine(tgt, b, At(p[c].args, pos).typ) && Size(b) <= Size(At(p[c].args, pos))
    ensures Good(tgt, Rewrite(p, c, pos, b, |pre|, |mid|))
  {
    var args, f := Put(p[c].args, pos, b), WithoutResults(c, |pre| + 1, |mid|);
    var p1, q := p[c := p[c].(args := args)], Without(p, c, args, |pre|, |mid|);
    assert CallShaped(tgt, p[c]);
    PutFine(tgt, p[c].args, Fields(p[c].meta.args), pos, b);
    ArgsShaped(tgt, p, c, args);
    MappedShaped(tgt, f, p1);
    WithoutClonable(p, c, args, pre, mid, post);
    WithoutOwnRet(p, c, args, pre, mid, post);
    AssignKeepsOutline(q[c].args);
    SizesGood(tgt, q, c, AssignSizes(q[c].args));
  }

  /** A pointer made null. */
  lemma {:induction false} NullGood(tgt: Target, p: Program, c: nat, pos: Pos)
    requires c < |p| && Has(p[c].args, pos) && Good(tgt, p) && At(p[c].args, pos).PointerArg?
    ensures var a := At(p[c].args, pos);
      Good(tgt, Rewrite(p, c, pos, PointerArg(a.typ, 0, 0, None), ResultsBefore(p[c].args, pos), NumResults(a)))
  {
    var a := At(p[c].args, pos);
    var b := PointerArg(a.typ, 0, 0, None);
    var pre, post := ResultsPut(p[c].args, pos, b);
    ResultsCount(a);
    assert Results(b) == [] && [] + post == post;
    assert CallShaped(tgt, p[c]);
    FineAt(tgt, p[c].args, Fields(p[c].meta.args), pos[0]);
    AtFine(tgt, p[c].args, pos);
    NullFine(tgt, a.typ);
    RewriteGood(tgt, p, c, pos, b, pre, Results(a), post);
  }

  /** An array without one element. */
  lemma {:induction false} ElemGood(tgt: Target, p: Program, c: nat, pos: Pos, k: nat)
    requires c < |p| && Has(p[c].args, pos) && Good(tgt, p)
    requires At(p[c].args, pos).GroupArg? && k < |At(p[c].args, pos).inner| && Has(p[c].args, pos + [k])
    requires var t := At(p[c].args, pos).typ;
      t.ArrayT? && (t.akind.RandLen? || |At(p[c].args, pos).inner| > t.akind.begin)
    ensures var a := At(p[c].args, pos);
      Good(tgt, Rewrite(p, c, pos, GroupArg(a.typ, a.inner[..k] + a.inner[k + 1..]),
                        ResultsBefore(p[c].args, pos + [k]), NumResults(a.inner[k])))
  {
    var a := At(p[c].args, pos);
    var pre, post := RemovedElement(p[c].args, pos, k);
    ResultsCount(a.inner[k]);
    assert CallShaped(tgt, p[c]);
    FineAt(tgt, p[c].args, Fields(p[c].meta.args), pos[0]);
    AtFine(tgt, p[c].args, pos);
    ElemFine(tgt, a, k);
    RewriteGood(tgt, p, c, pos, GroupArg(a.typ, a.inner[..k] + a.inner[k + 1..]), pre, Results(a.inner[k]), post);
  }

  /** Another argument with as many results and no new references. */
  lemma {:induction false} PutGood(tgt: Target, p: Program, c: nat, pos: Pos, b: Arg)
    requires c < |p| && Has(p[c].args, pos) && Good(tgt, p) && NoNewRefs(Results(At(p[c].args, pos)), Results(b))
    requires Fine(tgt, b, At(p[c].args, pos).typ) && Size(b) <= Size(At(p[c].args, pos))
    ensures Good(tgt, p[c := p[c].(args := Put(p[c].args, pos, b))])
  {
    var args := Put(p[c].args, pos, b);
    assert CallShaped(tgt, p[c]);
    PutFine(tgt, p[c].args, Fields(p[c].meta.args), pos, b);
    ArgsShaped(tgt, p, c, args);
    var pre, post := ResultsPut(p[c].args, pos, b);
    SetArgsLinked(p, c, args);
  }

  /** The argument at a position of a good program. */
  lemma {:induction false} GoodAt(tgt: Target, p: Program, c: nat, pos: Pos)
    requires c < |p| && Has(p[c].args, pos) && Good(tgt, p)
    ensures Fine(tgt, At(p[c].args, pos), At(p[c].args, pos).typ)
  {
    assert CallShaped(tgt, p[c]);
    FineAt(tgt, p[c].args, Fields(p[c].meta.args), pos[0]);
    AtFine(tgt, p[c].args, pos);
  }

  /** Data that the minimizer may cut. */
  predicate IsBlobArg(a: Arg) {
    a.DataArg? && a.typ.BufferT? && a.typ.com.dir != DirOut && (a.typ.kind == BlobRand || a.typ.kind == BlobRange)
  }

  /** Less data, and sizes assigned. */
  lemma {:induction false} CutGood(tgt: Target, p: Program, c: nat, pos: Pos, n: nat)
    requires c < |p| && Has(p[c].args, pos) && Good(tgt, p) && IsBlobArg(At(p[c].args, pos))
    requires var a := At(p[c].args, pos); n <= |a.data| && (n == |a.data| || a.typ.rangeBegin <= n)
    ensures Good(tgt, WithArgs(p, c, WithData(p[c].args, pos, At(p[c].args, pos).data[..n])))
  {
    var a := At(p[c].args, pos);
    var b := DataArg(a.typ, a.data[..n], a.outSize);
    var cut := Put(p[c].args, pos, b);
    GoodAt(tgt, p, c, pos);
    CutFine(tgt, a, n);
    PutGood(tgt, p, c, pos, b);
    AssignKeepsOutline(cut);
    SizesGood(tgt, p[c := p[c].(args := cut)], c, AssignSizes(cut));
    assert p[c := p[c].(args := cut)][c := p[c].(args := AssignSizes(cut))] == WithArgs(p, c, AssignSizes(cut));
  }

  /** A valid program of the kind that is in use. */
  ghost predicate InUse(tgt: Target, p: Program) {
    |tgt.special| > 0 && ValidProg(tgt, p) && forall c | 0 <= c < |p| :: DescribedSeq(p[c].args)
  }

  lemma {:induction false} InUseGood(tgt: Target, p: Program)
    requires InUse(tgt, p) && Clonable(p)
    ensures Good(tgt, p)
  {
    ValidNoOwnRet(tgt, p);
    forall c | 0 <= c < |p| ensures CallShaped(tgt, p[c]) { assert ValidCall(tgt, p[c], c) && DescribedSeq(p[c].args); }
  }
}
