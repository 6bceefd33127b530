/**
  Assignment of length fields (prog/size.go:17-141).

  The source finds the struct around a field in a map; here `up` lists the structs around an
  argument, innermost first.  The list starts anew below arrays, unions and call arguments, as
  the map has no entry there.  A panic of the source (a path that leads nowhere) gives length 0.
 */
module Sizes {
  import opened Ir

  /** The argument behind any number of pointers; None below a null pointer. */
  function InnerArg(a: Arg): Option<Arg> {
    if !a.typ.PtrT? then Some(a)
    else if a.PointerArg? && a.res.Some? then InnerArg(a.res.value)
    else None
  }

  function TemplateName(name: string): string {
    if name == "" || name[0] == '[' then "" else [name[0]] + TemplateName(name[1..])
  }

  /** computeSize; `offset` is None for what is not a field. */
  function ComputeSize(buf: Arg, offset: Option<nat>, t: Type): nat
    requires t.LenT?
  {
    var bits := if t.bitSize == 0 then 8 else t.bitSize;
    if t.offset then
      if offset.None? || t.bitSize == 0 then 0 else offset.value * 8 / t.bitSize
    else if buf.typ.VmaT? && buf.PointerArg? then buf.vmaSize * 8 / bits
    else if buf.typ.ArrayT? && buf.GroupArg? && t.bitSize == 0 then |buf.inner|
    else Size(buf) * 8 / bits
  }

  /** The first member with the given field name, and the size of those before it. */
  function FindField(args: seq<Arg>, name: string): Option<(Arg, nat)> {
    if args == [] then None
    else if args[0].typ.com.field == name then Some((args[0], 0))
    else
      var r := FindField(args[1..], name);
      if r.None? then None else Some((r.value.0, Size(args[0]) + r.value.1))
  }

  /** How far up a struct of the given template is. */
  function FindParent(up: seq<Arg>, name: string): (r: Option<nat>)
    ensures r.Some? ==> r.value < |up|
  {
    if up == [] then None
    else if TemplateName(up[0].typ.com.name) == name then Some(0)
    else
      var r := FindParent(up[1..], name);
      if r.None? then None else Some(r.value + 1)
  }

  /** assignSize: the value for a length field of type `t`.  `up` are the structs around the
      current position, `sib` those around the members `args`. */
  function Resolve(t: Type, path: seq<string>, args: seq<Arg>, up: seq<Arg>, sib: seq<Arg>): nat
    requires t.LenT?
    decreases |path|, 0
  {
    if path == [] then 0
    else
      var f := FindField(args, path[0]);
      if f.Some? then
        var buf := InnerArg(f.value.0);
        if buf.None? then 0
        else Enter(t, path[1..], buf.value, Some(f.value.1), sib)
      else
        var k := if path[0] == "parent" then (if up == [] then None else Some(0)) else FindParent(up, path[0]);
        if k.None? then 0 else Enter(t, path[1..], up[k.value], None, up[k.value + 1..])
  }

  /** The path ends at `buf` or goes on among its members; `up` are the structs around it. */
  function Enter(t: Type, path: seq<string>, buf: Arg, offset: Option<nat>, up: seq<Arg>): nat
    requires t.LenT?
    decreases |path|, 1
  {
    if path == [] then ComputeSize(buf, offset, t)
    else if !buf.GroupArg? then 0
    else Resolve(t, path, buf.inner, up, if buf.typ.StructT? then [buf] + up else [])
  }

  function LenValue(top: seq<Arg>, t: Type, all: seq<Arg>, sib: seq<Arg>): U64
    requires t.LenT?
  {
    if t.path == [] then 0
    else if t.path[0] == "syscall" then Resolve(t, t.path[1..], top, [], []) % TWO64
    else Resolve(t, t.path, all, sib, sib) % TWO64
  }

  /** Writes a length behind pointers. */
  function SetInner(a: Arg, v: U64): Arg {
    if a.typ.PtrT? && a.PointerArg? && a.res.Some?
        then PointerArg(a.typ, a.address, a.vmaSize, Some(SetInner(a.res.value, v)))
    else if a.ConstArg? then ConstArg(a.typ, v)
    else a
  }

  predicate IsLen(a: Option<Arg>) {
    a.Some? && a.value.ConstArg? && a.value.typ.LenT?
  }

  /** The structs below `a`, with `up` around it. */
  function AssignArg(top: seq<Arg>, a: Arg, up: seq<Arg>): Arg
    decreases a, 1
  {
    match a
    case PointerArg(t, address, vmaSize, res) =>
      if res.Some? then PointerArg(t, address, vmaSize,
          Some(AssignArg(top, res.value, if t.PtrT? then up else []))) else a
    case UnionArg(t, option) => UnionArg(t, AssignArg(top, option, []))
    case GroupArg(t, inner) =>
      if t.StructT? then GroupArg(t, AssignFields(top, inner, inner, [a] + up))
      else GroupArg(t, AssignElems(top, inner))
    case _ => a
  }

  function AssignElems(top: seq<Arg>, args: seq<Arg>): seq<Arg>
    decreases args, 0
  {
    if args == [] then [] else [AssignArg(top, args[0], [])] + AssignElems(top, args[1..])
  }

  /** assignSizes over the members `args` of a struct or a call with members `all`. */
  function AssignFields(top: seq<Arg>, args: seq<Arg>, all: seq<Arg>, sib: seq<Arg>): seq<Arg>
    decreases args, 0
  {
    if args == [] then []
    else
      var len := InnerArg(args[0]);
      var a := AssignArg(top, args[0], sib);
      [if IsLen(len) then SetInner(a, LenValue(top, len.value.typ, all, sib)) else a] +
          AssignFields(top, args[1..], all, sib)
  }

  /** assignSizesCall. */
  function AssignSizes(args: seq<Arg>): seq<Arg> {
    AssignFields(args, args, args, [])
  }

  /** The tree without the lengths that AssignSizes determines. */
  function Clean(a: Arg): Arg
    decreases a, 1
  {
    match a
    case PointerArg(t, address, vmaSize, res) =>
        if res.Some? then PointerArg(t, address, vmaSize, Some(Clean(res.value))) else a
    case UnionArg(t, option) => UnionArg(t, Clean(option))
    case GroupArg(t, inner) => GroupArg(t, CleanSeq(inner, t.StructT?))
    case _ => a
  }

  function CleanSeq(args: seq<Arg>, fields: bool): (r: seq<Arg>)
    ensures |r| == |args|
    decreases args, 0
  {
    if args == [] then []
    else
      [if fields && IsLen(InnerArg(args[0])) then SetInner(args[0], 0) else Clean(args[0])] +
      CleanSeq(args[1..], fields)
  }

  // ----- lengths depend on the outline only -----

  /** The tree with all lengths zero. */
  function Outline(a: Arg): (r: Arg)
    ensures r.typ == a.typ
    decreases a, 1
  {
    match a
    case ConstArg(t, _) => if t.LenT? then ConstArg(t, 0) else a
    case PointerArg(t, address, vmaSize, res) =>
        if res.Some? then PointerArg(t, address, vmaSize, Some(Outline(res.value))) else a
    case UnionArg(t, option) => UnionArg(t, Outline(option))
    case GroupArg(t, inner) => GroupArg(t, OutlineSeq(inner))
    case _ => a
  }

  function OutlineSeq(args: seq<Arg>): (r: seq<Arg>)
    ensures |r| == |args|
    ensures forall i :: 0 <= i < |r| ==> r[i] == Outline(args[i])
    decreases args, 0
  {
    if args == [] then [] else [Outline(args[0])] + OutlineSeq(args[1..])
  }

  lemma {:induction false} OutlineSize(a: Arg)
    ensures Size(Outline(a)) == Size(a)
    decreases a, 1
  {
    match a
    case GroupArg(_, inner) => OutlineSizeSeq(inner);
    case UnionArg(_, option) => OutlineSize(option);
    case _ =>
  }

  lemma {:induction false} OutlineSizeSeq(args: seq<Arg>)
    ensures SizeSeq(OutlineSeq(args)) == SizeSeq(args)
    decreases args, 0
  {
    if args != [] {
      OutlineSize(args[0]);
      OutlineSizeSeq(args[1..]);
      assert OutlineSeq(args)[1..] == OutlineSeq(args[1..]);
    }
  }

  function OutlineOpt(a: Option<Arg>): Option<Arg> {
    if a.Some? then Some(Outline(a.value)) else None
  }

  lemma {:induction false} OutlineInner(a: Arg)
    ensures InnerArg(Outline(a)) == OutlineOpt(InnerArg(a))
  {
    if a.typ.PtrT? && a.PointerArg? && a.res.Some? { OutlineInner(a.res.value); }
  }

  lemma {:induction false} OutlineFind(args: seq<Arg>, name: string)
    ensures FindField(args, name).None? <==> FindField(OutlineSeq(args), name).None?
    ensures FindField(args, name).Some? ==>
      FindField(OutlineSeq(args), name) == Some((Outline(FindField(args, name).value.0), FindField(args, name).value.1))
  {
    if args != [] {
      assert OutlineSeq(args)[1..] == OutlineSeq(args[1..]);
      OutlineFind(args[1..], name);
      OutlineSize(args[0]);
    }
  }

  lemma {:induction false} OutlineParent(up: seq<Arg>, name: string)
    ensures FindParent(OutlineSeq(up), name) == FindParent(up, name)
  {
    if up != [] {
      assert OutlineSeq(up)[1..] == OutlineSeq(up[1..]);
      OutlineParent(up[1..], name);
    }
  }

  lemma {:induction false} OutlineCompute(buf: Arg, offset: Option<nat>, t: Type)
    requires t.LenT?
    ensures ComputeSize(Outline(buf), offset, t) == ComputeSize(buf, offset, t)
  {
    OutlineSize(buf);
  }

  lemma {:induction false} OutlineResolve(t: Type, path: seq<string>, args: seq<Arg>, up: seq<Arg>, sib: seq<Arg>)
    requires t.LenT?
    ensures Resolve(t, path, OutlineSeq(args), OutlineSeq(up), OutlineSeq(sib)) == Resolve(t, path, args, up, sib)
    decreases |path|, 0
  {
    if path != [] {
      OutlineFind(args, path[0]);
      OutlineParent(up, path[0]);
      var f := FindField(args, path[0]);
      if f.Some? {
        OutlineInner(f.value.0);
        var buf := InnerArg(f.value.0);
        if buf.Some? { OutlineEnter(t, path[1..], buf.value, Some(f.value.1), sib); }
      } else {
        var k := if path[0] == "parent" then (if up == [] then None else Some(0)) else FindParent(up, path[0]);
        if k.Some? {
          assert OutlineSeq(up)[k.value + 1..] == OutlineSeq(up[k.value + 1..]);
          OutlineEnter(t, path[1..], up[k.value], None, up[k.value + 1..]);
        }
      }
    }
  }

  lemma {:induction false} OutlineEnter(t: Type, path: seq<string>, buf: Arg, offset: Option<nat>, up: seq<Arg>)
    requires t.LenT?
    ensures Enter(t, path, Outline(buf), offset, OutlineSeq(up)) == Enter(t, path, buf, offset, up)
    decreases |path|, 1
  {
    OutlineCompute(buf, offset, t);
    if path != [] && buf.GroupArg? {
      var sib := if buf.typ.StructT? then [buf] + up else [];
      assert OutlineSeq(sib) == if buf.typ.StructT? then [Outline(buf)] + OutlineSeq(up) else [];
      OutlineResolve(t, path, buf.inner, up, sib);
    }
  }

  lemma {:induction false} OutlineLen(top: seq<Arg>, t: Type, all: seq<Arg>, sib: seq<Arg>)
    requires t.LenT?
    ensures LenValue(OutlineSeq(top), t, OutlineSeq(all), OutlineSeq(sib)) == LenValue(top, t, all, sib)
  {
    if t.path != [] {
      OutlineResolve(t, t.path[1..], top, [], []);
      OutlineResolve(t, t.path, all, sib, sib);
    }
  }

  // ----- assignment changes lengths only -----

  lemma {:induction false} AssignArgOutline(top: seq<Arg>, a: Arg, up: seq<Arg>)
    ensures Outline(AssignArg(top, a, up)) == Outline(a) && AssignArg(top, a, up).typ == a.typ
    decreases a, 1
  {
    match a
    case PointerArg(t, _, _, res) => if res.Some? { AssignArgOutline(top, res.value, if t.PtrT? then up else []); }
    case UnionArg(_, option) => AssignArgOutline(top, option, []);
    case GroupArg(t, inner) =>
      if t.StructT? { AssignFieldsOutline(top, inner, inner, [a] + up); } else { AssignElemsOutline(top, inner); }
    case _ =>
  }

  lemma {:induction false} AssignElemsOutline(top: seq<Arg>, args: seq<Arg>)
    ensures OutlineSeq(AssignElems(top, args)) == OutlineSeq(args)
    decreases args, 0
  {
    if args != [] {
      AssignArgOutline(top, args[0], []);
      AssignElemsOutline(top, args[1..]);
      assert AssignElems(top, args)[1..] == AssignElems(top, args[1..]);
    }
  }

  lemma {:induction false} SetInnerOutline(a: Arg, v: U64)
    requires IsLen(InnerArg(a))
    ensures Outline(SetInner(a, v)) == Outline(a) && SetInner(a, v).typ == a.typ
  {
    if a.typ.PtrT? { SetInnerOutline(a.res.value, v); }
  }

  lemma {:induction false} InnerAssigned(top: seq<Arg>, a: Arg, up: seq<Arg>)
    requires IsLen(InnerArg(a))
    ensures AssignArg(top, a, up) == a
  {
    if a.typ.PtrT? { InnerAssigned(top, a.res.value, up); }
  }

  lemma {:induction false} AssignFieldsOutline(top: seq<Arg>, args: seq<Arg>, all: seq<Arg>, sib: seq<Arg>)
    ensures OutlineSeq(AssignFields(top, args, all, sib)) == OutlineSeq(args)
    decreases args, 0
  {
    if args != [] {
      var len := InnerArg(args[0]);
      AssignArgOutline(top, args[0], sib);
      if IsLen(len) {
        InnerAssigned(top, args[0], sib);
        SetInnerOutline(args[0], LenValue(top, len.value.typ, all, sib));
      }
      AssignFieldsOutline(top, args[1..], all, sib);
      assert AssignFields(top, args, all, sib)[1..] == AssignFields(top, args[1..], all, sib);
    }
  }

  /** assignSizesCall changes length fields only. */
  lemma {:induction false} AssignKeepsOutline(args: seq<Arg>)
    ensures OutlineSeq(AssignSizes(args)) == OutlineSeq(args)
  {
    AssignFieldsOutline(args, args, args, []);
  }

  // ----- and its result depends on nothing else -----

  lemma {:induction false} SetTwice(a: Arg, v: U64, w: U64)
    ensures SetInner(SetInner(a, v), w) == SetInner(a, w) && SetInner(a, v).typ == a.typ
  {
    if a.typ.PtrT? && a.PointerArg? && a.res.Some? { SetTwice(a.res.value, v, w); }
  }

  function CleanOne(a: Arg): Arg {
    if IsLen(InnerArg(a)) then SetInner(a, 0) else Clean(a)
  }

  lemma {:induction false} CleanOutline(a: Arg)
    ensures Outline(Clean(a)) == Outline(a)
    decreases a, 1
  {
    match a
    case PointerArg(_, _, _, res) => if res.Some? { CleanOutline(res.value); }
    case UnionArg(_, option) => CleanOutline(option);
    case GroupArg(t, inner) => CleanSeqOutline(inner, t.StructT?);
    case _ =>
  }

  lemma {:induction false} CleanOneOutline(a: Arg)
    ensures Outline(CleanOne(a)) == Outline(a)
  {
    if IsLen(InnerArg(a)) { SetInnerOutline(a, 0); } else { CleanOutline(a); }
  }

  lemma {:induction false} CleanSeqOutline(args: seq<Arg>, fields: bool)
    ensures OutlineSeq(CleanSeq(args, fields)) == OutlineSeq(args)
    decreases args, 0
  {
    if args != [] {
      if fields && IsLen(InnerArg(args[0])) { SetInnerOutline(args[0], 0); } else { CleanOutline(args[0]); }
      CleanSeqOutline(args[1..], fields);
      assert CleanSeq(args, fields)[1..] == CleanSeq(args[1..], fields);
    }
  }

  lemma {:induction false} ArgSame(x: seq<Arg>, y: seq<Arg>, a: Arg, b: Arg, up: seq<Arg>, vp: seq<Arg>)
    requires OutlineSeq(x) == OutlineSeq(y) && OutlineSeq(up) == OutlineSeq(vp)
    requires Clean(a) == Clean(b)
    ensures AssignArg(x, a, up) == AssignArg(y, b, vp)
    decreases a, 1
  {
    CleanOutline(a);
    CleanOutline(b);
    match a
    case PointerArg(t, _, _, res) =>
        if res.Some? { ArgSame(x, y, res.value, b.res.value, if t.PtrT? then up else [], if t.PtrT? then vp else []); }
    case UnionArg(_, option) => ArgSame(x, y, option, b.option, [], []);
    case GroupArg(t, inner) =>
      if t.StructT? {
        assert OutlineSeq([a] + up) == [Outline(a)] + OutlineSeq(up);
        assert OutlineSeq([b] + vp) == [Outline(b)] + OutlineSeq(vp);
        FieldsSame(x, y, inner, b.inner, inner, b.inner, [a] + up, [b] + vp);
      } else {
        ElemsSame(x, y, inner, b.inner);
      }
    case _ =>
  }

  lemma {:induction false} ElemsSame(x: seq<Arg>, y: seq<Arg>, xs: seq<Arg>, ys: seq<Arg>)
    requires OutlineSeq(x) == OutlineSeq(y) && CleanSeq(xs, false) == CleanSeq(ys, false)
    ensures AssignElems(x, xs) == AssignElems(y, ys)
    decreases xs, 0
  {
    if xs != [] && ys != [] {
      assert CleanSeq(xs, false)[0] == CleanSeq(ys, false)[0];
      assert CleanSeq(xs, false)[1..] == CleanSeq(ys, false)[1..];
      ArgSame(x, y, xs[0], ys[0], [], []);
      ElemsSame(x, y, xs[1..], ys[1..]);
    }
  }

  lemma {:induction false} LenSame(x: seq<Arg>, y: seq<Arg>, t: Type, all: seq<Arg>, bll: seq<Arg>, sib: seq<Arg>,
      tib: seq<Arg>)
    requires t.LenT? && OutlineSeq(x) == OutlineSeq(y) && OutlineSeq(all) == OutlineSeq(bll)
    requires OutlineSeq(sib) == OutlineSeq(tib)
    ensures LenValue(x, t, all, sib) == LenValue(y, t, bll, tib)
  {
    OutlineLen(x, t, all, sib);
    OutlineLen(y, t, bll, tib);
  }

  /** One member, written by AssignFields. */
  function AssignOne(top: seq<Arg>, a: Arg, all: seq<Arg>, sib: seq<Arg>): Arg {
    var len := InnerArg(a);
    var b := AssignArg(top, a, sib);
    if IsLen(len) then SetInner(b, LenValue(top, len.value.typ, all, sib)) else b
  }

  lemma {:induction false} OneOutline(top: seq<Arg>, a: Arg, all: seq<Arg>, sib: seq<Arg>)
    ensures Outline(AssignOne(top, a, all, sib)) == Outline(a)
  {
    AssignArgOutline(top, a, sib);
    if IsLen(InnerArg(a)) {
      InnerAssigned(top, a, sib);
      SetInnerOutline(a, LenValue(top, InnerArg(a).value.typ, all, sib));
    }
  }

  lemma {:induction false} OneSame(x: seq<Arg>, y: seq<Arg>, a: Arg, b: Arg, all: seq<Arg>, bll: seq<Arg>,
      sib: seq<Arg>, tib: seq<Arg>)
    requires OutlineSeq(x) == OutlineSeq(y) && OutlineSeq(all) == OutlineSeq(bll) && OutlineSeq(sib) == OutlineSeq(tib)
    requires CleanOne(a) == CleanOne(b)
    ensures AssignOne(x, a, all, sib) == AssignOne(y, b, bll, tib)
    decreases a, 2
  {
    CleanOneOutline(a);
    CleanOneOutline(b);
    OutlineInner(a);
    OutlineInner(b);
    if IsLen(InnerArg(a)) {
      var t := InnerArg(a).value.typ;
      assert Outline(InnerArg(a).value).typ == t && IsLen(InnerArg(b)) && InnerArg(b).value.typ == t;
      LenSame(x, y, t, all, bll, sib, tib);
      InnerAssigned(x, a, sib);
      InnerAssigned(y, b, tib);
      SetTwice(a, 0, LenValue(x, t, all, sib));
      SetTwice(b, 0, LenValue(x, t, all, sib));
    } else {
      ArgSame(x, y, a, b, sib, tib);
    }
  }

  lemma {:induction false} FieldsSame(x: seq<Arg>, y: seq<Arg>, xs: seq<Arg>, ys: seq<Arg>, all: seq<Arg>,
      bll: seq<Arg>, sib: seq<Arg>, tib: seq<Arg>)
    requires OutlineSeq(x) == OutlineSeq(y) && OutlineSeq(all) == OutlineSeq(bll) && OutlineSeq(sib) == OutlineSeq(tib)
    requires CleanSeq(xs, true) == CleanSeq(ys, true)
    ensures AssignFields(x, xs, all, sib) == AssignFields(y, ys, bll, tib)
    decreases xs, 0
  {
    if xs != [] && ys != [] {
      var p, q := CleanSeq(xs, true), CleanSeq(ys, true);
      assert p[0] == CleanOne(xs[0]) && q[0] == CleanOne(ys[0]);
      assert p[1..] == CleanSeq(xs[1..], true) && q[1..] == CleanSeq(ys[1..], true);
      OneSame(x, y, xs[0], ys[0], all, bll, sib, tib);
      FieldsSame(x, y, xs[1..], ys[1..], all, bll, sib, tib);
    }
  }

  /** Arguments that differ only in what assignSizesCall determines get the same sizes. */
  lemma {:induction false} AssignIsFunction(x: seq<Arg>, y: seq<Arg>)
    requires CleanSeq(x, true) == CleanSeq(y, true)
    ensures AssignSizes(x) == AssignSizes(y)
  {
    CleanSeqOutline(x, true);
    CleanSeqOutline(y, true);
    FieldsSame(x, y, x, y, x, y, [], []);
  }

  /** It writes nothing else. */
  lemma {:induction false} AssignKeepsClean(args: seq<Arg>)
    ensures CleanSeq(AssignSizes(args), true) == CleanSeq(args, true)
  {
    FieldsClean(args, args, args, []);
  }

  lemma {:induction false} AssignIdempotent(args: seq<Arg>)
    ensures AssignSizes(AssignSizes(args)) == AssignSizes(args)
  {
    AssignKeepsClean(args);
    AssignIsFunction(AssignSizes(args), args);
  }

  lemma {:induction false} ArgClean(top: seq<Arg>, a: Arg, up: seq<Arg>)
    ensures Clean(AssignArg(top, a, up)) == Clean(a)
    decreases a, 1
  {
    match a
    case PointerArg(t, _, _, res) => if res.Some? { ArgClean(top, res.value, if t.PtrT? then up else []); }
    case UnionArg(_, option) => ArgClean(top, option, []);
    case GroupArg(t, inner) =>
      if t.StructT? { FieldsClean(top, inner, inner, [a] + up); } else { ElemsClean(top, inner); }
    case _ =>
  }

  lemma {:induction false} ElemsClean(top: seq<Arg>, args: seq<Arg>)
    ensures CleanSeq(AssignElems(top, args), false) == CleanSeq(args, false)
    decreases args, 0
  {
    if args != [] {
      ArgClean(top, args[0], []);
      ElemsClean(top, args[1..]);
      assert AssignElems(top, args)[1..] == AssignElems(top, args[1..]);
    }
  }

  lemma {:induction false} FieldsClean(top: seq<Arg>, args: seq<Arg>, all: seq<Arg>, sib: seq<Arg>)
    ensures CleanSeq(AssignFields(top, args, all, sib), true) == CleanSeq(args, true)
    decreases args, 0
  {
    if args != [] {
      var a := args[0];
      var b := AssignOne(top, a, all, sib);
      OneOutline(top, a, all, sib);
      OutlineInner(a);
      OutlineInner(b);
      AssignArgOutline(top, a, sib);
      OutlineInner(AssignArg(top, a, sib));
      if IsLen(InnerArg(a)) {
        InnerAssigned(top, a, sib);
        SetTwice(a, LenValue(top, InnerArg(a).value.typ, all, sib), 0);
        assert IsLen(InnerArg(b)) by { assert Outline(InnerArg(b).value).ConstArg?; }
      } else {
        ArgClean(top, a, sib);
      }
      FieldsClean(top, args[1..], all, sib);
      assert AssignFields(top, args, all, sib)[1..] == AssignFields(top, args[1..], all, sib);
    }
  }

  // ----- what a length means -----

  /** A length that names a member measures that member, behind its pointers: elements of an
      array, the extent of a memory range, bytes of anything else, and nothing behind null; with a
      unit, in that many bits. */
  lemma {:induction false} LengthOfMember(t: Type, name: string, args: seq<Arg>, sib: seq<Arg>, j: nat)
    requires t.LenT? && !t.offset && j < |args| && args[j].typ.com.field == name
    requires forall k :: 0 <= k < j ==> args[k].typ.com.field != name
    ensures var buf, bits := InnerArg(args[j]), if t.bitSize == 0 then 8 else t.bitSize;
      Resolve(t, [name], args, sib, sib) ==
      if buf.None? then 0
      else if buf.value.typ.VmaT? && buf.value.PointerArg? then buf.value.vmaSize * 8 / bits
      else if buf.value.typ.ArrayT? && buf.value.GroupArg? && t.bitSize == 0 then |buf.value.inner|
      else Size(buf.value) * 8 / bits
  {
    FieldAt(args, name, j);
  }

  /** An offset of a member is the size of the members before it, in the unit of the type. */
  lemma {:induction false} OffsetOfMember(t: Type, name: string, args: seq<Arg>, sib: seq<Arg>, j: nat)
    requires t.LenT? && t.bitSize != 0 && t.offset && j < |args| && args[j].typ.com.field == name
    requires forall k :: 0 <= k < j ==> args[k].typ.com.field != name
    ensures Resolve(t, [name], args, sib, sib) == if InnerArg(args[j]).None? then 0
        else SizeSeq(args[..j]) * 8 / t.bitSize
  {
    FieldAt(args, name, j);
  }

  lemma {:induction false} FieldAt(args: seq<Arg>, name: string, j: nat)
    requires j < |args| && args[j].typ.com.field == name && forall k :: 0 <= k < j ==> args[k].typ.com.field != name
    ensures FindField(args, name) == Some((args[j], SizeSeq(args[..j])))
  {
    if j > 0 {
      FieldAt(args[1..], name, j - 1);
      assert args[..j][1..] == args[1..][..j - 1];
    }
  }

  /** The name is `base`, perhaps with template arguments. */
  predicate IsTemplate(name: string, base: string) {
    base <= name && (|name| > |base| ==> name[|base|] == '[')
  }

  lemma {:induction false} TemplateIs(name: string)
    ensures IsTemplate(name, TemplateName(name)) && '[' !in TemplateName(name)
  {
    if name != "" && name[0] != '[' {
      TemplateIs(name[1..]);
      assert name == [name[0]] + name[1..];
    }
  }

  lemma {:induction false} OneTemplate(name: string, base: string)
    requires '[' !in base
    ensures IsTemplate(name, base) <==> TemplateName(name) == base
  {
    TemplateIs(name);
  }

  predicate NoField(args: seq<Arg>, name: string) {
    forall k :: 0 <= k < |args| ==> args[k].typ.com.field != name
  }

  lemma {:induction false} NotFound(args: seq<Arg>, name: string)
    requires NoField(args, name)
    ensures FindField(args, name).None?
  {
    if args != [] {
      assert forall k :: 0 <= k < |args| - 1 ==> args[1..][k] == args[k + 1];
      NotFound(args[1..], name);
    }
  }

  /** Struct `k` is the innermost one of that template. */
  predicate IsNearest(up: seq<Arg>, name: string, k: nat) {
    k < |up| && IsTemplate(up[k].typ.com.name, name) && forall i :: 0 <= i < k ==> !IsTemplate(up[i].typ.com.name, name)
  }

  lemma {:induction false} NearestFound(up: seq<Arg>, name: string, k: nat)
    requires '[' !in name && IsNearest(up, name, k)
    ensures FindParent(up, name) == Some(k)
  {
    OneTemplate(up[0].typ.com.name, name);
    if k > 0 {
      assert forall i :: 0 <= i < k ==> up[1..][i] == up[i + 1];
      NearestFound(up[1..], name, k - 1);
    }
  }

  /** A length of its parent measures the innermost struct around it, whatever its name. */
  lemma {:induction false} LengthOfParent(t: Type, args: seq<Arg>, up: seq<Arg>, sib: seq<Arg>)
    requires t.LenT? && !t.offset && up != [] && up[0].typ.StructT? && NoField(args, "parent")
    ensures Resolve(t, ["parent"], args, up, sib) == Size(up[0]) * 8 / (if t.bitSize == 0 then 8 else t.bitSize)
  {
    NotFound(args, "parent");
  }

  /** A length of a struct by name measures the innermost one of that template. */
  lemma {:induction false} LengthOfStruct(t: Type, name: string, args: seq<Arg>, up: seq<Arg>, sib: seq<Arg>, k: nat)
    requires t.LenT? && !t.offset && name != "parent" && '[' !in name && NoField(args, name)
    requires IsNearest(up, name, k) && up[k].typ.StructT?
    ensures Resolve(t, [name], args, up, sib) == Size(up[k]) * 8 / (if t.bitSize == 0 then 8 else t.bitSize)
  {
    NotFound(args, name);
    NearestFound(up, name, k);
  }

  /** A length of an argument of the call measures that argument, wherever the length stands. */
  lemma {:induction false} LengthOfArgument(t: Type, name: string, top: seq<Arg>, all: seq<Arg>, sib: seq<Arg>, j: nat)
    requires t.LenT? && !t.offset && t.path == ["syscall", name] && j < |top| && top[j].typ.com.field == name
    requires forall k :: 0 <= k < j ==> top[k].typ.com.field != name
    ensures var buf, bits := InnerArg(top[j]), if t.bitSize == 0 then 8 else t.bitSize;
      LenValue(top, t, all, sib) ==
      (if buf.None? then 0
       else if buf.value.typ.VmaT? && buf.value.PointerArg? then buf.value.vmaSize * 8 / bits
       else if buf.value.typ.ArrayT? && buf.value.GroupArg? && t.bitSize == 0 then |buf.value.inner|
       else Size(buf.value) * 8 / bits) % TWO64
  {
    assert t.path[1..] == [name];
    LengthOfMember(t, name, top, [], j);
  }

  /** A longer path goes on inside what its first name leads to: a struct among the members, behind
      its pointers, ... */
  lemma {:induction false} PathThroughMember(t: Type, path: seq<string>, args: seq<Arg>, up: seq<Arg>, sib: seq<Arg>,
      j: nat)
    requires t.LenT? && |path| > 1 && j < |args| && args[j].typ.com.field == path[0]
    requires forall k :: 0 <= k < j ==> args[k].typ.com.field != path[0]
    requires InnerArg(args[j]).Some? && InnerArg(args[j]).value.GroupArg? && InnerArg(args[j]).value.typ.StructT?
    ensures var buf := InnerArg(args[j]).value;
      Resolve(t, path, args, up, sib) == Resolve(t, path[1..], buf.inner, sib, [buf] + sib)
  {
    FieldAt(args, path[0], j);
  }

  /** ... or a struct around it: the innermost one, or the innermost of a template. */
  lemma {:induction false} PathThroughStruct(t: Type, path: seq<string>, args: seq<Arg>, up: seq<Arg>, sib: seq<Arg>,
      k: nat)
    requires t.LenT? && |path| > 1 && NoField(args, path[0]) && '[' !in path[0] && k < |up|
    requires if path[0] == "parent" then k == 0 else IsNearest(up, path[0], k)
    requires up[k].GroupArg? && up[k].typ.StructT?
    ensures Resolve(t, path, args, up, sib) ==
            Resolve(t, path[1..], up[k].inner, up[k + 1..], [up[k]] + up[k + 1..])
  {
    NotFound(args, path[0]);
    if path[0] != "parent" { NearestFound(up, path[0], k); }
  }

  /** Every length field of the structs below `a` has the value that its path gives in the tree;
      `up` are the structs around `a`. */
  ghost predicate Correct(top: seq<Arg>, a: Arg, up: seq<Arg>)
    decreases a, 1
  {
    match a
    case PointerArg(t, _, _, res) => res.Some? ==> Correct(top, res.value, if t.PtrT? then up else [])
    case UnionArg(_, option) => Correct(top, option, [])
    case GroupArg(t, inner) =>
        if t.StructT? then FieldsCorrect(top, inner, inner, [a] + up) else ElemsCorrect(top, inner)
    case _ => true
  }

  ghost predicate ElemsCorrect(top: seq<Arg>, args: seq<Arg>)
    decreases args, 0
  {
    args != [] ==> Correct(top, args[0], []) && ElemsCorrect(top, args[1..])
  }

  ghost predicate FieldsCorrect(top: seq<Arg>, args: seq<Arg>, all: seq<Arg>, sib: seq<Arg>)
    decreases args, 0
  {
    args != [] ==>
      && (IsLen(InnerArg(args[0])) ==>
           InnerArg(args[0]).value.val == LenValue(top, InnerArg(args[0]).value.typ, all, sib))
      && Correct(top, args[0], sib)
      && FieldsCorrect(top, args[1..], all, sib)
  }

  /** What assignment leaves as it is, is correct. */
  lemma {:induction false} FixedCorrect(top: seq<Arg>, a: Arg, up: seq<Arg>)
    requires AssignArg(top, a, up) == a
    ensures Correct(top, a, up)
    decreases a, 1
  {
    match a
    case PointerArg(t, _, _, res) => if res.Some? { FixedCorrect(top, res.value, if t.PtrT? then up else []); }
    case UnionArg(_, option) => FixedCorrect(top, option, []);
    case GroupArg(t, inner) =>
      if t.StructT? { FixedFields(top, inner, inner, [a] + up); } else { FixedElems(top, inner); }
    case _ =>
  }

  lemma {:induction false} FixedElems(top: seq<Arg>, args: seq<Arg>)
    requires AssignElems(top, args) == args
    ensures ElemsCorrect(top, args)
    decreases args, 0
  {
    if args != [] {
      assert AssignElems(top, args)[0] == args[0] && AssignElems(top, args)[1..] == args[1..];
      FixedCorrect(top, args[0], []);
      FixedElems(top, args[1..]);
    }
  }

  lemma {:induction false} FixedFields(top: seq<Arg>, args: seq<Arg>, all: seq<Arg>, sib: seq<Arg>)
    requires AssignFields(top, args, all, sib) == args
    ensures FieldsCorrect(top, args, all, sib)
    decreases args, 0
  {
    if args != [] {
      var a := args[0];
      assert AssignFields(top, args, all, sib)[0] == a && AssignFields(top, args, all, sib)[1..] == args[1..];
      if IsLen(InnerArg(a)) {
        InnerAssigned(top, a, sib);
        SetInnerValue(a, LenValue(top, InnerArg(a).value.typ, all, sib));
      }
      FixedCorrect(top, a, sib);
      FixedFields(top, args[1..], all, sib);
    }
  }

  /** After AssignSizes all length fields, at every depth, have the values that their paths give in
      the assigned tree itself. */
  lemma {:induction false} AllLengths(args: seq<Arg>)
    ensures FieldsCorrect(AssignSizes(args), AssignSizes(args), AssignSizes(args), [])
  {
    AssignIdempotent(args);
    FixedFields(AssignSizes(args), AssignSizes(args), AssignSizes(args), []);
  }

  lemma {:induction false} SetInnerValue(a: Arg, v: U64)
    requires IsLen(InnerArg(a))
    ensures InnerArg(SetInner(a, v)) == Some(ConstArg(InnerArg(a).value.typ, v))
  {
    if a.typ.PtrT? { SetInnerValue(a.res.value, v); }
  }
}
