/**
  Default values of types (DefaultArg, isDefaultArg: prog/types.go) and the checks of
  validate (prog/validation.go) on programs as values.
 */
module Defaults {
  import opened Ir

  const PROC_DEFAULT: U64 := 0xffff_ffff_ffff_ffff

  function Max(a: nat, b: nat): nat {
    if a < b then b else a
  }

  /** One more than the largest pointee a value of this type must contain.  Optional pointers
      do not count: they are what ends a recursive description (pkg/compiler/check.go:695-712). */
  function Bound(t: Type): nat {
    match t
    case PtrT(com, pointee) => if com.optional then 0 else pointee + 1
    case ArrayT(_, elem, _) => Bound(elem)
    case StructT(_, fields, _) => BoundSeq(fields)
    case UnionT(_, options) => BoundSeq(options)
    case _ => 0
  }

  function BoundSeq(ts: seq<Type>): nat {
    if ts == [] then 0 else Max(Bound(ts[0]), BoundSeq(ts[1..]))
  }

  predicate IsIdentChar(c: char) {
    'a' <= c <= 'z' || 'A' <= c <= 'Z' || '0' <= c <= '9' || c == '_' || c == '$'
  }

  predicate IsIdent(s: string) {
    s != "" && forall i :: 0 <= i < |s| ==> IsIdentChar(s[i])
  }

  /** What the description compiler guarantees of a type, with `n` pointees in the target:
      padding is zero and appears only after the first field of a struct, unions have options,
      and options have names. */
  predicate TypeOk(n: nat, t: Type) {
    match t
    case ConstT(_, _, val, isPad) => isPad ==> val == 0
    case PtrT(_, pointee) => pointee < n
    case ArrayT(_, elem, _) => !IsPad(elem) && TypeOk(n, elem)
    case StructT(_, fields, _) => (fields != [] ==> !IsPad(fields[0])) && TypesOk(n, fields)
    case UnionT(_, options) =>
      options != [] && TypesOk(n, options) &&
      forall i :: 0 <= i < |options| ==> !IsPad(options[i]) && IsIdent(options[i].com.field)
    case _ => true
  }

  predicate TypesOk(n: nat, ts: seq<Type>) {
    ts != [] ==> TypeOk(n, ts[0]) && TypesOk(n, ts[1..])
  }

  /** Pointees are listed so that required pointers lead to earlier entries. */
  predicate PointeesOk(tgt: Target) {
    forall i :: 0 <= i < |tgt.pointees| ==>
      TypeOk(|tgt.pointees|, tgt.pointees[i]) && Bound(tgt.pointees[i]) <= i && !IsPad(tgt.pointees[i])
  }

  predicate IsFixedArray(k: ArrayKind) {
    k.RangeLen? && k.begin == k.end
  }

  function DefaultVal(t: Type): U64 {
    if t.ConstT? then t.val else if t.ProcT? then PROC_DEFAULT else 0
  }

  function DefaultArg(tgt: Target, t: Type): (a: Arg)
    requires PointeesOk(tgt) && TypeOk(|tgt.pointees|, t)
    ensures a.typ == t
    decreases Bound(t), t
  {
    match t
    case ResourceT(_, _, default) => ResultArg(t, None, 0, 0, default)
    case VmaT(_) => PointerArg(t, 0, 0, None)
    case BufferT(com, _, _, _) =>
      if com.dir == DirOut then DataArg(t, [], if com.varlen then 0 else com.size)
      else DataArg(t, if com.varlen then [] else Zeros(com.size), 0)
    case ArrayT(_, elem, kind) =>
      if IsFixedArray(kind) then
        var d := DefaultArg(tgt, elem);
        GroupArg(t, seq(kind.begin, _ => d))
      else GroupArg(t, [])
    case PtrT(com, pointee) =>
      if com.optional then PointerArg(t, 0, 0, None)
      else PointerArg(t, 0, 0, Some(DefaultArg(tgt, tgt.pointees[pointee])))
    case StructT(_, fields, _) => GroupArg(t, DefaultSeq(tgt, fields))
    case UnionT(_, options) =>
      assert TypesOk(|tgt.pointees|, options) && Bound(options[0]) <= BoundSeq(options);
      UnionArg(t, DefaultArg(tgt, options[0]))
    case _ => ConstArg(t, DefaultVal(t))
  }

  function DefaultSeq(tgt: Target, ts: seq<Type>): (args: seq<Arg>)
    requires PointeesOk(tgt) && TypesOk(|tgt.pointees|, ts)
    ensures |args| == |ts|
    decreases BoundSeq(ts), ts
  {
    if ts == [] then [] else [DefaultArg(tgt, ts[0])] + DefaultSeq(tgt, ts[1..])
  }

  /** fixedInnerSize: the number of members is given by the type. */
  predicate FixedInner(t: Type) {
    t.StructT? || (t.ArrayT? && IsFixedArray(t.akind))
  }

  /** isDefault of the argument that starts at result ordinal `k` of call `c`; an argument
      somebody uses (`used`) is never default. */
  predicate IsDefault(used: set<Loc>, c: nat, a: Arg, k: nat) {
    match a
    case ConstArg(t, val) => val == DefaultVal(t)
    case PointerArg(t, address, _, res) =>
      if t.VmaT? || t.com.optional then IsSpecial(a) && address == 0
      else address == 0 && res.Some? && IsDefault(used, c, res.value, k)
    case DataArg(t, data, _) =>
      Size(a) == 0 || (!t.com.varlen && (t.com.dir == DirOut || forall i :: 0 <= i < |data| ==> data[i] == 0))
    case GroupArg(t, inner) => (!FixedInner(t) ==> inner == []) && AllDefault(used, c, inner, k)
    case UnionArg(t, option) =>
      t.UnionT? && t.options != [] && option.typ.com.field == t.options[0].com.field && IsDefault(used, c, option, k)
    case ResultArg(t, ref, opDiv, opAdd, val) =>
      t.ResourceT? && ref.None? && opDiv == 0 && opAdd == 0 && Loc(c, k) !in used && val == t.default
  }

  predicate AllDefault(used: set<Loc>, c: nat, args: seq<Arg>, k: nat) {
    args != [] ==> IsDefault(used, c, args[0], k) && AllDefault(used, c, args[1..], k + NumResults(args[0]))
  }

  // ----- members of groups and calls -----

  /** The member types still to come: the fields of a struct or the arguments of a call, or
      any number of array elements, or exactly `n` of them. */
  datatype Shape = Fields(types: seq<Type>) | Elems(elem: Type) | Exactly(elem: Type, n: nat)

  function ShapeOf(t: Type): Shape
    requires t.StructT? || t.ArrayT?
  {
    if t.StructT? then Fields(t.fields)
    else if IsFixedArray(t.akind) then Exactly(t.elem, t.akind.begin)
    else Elems(t.elem)
  }

  function Head(sh: Shape): Option<Type> {
    match sh
    case Fields(types) => if types == [] then None else Some(types[0])
    case Elems(elem) => Some(elem)
    case Exactly(elem, n) => if n == 0 then None else Some(elem)
  }

  function Tail(sh: Shape): Shape
    requires Head(sh).Some?
  {
    match sh
    case Fields(types) => Fields(types[1..])
    case Elems(elem) => sh
    case Exactly(elem, n) => Exactly(elem, n - 1)
  }

  /** No further member is needed. */
  predicate Complete(sh: Shape) {
    sh.Elems? || Head(sh).None?
  }

  predicate ShapeOk(n: nat, sh: Shape) {
    match sh
    case Fields(types) => TypesOk(n, types)
    case Elems(elem) => !IsPad(elem) && TypeOk(n, elem)
    case Exactly(elem, _) => !IsPad(elem) && TypeOk(n, elem)
  }

  /** Defaults for the members not given. */
  function Fill(tgt: Target, sh: Shape): seq<Arg>
    requires PointeesOk(tgt) && ShapeOk(|tgt.pointees|, sh)
  {
    match sh
    case Fields(types) => DefaultSeq(tgt, types)
    case Elems(_) => []
    case Exactly(elem, n) => var d := DefaultArg(tgt, elem); seq(n, _ => d)
  }

  // ----- validate -----

  function FindOption(options: seq<Type>, name: string): (r: Option<Type>)
    ensures r.Some? ==> r.value in options && r.value.com.field == name
  {
    if options == [] then None
    else if options[0].com.field == name then Some(options[0])
    else FindOption(options[1..], name)
  }

  function Wrap(x: nat): U64 {
    x % TWO64
  }

  function MaxMem(tgt: Target): nat {
    tgt.numPages * tgt.pageSize
  }

  /** The end of the object is computed in 64 bits, so a range may wrap around. */
  predicate PointerOk(tgt: Target, a: Arg)
    requires a.PointerArg?
  {
    if IsSpecial(a) then Neg64(a.address) < |tgt.special|
    else
      var size := if a.vmaSize == 0 && a.res.Some? then Size(a.res.value) else a.vmaSize;
      a.address < MaxMem(tgt) && Wrap(a.address + size) <= MaxMem(tgt)
  }

  /** validateArg without the link checks.  Two clauses are facts about how arguments can be
      built rather than checks: input data has no separate size, and sizes are 64-bit. */
  predicate ValidArg(tgt: Target, a: Arg, t: Type)
    decreases a
  {
    && a.typ == t
    && match a
       case ConstArg(_, val) =>
         && HasBits(t)
         && (t.ProcT? ==> val < t.perProc || val == PROC_DEFAULT)
         && (t.CsumT? ==> val == 0)
         && (t.com.dir == DirOut && !t.LenT? ==> val == DefaultVal(t))
       case PointerArg(_, _, vmaSize, res) =>
         && (t.VmaT? || t.PtrT?)
         && (t.VmaT? ==> res.None?)
         && (t.PtrT? ==> vmaSize == 0 && t.com.dir != DirOut && t.pointee < |tgt.pointees|)
         && (t.PtrT? && res.Some? ==> ValidArg(tgt, res.value, tgt.pointees[t.pointee]))
         && PointerOk(tgt, a)
       case DataArg(_, data, outSize) =>
         && t.BufferT?
         && (t.com.dir == DirOut ==> data == [])
         && (t.com.dir != DirOut ==> outSize == 0)
         && Size(a) < TWO64
         && (!t.com.varlen ==> Size(a) == t.com.size)
         && (t.kind == StringBuf && t.com.size != 0 ==> Size(a) == t.com.size)
       case GroupArg(_, inner) => (t.StructT? || t.ArrayT?) && ValidSeq(tgt, inner, ShapeOf(t))
       case UnionArg(_, option) =>
         && t.UnionT?
         && var o := FindOption(t.options, option.typ.com.field);
         && o.Some? && ValidArg(tgt, option, o.value)
       case ResultArg(_, _, _, _, val) =>
         t.ResourceT? && (t.com.dir == DirOut ==> val == 0 || val == t.default)
  }

  predicate ValidSeq(tgt: Target, args: seq<Arg>, sh: Shape)
    decreases args
  {
    if args == [] then Complete(sh)
    else Head(sh).Some? && ValidArg(tgt, args[0], Head(sh).value) && ValidSeq(tgt, args[1..], Tail(sh))
  }

  /** The result argument at `l` comes before ordinal `k` of call `c`.  A return value comes
      after the arguments of its call. */
  predicate Before(l: Loc, c: nat, k: nat) {
    l.call < c || (l.call == c && 1 <= l.idx < k)
  }

  /** References go to earlier result arguments, or to the argument itself: validate records an
      argument as seen before it looks at its reference. */
  predicate LinksOk(a: Arg, c: nat, k: nat) {
    match a
    case PointerArg(_, _, _, res) => res.Some? ==> LinksOk(res.value, c, k)
    case GroupArg(_, inner) => LinksOkSeq(inner, c, k)
    case UnionArg(_, option) => LinksOk(option, c, k)
    case ResultArg(_, ref, _, _, _) => ref.Some? ==> Before(ref.value, c, k) || ref.value == Loc(c, k)
    case _ => true
  }

  predicate LinksOkSeq(args: seq<Arg>, c: nat, k: nat) {
    args != [] ==> LinksOk(args[0], c, k) && LinksOkSeq(args[1..], c, k + NumResults(args[0]))
  }

  /** The location holds a result argument of the program. */
  predicate Exists(p: Program, l: Loc) {
    && l.call < |p|
    && if l.idx == 0 then p[l.call].ret.Some? else l.idx <= NumResultsSeq(p[l.call].args)
  }

  function ReturnArg(t: Type): Arg {
    ResultArg(t, None, 0, 0, 0)
  }

  /** What validateRet asks of the type of a return value. */
  predicate IsReturn(t: Type) {
    t.ResourceT? && t.com.dir == DirOut
  }

  predicate ValidCall(tgt: Target, call: Call, c: nat) {
    && call.meta in tgt.syscalls
    && ValidSeq(tgt, call.args, Fields(call.meta.args))
    && LinksOkSeq(call.args, c, 1)
    && (call.meta.ret.None? ==> call.ret.None?)
    && (call.meta.ret.Some? ==> IsReturn(call.meta.ret.value) && call.ret == Some(ReturnArg(call.meta.ret.value)))
  }

  predicate ValidProg(tgt: Target, p: Program) {
    && (forall c :: 0 <= c < |p| ==> ValidCall(tgt, p[c], c))
    && forall l :: l in RefsProg(p) ==> Exists(p, l)
  }

  // ----- a default argument is the default of its type -----

  lemma {:induction false} DefaultIsDefaultArg(tgt: Target, used: set<Loc>, c: nat, a: Arg, k: nat, t: Type)
    requires PointeesOk(tgt) && TypeOk(|tgt.pointees|, t)
    requires ValidArg(tgt, a, t) && IsDefault(used, c, a, k)
    ensures a == DefaultArg(tgt, t)
    decreases a
  {
    match a
    case ConstArg(_, _) =>
    case PointerArg(_, _, _, res) =>
      if t.PtrT? && !t.com.optional {
        DefaultIsDefaultArg(tgt, used, c, res.value, k, tgt.pointees[t.pointee]);
      }
    case DataArg(_, data, _) =>
      if t.com.dir != DirOut && !t.com.varlen { assert data == Zeros(t.com.size); }
    case GroupArg(_, inner) => DefaultMembers(tgt, used, c, inner, k, ShapeOf(t));
    case UnionArg(_, option) => DefaultIsDefaultArg(tgt, used, c, option, k, t.options[0]);
    case ResultArg(_, _, _, _, _) =>
  }

  lemma {:induction false} DefaultMembers(tgt: Target, used: set<Loc>, c: nat, args: seq<Arg>, k: nat, sh: Shape)
    requires PointeesOk(tgt) && ShapeOk(|tgt.pointees|, sh)
    requires ValidSeq(tgt, args, sh) && AllDefault(used, c, args, k) && (sh.Elems? ==> args == [])
    ensures args == Fill(tgt, sh)
    decreases args
  {
    if args != [] {
      DefaultIsDefaultArg(tgt, used, c, args[0], k, Head(sh).value);
      DefaultMembers(tgt, used, c, args[1..], k + NumResults(args[0]), Tail(sh));
      assert args == [args[0]] + args[1..];
    }
  }

  /** Conversely the default of a type is recognised as default where nothing uses it. */
  lemma {:induction false} DefaultArgIsDefault(tgt: Target, used: set<Loc>, c: nat, k: nat, t: Type)
    requires PointeesOk(tgt) && TypeOk(|tgt.pointees|, t)
    requires forall j :: k <= j < k + NumResults(DefaultArg(tgt, t)) ==> Loc(c, j) !in used
    ensures IsDefault(used, c, DefaultArg(tgt, t), k)
    decreases Bound(t), t, 0
  {
    match t
    case ArrayT(_, elem, kind) =>
      if IsFixedArray(kind) { DefaultsRepeated(tgt, used, c, k, elem, kind.begin); }
    case PtrT(com, pointee) =>
      if !com.optional { DefaultArgIsDefault(tgt, used, c, k, tgt.pointees[pointee]); }
    case StructT(_, fields, _) => DefaultSeqIsDefault(tgt, used, c, k, fields);
    case UnionT(_, options) =>
      assert TypesOk(|tgt.pointees|, options) && Bound(options[0]) <= BoundSeq(options);
      DefaultArgIsDefault(tgt, used, c, k, options[0]);
    case _ =>
  }

  lemma {:induction false} DefaultSeqIsDefault(tgt: Target, used: set<Loc>, c: nat, k: nat, ts: seq<Type>)
    requires PointeesOk(tgt) && TypesOk(|tgt.pointees|, ts)
    requires forall j :: k <= j < k + NumResultsSeq(DefaultSeq(tgt, ts)) ==> Loc(c, j) !in used
    ensures AllDefault(used, c, DefaultSeq(tgt, ts), k)
    decreases BoundSeq(ts), ts, 0
  {
    if ts != [] {
      var d := DefaultSeq(tgt, ts);
      assert d[1..] == DefaultSeq(tgt, ts[1..]);
      DefaultArgIsDefault(tgt, used, c, k, ts[0]);
      DefaultSeqIsDefault(tgt, used, c, k + NumResults(d[0]), ts[1..]);
    }
  }

  lemma {:induction false} DefaultsRepeated(tgt: Target, used: set<Loc>, c: nat, k: nat, t: Type, n: nat)
    requires PointeesOk(tgt) && TypeOk(|tgt.pointees|, t)
    requires forall j :: k <= j < k + NumResultsSeq(seq(n, _ => DefaultArg(tgt, t))) ==> Loc(c, j) !in used
    ensures AllDefault(used, c, seq(n, _ => DefaultArg(tgt, t)), k)
    decreases Bound(t), t, 1, n
  {
    if n > 0 {
      var d := DefaultArg(tgt, t);
      assert seq(n, _ => d)[1..] == seq(n - 1, _ => d);
      DefaultArgIsDefault(tgt, used, c, k, t);
      DefaultsRepeated(tgt, used, c, k + NumResults(d), t, n - 1);
    }
  }

  /** Nothing inside a default argument is used. */
  lemma {:induction false} DefaultUnused(used: set<Loc>, c: nat, a: Arg, k: nat, j: nat)
    requires IsDefault(used, c, a, k) && k <= j < k + NumResults(a)
    ensures Loc(c, j) !in used
    decreases a
  {
    match a
    case PointerArg(_, _, _, res) => if res.Some? { DefaultUnused(used, c, res.value, k, j); }
    case GroupArg(_, inner) => DefaultsUnused(used, c, inner, k, j);
    case UnionArg(_, option) => DefaultUnused(used, c, option, k, j);
    case _ =>
  }

  lemma {:induction false} DefaultsUnused(used: set<Loc>, c: nat, args: seq<Arg>, k: nat, j: nat)
    requires AllDefault(used, c, args, k) && k <= j < k + NumResultsSeq(args)
    ensures Loc(c, j) !in used
    decreases args
  {
    if j < k + NumResults(args[0]) {
      DefaultUnused(used, c, args[0], k, j);
    } else {
      DefaultsUnused(used, c, args[1..], k + NumResults(args[0]), j);
    }
  }
}
