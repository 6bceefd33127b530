/**
  What default arguments hold (prog/types.go:186-194, 267-273, 345-351, 434-587), and that it is
  what text leaves out (prog/encoding.go:206-228, 563-630).
 */
module DefaultValues {
  import opened Ir
  import opened Defaults
  import opened TextLex
  import opened TextParse
  import TextProgram

  /** What the type prescribes for the argument itself: the declared value of a constant, all ones
      for a value that depends on the process, the value of an unset resource, and zeros; no
      object but where one is required, no elements but where their number is fixed. */
  predicate Prescribed(tgt: Target, a: Arg) {
    match a.typ
    case ConstT(_, _, val, _) => a == ConstArg(a.typ, val)
    case ProcT(_, _, _, _) => a == ConstArg(a.typ, 0xffff_ffff_ffff_ffff)
    case IntT(_, _) => a == ConstArg(a.typ, 0)
    case FlagsT(_, _) => a == ConstArg(a.typ, 0)
    case LenT(_, _, _, _, _) => a == ConstArg(a.typ, 0)
    case CsumT(_, _, _, _, _) => a == ConstArg(a.typ, 0)
    case ResourceT(_, _, unset) => a == ResultArg(a.typ, None, 0, 0, unset)
    case VmaT(_) => a == PointerArg(a.typ, 0, 0, None)
    case PtrT(com, pointee) =>
      && a.PointerArg? && a.address == 0 && a.vmaSize == 0
      && if com.optional then a.res.None?
         else a.res.Some? && pointee < |tgt.pointees| && a.res.value.typ == tgt.pointees[pointee]
    case BufferT(com, _, _, _) =>
      var size := if com.varlen then 0 else com.size;
      a == if com.dir == DirOut then DataArg(a.typ, [], size) else DataArg(a.typ, Zeros(size), 0)
    case ArrayT(_, elem, kind) =>
      && a.GroupArg? && |a.inner| == (if kind.RangeLen? && kind.begin == kind.end then kind.begin else 0)
      && forall i :: 0 <= i < |a.inner| ==> a.inner[i].typ == elem
    case StructT(_, fields, _) =>
      a.GroupArg? && |a.inner| == |fields| && forall i :: 0 <= i < |fields| ==> a.inner[i].typ == fields[i]
    case UnionT(_, options) => a.UnionArg? && options != [] && a.option.typ == options[0]
  }

  /** At every depth. */
  predicate Everywhere(tgt: Target, a: Arg)
    decreases a, 1
  {
    && Prescribed(tgt, a)
    && match a
       case PointerArg(_, _, _, res) => res.Some? ==> Everywhere(tgt, res.value)
       case UnionArg(_, option) => Everywhere(tgt, option)
       case GroupArg(_, inner) => AllOver(tgt, inner)
       case _ => true
  }

  predicate AllOver(tgt: Target, args: seq<Arg>)
    decreases args, 0
  {
    args != [] ==> Everywhere(tgt, args[0]) && AllOver(tgt, args[1..])
  }

  /** The default of a type is what the type prescribes, at every depth. */
  lemma {:induction false} DefaultHolds(tgt: Target, t: Type)
    requires PointeesOk(tgt) && TypeOk(|tgt.pointees|, t)
    ensures DefaultArg(tgt, t).typ == t && Everywhere(tgt, DefaultArg(tgt, t))
    decreases Bound(t), t, 0
  {
    match t
    case ArrayT(_, elem, kind) =>
      if IsFixedArray(kind) { DefaultHoldsRepeated(tgt, elem, kind.begin); }
    case PtrT(com, pointee) =>
      if !com.optional { DefaultHolds(tgt, tgt.pointees[pointee]); }
    case StructT(_, fields, _) =>
      DefaultHoldsSeq(tgt, fields);
    case UnionT(_, options) =>
      assert TypesOk(|tgt.pointees|, options) && Bound(options[0]) <= BoundSeq(options);
      DefaultHolds(tgt, options[0]);
    case _ =>
  }

  lemma {:induction false} DefaultHoldsSeq(tgt: Target, ts: seq<Type>)
    requires PointeesOk(tgt) && TypesOk(|tgt.pointees|, ts)
    ensures var args := DefaultSeq(tgt, ts);
      |args| == |ts| && AllOver(tgt, args) && forall i :: 0 <= i < |ts| ==> args[i].typ == ts[i]
    decreases BoundSeq(ts), ts, 0
  {
    if ts != [] {
      var args := DefaultSeq(tgt, ts);
      DefaultHolds(tgt, ts[0]);
      DefaultHoldsSeq(tgt, ts[1..]);
      assert args[1..] == DefaultSeq(tgt, ts[1..]);
      forall i | 0 <= i < |ts| ensures args[i].typ == ts[i] {
        if i > 0 { assert args[i] == args[1..][i - 1] && ts[i] == ts[1..][i - 1]; }
      }
    }
  }

  lemma {:induction false} DefaultHoldsRepeated(tgt: Target, t: Type, n: nat)
    requires PointeesOk(tgt) && TypeOk(|tgt.pointees|, t)
    ensures AllOver(tgt, seq(n, _ => DefaultArg(tgt, t)))
    decreases Bound(t), t, 1, n
  {
    if n > 0 {
      var d := DefaultArg(tgt, t);
      assert seq(n, _ => d)[1..] == seq(n - 1, _ => d);
      DefaultHolds(tgt, t);
      DefaultHoldsRepeated(tgt, t, n - 1);
    }
  }

  /** Nothing else holds that. */
  lemma {:induction false} Determined(tgt: Target, a: Arg, t: Type)
    requires PointeesOk(tgt) && TypeOk(|tgt.pointees|, t) && a.typ == t && Everywhere(tgt, a)
    ensures a == DefaultArg(tgt, t)
    decreases a, 1
  {
    match t
    case ArrayT(_, elem, kind) =>
      AllDetermined(tgt, a.inner, elem);
      if IsFixedArray(kind) { assert a.inner == seq(kind.begin, _ => DefaultArg(tgt, elem)); }
    case PtrT(com, pointee) =>
      if !com.optional { Determined(tgt, a.res.value, tgt.pointees[pointee]); }
    case StructT(_, fields, _) =>
      FieldsDetermined(tgt, a.inner, fields);
    case UnionT(_, options) =>
      Determined(tgt, a.option, options[0]);
    case _ =>
  }

  lemma {:induction false} AllDetermined(tgt: Target, args: seq<Arg>, t: Type)
    requires PointeesOk(tgt) && TypeOk(|tgt.pointees|, t) && AllOver(tgt, args)
    requires forall i :: 0 <= i < |args| ==> args[i].typ == t
    ensures forall i :: 0 <= i < |args| ==> args[i] == DefaultArg(tgt, t)
    decreases args, 0
  {
    if args != [] {
      Determined(tgt, args[0], t);
      assert forall i :: 0 <= i < |args| - 1 ==> args[1..][i] == args[i + 1];
      AllDetermined(tgt, args[1..], t);
      forall i | 0 <= i < |args| ensures args[i] == DefaultArg(tgt, t) {
        if i > 0 { assert args[i] == args[1..][i - 1]; }
      }
    }
  }

  lemma {:induction false} FieldsDetermined(tgt: Target, args: seq<Arg>, ts: seq<Type>)
    requires PointeesOk(tgt) && TypesOk(|tgt.pointees|, ts) && AllOver(tgt, args)
    requires |args| == |ts| && forall i :: 0 <= i < |ts| ==> args[i].typ == ts[i]
    ensures args == DefaultSeq(tgt, ts)
    decreases args, 0
  {
    if args != [] {
      Determined(tgt, args[0], ts[0]);
      assert forall i :: 0 <= i < |ts| - 1 ==> args[1..][i] == args[i + 1] && ts[1..][i] == ts[i + 1];
      FieldsDetermined(tgt, args[1..], ts[1..]);
      assert args == [args[0]] + args[1..];
    }
  }

  /** isDefault accepts an argument with no used results if and only if it holds what its type
      prescribes, at every depth. */
  lemma {:induction false} DefaultIff(tgt: Target, used: set<Loc>, c: nat, a: Arg, k: nat, t: Type)
    requires PointeesOk(tgt) && TypeOk(|tgt.pointees|, t) && ValidArg(tgt, a, t)
    requires forall j :: k <= j < k + NumResults(a) ==> Loc(c, j) !in used
    ensures IsDefault(used, c, a, k) <==> Everywhere(tgt, a)
  {
    if IsDefault(used, c, a, k) {
      DefaultIsDefaultArg(tgt, used, c, a, k, t);
      DefaultHolds(tgt, t);
    }
    if Everywhere(tgt, a) {
      Determined(tgt, a, t);
      DefaultArgIsDefault(tgt, used, c, k, t);
    }
  }

  // ----- text -----

  /** Members that the text of a struct or a call leaves out. */
  lemma {:induction false} FieldsLeftOut(tgt: Target, types: seq<Type>, close: char, st: State, s: string)
    requires TargetOk(tgt) && TypesOk(|tgt.pointees|, types) && s != "" && s[0] == close
    ensures var r := ParseItems(tgt, Fields(types), close, st, s);
      && r.Ok? && r.rest == SkipWs(s[1..]) && |r.v| == |types| && AllOver(tgt, r.v)
      && forall i :: 0 <= i < |types| ==> r.v[i].typ == types[i]
  {
    DefaultHoldsSeq(tgt, types);
  }

  /** Elements of an array of fixed length that its text leaves out. */
  lemma {:induction false} ElementsLeftOut(tgt: Target, elem: Type, n: nat, close: char, st: State, s: string)
    requires TargetOk(tgt) && ShapeOk(|tgt.pointees|, Exactly(elem, n)) && s != "" && s[0] == close
    ensures var r := ParseItems(tgt, Exactly(elem, n), close, st, s);
      && r.Ok? && r.rest == SkipWs(s[1..]) && |r.v| == n && AllOver(tgt, r.v)
      && forall i :: 0 <= i < n ==> r.v[i].typ == elem
  {
    DefaultHoldsRepeated(tgt, elem, n);
    DefaultHolds(tgt, elem);
  }

  /** An option or a pointee that the text leaves out. */
  lemma {:induction false} PartLeftOut(tgt: Target, t: Type, st: State, s: string)
    requires TargetOk(tgt) && TypeOk(|tgt.pointees|, t) && s != "" && s[0] != '='
    ensures var r := ParsePart(tgt, t, st, s); r.Ok? && r.rest == s && r.v.typ == t && Everywhere(tgt, r.v)
  {
    DefaultHolds(tgt, t);
  }

  /** A call whose text gives no arguments has those that the types of its parameters prescribe. */
  lemma {:induction false} ArgumentsLeftOut(tgt: Target, vars: map<string, Loc>, c: nat, meta: Syscall)
    requires TargetOk(tgt) && meta in tgt.syscalls
    ensures var r := ParseLine(tgt, vars, c, meta.name + "()");
      && r.Some? && r.value.vars == vars && r.value.call.meta == meta
      && |r.value.call.args| == |meta.args| && AllOver(tgt, r.value.call.args)
      && forall i :: 0 <= i < |meta.args| ==> r.value.call.args[i].typ == meta.args[i]
  {
    TextProgram.MetaOk(tgt, meta);
    TextProgram.LineReads(tgt, vars, c, false, 0, meta, "");
    NoText(meta.name);
    FieldsLeftOut(tgt, meta.args, ')', State(vars, c, 1), ")");
  }

  lemma {:induction false} NoText(name: string)
    ensures TextProgram.CallHead(false, 0) + (name + ("(" + ("" + ")"))) == name + "()" && "" + (")" + "") == ")"
  {
  }
}
