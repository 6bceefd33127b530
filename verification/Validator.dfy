/**
  validate as the source runs it (prog/validation.go:29-270): a context notes the results it has
  come by, and refuses references to others.  It accepts exactly the valid programs.

  On values uses are determined by references, so the checks of the two against each other are
  those of ArgGraph.
 */
module Validator {
  import opened Ir
  import opened Defaults
  import Cloning

  /** References go to results in `known`, or to ones of the tree itself no later than they are. */
  ghost predicate Seen(known: set<Loc>, a: Arg, c: nat, k: nat)
    decreases a, 1
  {
    match a
    case PointerArg(_, _, _, res) => res.Some? ==> Seen(known, res.value, c, k)
    case GroupArg(_, inner) => SeenSeq(known, inner, c, k)
    case UnionArg(_, option) => Seen(known, option, c, k)
    case ResultArg(_, ref, _, _, _) => ref.Some? ==> ref.value in known + {Loc(c, k)}
    case _ => true
  }

  ghost predicate SeenSeq(known: set<Loc>, args: seq<Arg>, c: nat, k: nat)
    decreases args, 0
  {
    args != [] ==>
      && Seen(known, args[0], c, k)
      && SeenSeq(known + Cloning.Block(c, k, NumResults(args[0])), args[1..], c, k + NumResults(args[0]))
  }

  /** validCtx. */
  class ValidCtx {
    const target: Target
    var args: set<Loc>

    constructor (target: Target)
      ensures this.target == target && args == {}
    {
      this.target, args := target, {};
    }

    /** What the method that notes `n` results from ordinal `k` of call `c` on leaves. */
    twostate predicate Noted(c: nat, k: nat, n: nat)
      reads this
    {
      args == old(args) + Cloning.Block(c, k, n)
    }

    /** validateArg. */
    method ValidateArg(a: Arg, typ: Type, c: nat, k: nat) returns (ok: bool)
      modifies this`args
      ensures ok <==> ValidArg(target, a, typ) && Seen(old(args), a, c, k)
      ensures ok ==> Noted(c, k, NumResults(a))
      decreases a, 2
    {
      assert Cloning.Block(c, k, 0) == {};
      if a.typ != typ {
        return false;
      }
      match a {
        case ConstArg(_, _) => ok := ValidateConst(a);
        case ResultArg(_, _, _, _, _) => ok := ValidateResult(a, c, k);
        case DataArg(_, _, _) => ok := ValidateData(a);
        case GroupArg(_, _) => ok := ValidateGroup(a, c, k);
        case UnionArg(_, _) => ok := ValidateUnion(a, c, k);
        case PointerArg(_, _, _, _) => ok := ValidatePointer(a, c, k);
      }
    }

    method ValidateConst(a: Arg) returns (ok: bool)
      requires a.ConstArg?
      ensures ok <==> ValidArg(target, a, a.typ)
    {
      var t := a.typ;
      match t {
        case IntT(_, _) =>
          if t.com.dir == DirOut && a.val != 0 {
            return false;
          }
        case ProcT(_, _, _, perProc) =>
          if a.val >= perProc && a.val != 0xffff_ffff_ffff_ffff {
            return false;
          }
        case CsumT(_, _, _, _, _) =>
          if a.val != 0 {
            return false;
          }
        case ConstT(_, _, _, _) =>
        case FlagsT(_, _) =>
        case LenT(_, _, _, _, _) =>
        case _ =>
          return false;
      }
      if t.com.dir == DirOut && !t.LenT? {
        var prescribed := if t.ConstT? then t.val else if t.ProcT? then 0xffff_ffff_ffff_ffff else 0;
        if a.val != prescribed {
          return false;
        }
      }
      ok := true;
    }

    method ValidateResult(a: Arg, c: nat, k: nat) returns (ok: bool)
      requires a.ResultArg?
      modifies this`args
      ensures ok <==> ValidArg(target, a, a.typ) && Seen(old(args), a, c, k)
      ensures ok ==> Noted(c, k, 1)
    {
      assert Cloning.Block(c, k, 1) == {Loc(c, k)};
      args := args + {Loc(c, k)};
      if !a.typ.ResourceT? {
        return false;
      }
      if a.typ.com.dir == DirOut && a.val != 0 && a.val != a.typ.default {
        return false;
      }
      ok := a.ref.None? || a.ref.value in args;
    }

    /** The last two lines are facts about how arguments can be built rather than checks. */
    method ValidateData(a: Arg) returns (ok: bool)
      requires a.DataArg?
      ensures ok <==> ValidArg(target, a, a.typ)
    {
      var t := a.typ;
      if !t.BufferT? || (t.com.dir == DirOut && |a.data| != 0) || (!t.com.varlen && t.com.size != Size(a)) {
        return false;
      }
      if t.kind == StringBuf && t.com.size != 0 && Size(a) != t.com.size {
        return false;
      }
      ok := (t.com.dir == DirOut || a.outSize == 0) && Size(a) < TWO64;
    }

    method ValidateGroup(a: Arg, c: nat, k: nat) returns (ok: bool)
      requires a.GroupArg?
      modifies this`args
      ensures ok <==> ValidArg(target, a, a.typ) && Seen(old(args), a, c, k)
      ensures ok ==> Noted(c, k, NumResults(a))
      decreases a, 1
    {
      match a.typ {
        case StructT(_, fields, _) =>
          FieldCount(target, a.inner, fields);
          if |a.inner| != |fields| {
            return false;
          }
          ok := ValidateFields(a.inner, fields, c, k);
        case ArrayT(_, elem, kind) =>
          ElemCount(target, a.inner, elem, kind);
          if kind.RangeLen? && kind.begin == kind.end && |a.inner| != kind.begin {
            return false;
          }
          ok := ValidateElems(a.inner, elem, c, k);
        case _ =>
          ok := false;
      }
    }

    method ValidateFields(xs: seq<Arg>, ts: seq<Type>, c: nat, k: nat) returns (ok: bool)
      requires |xs| == |ts|
      modifies this`args
      ensures ok <==> ValidSeq(target, xs, Fields(ts)) && SeenSeq(old(args), xs, c, k)
      ensures ok ==> Noted(c, k, NumResultsSeq(xs))
      decreases xs, 0
    {
      var i, k1 := 0, k;
      assert Cloning.Block(c, k, 0) == {};
      while i < |xs|
        invariant i <= |xs| && k1 >= k && k1 + NumResultsSeq(xs[i..]) == k + NumResultsSeq(xs)
        invariant ValidSeq(target, xs, Fields(ts)) <==> ValidSeq(target, xs[i..], Fields(ts[i..]))
        invariant SeenSeq(old(args), xs, c, k) <==> SeenSeq(args, xs[i..], c, k1)
        invariant Noted(c, k, k1 - k)
      {
        assert xs[i..][1..] == xs[i + 1..] && ts[i..][1..] == ts[i + 1..];
        var one := ValidateArg(xs[i], ts[i], c, k1);
        if !one {
          return false;
        }
        Blocks(c, k, k1 - k, NumResults(xs[i]));
        i, k1 := i + 1, k1 + NumResults(xs[i]);
      }
      ok := true;
    }

    method ValidateElems(xs: seq<Arg>, elem: Type, c: nat, k: nat) returns (ok: bool)
      modifies this`args
      ensures ok <==> ValidSeq(target, xs, Elems(elem)) && SeenSeq(old(args), xs, c, k)
      ensures ok ==> Noted(c, k, NumResultsSeq(xs))
      decreases xs, 0
    {
      var i, k1 := 0, k;
      assert Cloning.Block(c, k, 0) == {};
      while i < |xs|
        invariant i <= |xs| && k1 >= k && k1 + NumResultsSeq(xs[i..]) == k + NumResultsSeq(xs)
        invariant ValidSeq(target, xs, Elems(elem)) <==> ValidSeq(target, xs[i..], Elems(elem))
        invariant SeenSeq(old(args), xs, c, k) <==> SeenSeq(args, xs[i..], c, k1)
        invariant Noted(c, k, k1 - k)
      {
        assert xs[i..][1..] == xs[i + 1..];
        var one := ValidateArg(xs[i], elem, c, k1);
        if !one {
          return false;
        }
        Blocks(c, k, k1 - k, NumResults(xs[i]));
        i, k1 := i + 1, k1 + NumResults(xs[i]);
      }
      ok := true;
    }

    method ValidateUnion(a: Arg, c: nat, k: nat) returns (ok: bool)
      requires a.UnionArg?
      modifies this`args
      ensures ok <==> ValidArg(target, a, a.typ) && Seen(old(args), a, c, k)
      ensures ok ==> Noted(c, k, NumResults(a))
      decreases a, 1
    {
      if !a.typ.UnionT? {
        return false;
      }
      var options, i := a.typ.options, 0;
      while i < |options| && options[i].com.field != a.option.typ.com.field
        invariant i <= |options|
        invariant FindOption(options, a.option.typ.com.field) == FindOption(options[i..], a.option.typ.com.field)
      {
        assert options[i..][1..] == options[i + 1..];
        i := i + 1;
      }
      if i == |options| {
        return false;
      }
      ok := ValidateArg(a.option, options[i], c, k);
    }

    method ValidatePointer(a: Arg, c: nat, k: nat) returns (ok: bool)
      requires a.PointerArg?
      modifies this`args
      ensures ok <==> ValidArg(target, a, a.typ) && Seen(old(args), a, c, k)
      ensures ok ==> Noted(c, k, NumResults(a))
      decreases a, 1
    {
      assert Cloning.Block(c, k, 0) == {};
      match a.typ {
        case VmaT(_) =>
          if a.res.Some? {
            return false;
          }
        case PtrT(com, pointee) =>
          if pointee >= |target.pointees| {
            return false;
          }
          if a.res.Some? {
            ok := ValidateArg(a.res.value, target.pointees[pointee], c, k);
            if !ok {
              return;
            }
          }
          if a.vmaSize != 0 || com.dir == DirOut {
            return false;
          }
        case _ =>
          return false;
      }
      if IsSpecial(a) {
        return (TWO64 - a.address) % TWO64 < |target.special|;
      }
      var maxMem := target.numPages * target.pageSize;
      var size := a.vmaSize;
      if size == 0 && a.res.Some? {
        size := Size(a.res.value);
      }
      ok := !(a.address >= maxMem || (a.address + size) % TWO64 > maxMem);
    }

    /** validateCall. */
    method ValidateCall(call: Call, c: nat) returns (ok: bool)
      modifies this`args
      ensures ok <==> call.meta in target.syscalls && SeenSeq(old(args), call.args, c, 1) && ValidShape(target, call)
      ensures ok ==> args == old(args) + Cloning.Block(c, 1, NumResultsSeq(call.args)) +
                             if call.ret.Some? then {Loc(c, 0)} else {}
    {
      FieldCount(target, call.args, call.meta.args);
      if call.meta !in target.syscalls || |call.args| != |call.meta.args| {
        return false;
      }
      ok := ValidateFields(call.args, call.meta.args, c, 1);
      if !ok {
        return;
      }
      match call.meta.ret {
        case None =>
          ok := call.ret.None?;
        case Some(typ) =>
          if call.ret.None? {
            return false;
          }
          var ret := call.ret.value;
          if ret.typ.com.dir != DirOut || !ret.ResultArg? {
            return false;
          }
          if ret.ref.Some? || ret.val != 0 || ret.opDiv != 0 || ret.opAdd != 0 {
            return false;
          }
          ok := ValidateArg(ret, typ, c, 0);
          assert Cloning.Block(c, 0, 1) == {Loc(c, 0)};
      }
    }
  }

  /** A valid call, but for its references. */
  predicate ValidShape(tgt: Target, call: Call) {
    && ValidSeq(tgt, call.args, Fields(call.meta.args))
    && (call.meta.ret.None? ==> call.ret.None?)
    && (call.meta.ret.Some? ==> IsReturn(call.meta.ret.value) && call.ret == Some(ReturnArg(call.meta.ret.value)))
  }

  lemma {:induction false} Blocks(c: nat, k: nat, m: nat, n: nat)
    ensures Cloning.Block(c, k, m) + Cloning.Block(c, k + m, n) == Cloning.Block(c, k, m + n)
  {
    forall i | k <= i < k + m + n
      ensures Loc(c, i) in Cloning.Block(c, k, m) + Cloning.Block(c, k + m, n)
    {
    }
  }

  lemma {:induction false} FieldCount(tgt: Target, xs: seq<Arg>, ts: seq<Type>)
    ensures ValidSeq(tgt, xs, Fields(ts)) ==> |xs| == |ts|
    decreases xs
  {
    if xs != [] && ts != [] { FieldCount(tgt, xs[1..], ts[1..]); }
  }

  lemma {:induction false} ElemCount(tgt: Target, xs: seq<Arg>, elem: Type, kind: ArrayKind)
    ensures if kind.RangeLen? && kind.begin == kind.end
            then ValidSeq(tgt, xs, Exactly(elem, kind.begin)) <==> |xs| == kind.begin && ValidSeq(tgt, xs, Elems(elem))
            else true
  {
    if kind.RangeLen? && kind.begin == kind.end { ExactCount(tgt, xs, elem, kind.begin); }
  }

  lemma {:induction false} ExactCount(tgt: Target, xs: seq<Arg>, elem: Type, n: nat)
    ensures ValidSeq(tgt, xs, Exactly(elem, n)) <==> |xs| == n && ValidSeq(tgt, xs, Elems(elem))
    decreases xs
  {
    if xs != [] && n > 0 { ExactCount(tgt, xs[1..], elem, n - 1); }
  }

  // ----- the whole program -----

  /** `known` are the results of `p` that come before ordinal `k` of call `c`. */
  ghost predicate KnownAre(p: Program, known: set<Loc>, c: nat, k: nat) {
    forall l :: l in known <==> Exists(p, l) && Before(l, c, k)
  }

  ghost predicate AllExist(p: Program, ls: set<Loc>) {
    forall l :: l in ls ==> Exists(p, l)
  }

  lemma {:induction false} SeenIs(p: Program, known: set<Loc>, a: Arg, c: nat, k: nat)
    requires KnownAre(p, known, c, k) && k >= 1 && forall i :: k <= i < k + NumResults(a) ==> Exists(p, Loc(c, i))
    ensures Seen(known, a, c, k) <==> LinksOk(a, c, k) && AllExist(p, Refs(a))
    decreases a, 1
  {
    match a
    case PointerArg(_, _, _, res) => if res.Some? { SeenIs(p, known, res.value, c, k); }
    case GroupArg(_, inner) => SeenIsSeq(p, known, inner, c, k);
    case UnionArg(_, option) => SeenIs(p, known, option, c, k);
    case _ =>
  }

  lemma {:induction false} SeenIsSeq(p: Program, known: set<Loc>, args: seq<Arg>, c: nat, k: nat)
    requires KnownAre(p, known, c, k) && k >= 1
    requires forall i :: k <= i < k + NumResultsSeq(args) ==> Exists(p, Loc(c, i))
    ensures SeenSeq(known, args, c, k) <==> LinksOkSeq(args, c, k) && AllExist(p, RefsSeq(args))
    decreases args, 0
  {
    if args != [] {
      var n := NumResults(args[0]);
      SeenIs(p, known, args[0], c, k);
      SeenIsSeq(p, known + Cloning.Block(c, k, n), args[1..], c, k + n);
    }
  }

  /** validate.  It accepts exactly the valid programs. */
  method Validate(tgt: Target, p: Program) returns (ok: bool)
    ensures ok <==> ValidProg(tgt, p)
  {
    var ctx := new ValidCtx(tgt);
    for c := 0 to |p|
      invariant ctx.target == tgt && KnownAre(p, ctx.args, c, 1)
      invariant forall d :: 0 <= d < c ==> ValidCall(tgt, p[d], d) && AllExist(p, RefsSeq(p[d].args))
    {
      SeenIsSeq(p, ctx.args, p[c].args, c, 1);
      var one := ctx.ValidateCall(p[c], c);
      if !one {
        Cloning.RefsOfCall(p, c);
        return false;
      }
    }
    RefsAre(p, p, 0);
    ok := true;
  }

  lemma {:induction false} RefsAre(q: Program, p: Program, c: nat)
    requires c <= |p| && forall d :: c <= d < |p| ==> AllExist(q, RefsSeq(p[d].args))
    ensures AllExist(q, RefsProg(p[c..]))
    decreases |p| - c
  {
    if c < |p| {
      RefsAre(q, p, c + 1);
      assert p[c..][1..] == p[c + 1..];
    }
  }
}
