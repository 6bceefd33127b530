/**
  What removeCall and removeArg leave of a program (prog/prog.go:364-395).

  Calls, arguments and lengths are those of before.  Results whose referent is gone are defaults;
  the others refer to the same results, wherever these stand now.
 */
module Removal {
  import opened Ir
  import opened Defaults
  import opened Sizes
  import opened ArgEdit
  import opened Cloning

  /** The tree without what its results hold. */
  function Skeleton(a: Arg): (r: Arg)
    decreases a, 1
  {
    match a
    case PointerArg(t, address, vmaSize, res) =>
      if res.Some? then PointerArg(t, address, vmaSize, Some(Skeleton(res.value))) else a
    case UnionArg(t, option) => UnionArg(t, Skeleton(option))
    case GroupArg(t, inner) => GroupArg(t, SkeletonSeq(inner))
    case ResultArg(t, _, _, _, _) => ResultArg(t, None, 0, 0, 0)
    case _ => a
  }

  function SkeletonSeq(args: seq<Arg>): seq<Arg>
    decreases args, 0
  {
    if args == [] then [] else [Skeleton(args[0])] + SkeletonSeq(args[1..])
  }

  /** The result was `x`, and refers to `ref` now. */
  predicate Refers(x: Arg, y: Arg, ref: Option<Loc>) {
    x.ResultArg? && y == ResultArg(x.typ, ref, x.opDiv, x.opAdd, x.val)
  }

  /** The default of the type of `x`: it refers to nothing and holds what an unset resource holds. */
  predicate IsUnset(x: Arg, y: Arg) {
    y.ResultArg? && y.typ == x.typ && y.ref.None? && y.opDiv == 0 && y.opAdd == 0 &&
    (x.typ.ResourceT? ==> y.val == x.typ.default)
  }

  lemma {:induction false} UnsetIsDefault(tgt: Target, x: Arg, y: Arg)
    requires PointeesOk(tgt) && IsUnset(x, y) && x.typ.ResourceT?
    ensures y == DefaultArg(tgt, x.typ)
  {
  }

  lemma {:induction false} MappedSkeleton(f: Loc -> Option<Loc>, a: Arg)
    ensures Skeleton(MapRefs(f, a)) == Skeleton(a)
    decreases a, 1
  {
    match a
    case PointerArg(_, _, _, res) => if res.Some? { MappedSkeleton(f, res.value); }
    case UnionArg(_, option) => MappedSkeleton(f, option);
    case GroupArg(_, inner) => MappedSkeletonSeq(f, inner);
    case _ =>
  }

  lemma {:induction false} MappedSkeletonSeq(f: Loc -> Option<Loc>, args: seq<Arg>)
    ensures SkeletonSeq(MapRefsSeq(f, args)) == SkeletonSeq(args)
    decreases args, 0
  {
    if args != [] {
      MappedSkeleton(f, args[0]);
      MappedSkeletonSeq(f, args[1..]);
      assert MapRefsSeq(f, args)[1..] == MapRefsSeq(f, args[1..]);
    }
  }

  lemma {:induction false} MappedResult(f: Loc -> Option<Loc>, x: Arg)
    requires x.ResultArg?
    ensures x.ref.None? ==> MapRefs(f, x) == x
    ensures x.ref.Some? && f(x.ref.value).Some? ==> Refers(x, MapRefs(f, x), f(x.ref.value))
    ensures x.ref.Some? && f(x.ref.value).None? ==> IsUnset(x, MapRefs(f, x))
  {
  }

  /** The results of the other calls after removeCall. */
  lemma {:induction false} RemoveCallResults(p: Program, c: nat, d: nat, j: nat)
    requires c < |p| && d < |p| - 1 && j < |ResultsSeq(p[if d < c then d else d + 1].args)|
    ensures |ResultsSeq(RemoveCall(p, c)[d].args)| == |ResultsSeq(p[if d < c then d else d + 1].args)|
    ensures
      var x, y := ResultsSeq(p[if d < c then d else d + 1].args)[j], ResultsSeq(RemoveCall(p, c)[d].args)[j];
      x.ResultArg? &&
      match x.ref
      case None => y == x
      case Some(l) =>
        if l.call == c then IsUnset(x, y)
        else Refers(x, y, Some(Loc(if l.call < c then l.call else l.call - 1, l.idx)))
  {
    var f, e := WithoutCall(c), if d < c then d else d + 1;
    assert RemoveCall(p, c)[d] == MapCall(f, p[e]);
    MappedResultsSeq(f, p[e].args);
    ResultsAre(p[e].args, j);
    MappedResult(f, ResultsSeq(p[e].args)[j]);
  }

  /** Nothing else changes. */
  lemma {:induction false} RemoveCallKeeps(p: Program, c: nat, d: nat)
    requires c < |p| && d < |p| - 1
    ensures var q, e := RemoveCall(p, c), if d < c then d else d + 1;
      q[d].meta == p[e].meta && q[d].ret == p[e].ret && SkeletonSeq(q[d].args) == SkeletonSeq(p[e].args)
  {
    var f, e := WithoutCall(c), if d < c then d else d + 1;
    assert RemoveCall(p, c)[d] == MapCall(f, p[e]);
    MappedSkeletonSeq(f, p[e].args);
  }

  /** The results after a rewrite that takes out those in `mid`: result `i` of call `d` stood at `j`. */
  lemma {:induction false} RewriteResults(p: Program, c: nat, pos: Pos, b: Arg, pre: seq<Arg>, mid: seq<Arg>,
      post: seq<Arg>, d: nat, i: nat)
    requires c < |p| && Has(p[c].args, pos) && TakesOut(p, c, Put(p[c].args, pos, b), pre, mid, post) && d < |p|
    requires i < |ResultsSeq(Rewrite(p, c, pos, b, |pre|, |mid|)[d].args)|
    ensures
      var j := if d == c && i >= |pre| then i + |mid| else i;
      && j < |ResultsSeq(p[d].args)|
      && var x, y := ResultsSeq(p[d].args)[j], ResultsSeq(Rewrite(p, c, pos, b, |pre|, |mid|)[d].args)[i];
         && x.ResultArg?
         && match x.ref
            case None => y == x
            case Some(l) =>
              if l.call == c && |pre| < l.idx <= |pre| + |mid| then IsUnset(x, y)
              else Refers(x, y, Some(Loc(l.call, if l.call == c && l.idx > |pre| then l.idx - |mid| else l.idx)))
  {
    var q := Without(p, c, Put(p[c].args, pos, b), |pre|, |mid|);
    SizedResults(q, c);
    WithoutResult(p, c, Put(p[c].args, pos, b), pre, mid, post, d, i);
    var j := Stood(c, |pre|, |mid|, d, i);
    ResultsAre(p[d].args, j);
    MappedResult(WithoutResults(c, |pre| + 1, |mid|), ResultsSeq(p[d].args)[j]);
  }

  lemma {:induction false} SizedResults(q: Program, c: nat)
    requires c < |q|
    ensures ResultsSeq(AssignSizes(q[c].args)) == ResultsSeq(q[c].args)
  {
    AssignKeepsOutline(q[c].args);
    SameResults(q[c].args, AssignSizes(q[c].args));
  }

  /** The other calls keep everything else, and the call itself has the new argument and its sizes. */
  lemma {:induction false} RewriteKeeps(p: Program, c: nat, pos: Pos, b: Arg, at: nat, gone: nat, d: nat)
    requires c < |p| && Has(p[c].args, pos) && d < |p|
    ensures var q := Rewrite(p, c, pos, b, at, gone);
      && q[d].meta == p[d].meta && q[d].ret == p[d].ret
      && (d != c ==> SkeletonSeq(q[d].args) == SkeletonSeq(p[d].args))
      && AssignSizes(q[c].args) == q[c].args
      && SkeletonSeq(OutlineSeq(q[c].args)) == SkeletonSeq(OutlineSeq(Put(p[c].args, pos, b)))
  {
    var f := WithoutResults(c, at + 1, gone);
    var p1 := p[c := p[c].(args := Put(p[c].args, pos, b))];
    var q1 := MapProg(f, p1);
    assert q1[d] == MapCall(f, p1[d]) && q1[c] == MapCall(f, p1[c]);
    MappedSkeletonSeq(f, p1[d].args);
    MappedOutlineSeq(f, p1[c].args);
    MappedSkeletonSeq(f, OutlineSeq(p1[c].args));
    AssignKeepsOutline(q1[c].args);
    AssignIdempotent(q1[c].args);
  }

  lemma {:induction false} MappedOutline(f: Loc -> Option<Loc>, a: Arg)
    ensures Outline(MapRefs(f, a)) == MapRefs(f, Outline(a))
    decreases a, 1
  {
    match a
    case PointerArg(_, _, _, res) => if res.Some? { MappedOutline(f, res.value); }
    case UnionArg(_, option) => MappedOutline(f, option);
    case GroupArg(_, inner) => MappedOutlineSeq(f, inner);
    case _ =>
  }

  lemma {:induction false} MappedOutlineSeq(f: Loc -> Option<Loc>, args: seq<Arg>)
    ensures OutlineSeq(MapRefsSeq(f, args)) == MapRefsSeq(f, OutlineSeq(args))
    decreases args, 0
  {
    if args != [] {
      MappedOutline(f, args[0]);
      MappedOutlineSeq(f, args[1..]);
      assert MapRefsSeq(f, args)[1..] == MapRefsSeq(f, args[1..]);
      assert OutlineSeq(args)[1..] == OutlineSeq(args[1..]);
    }
  }
}
