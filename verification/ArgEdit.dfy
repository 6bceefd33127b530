/**
  Editing programs as values: positions in argument trees, replacing and removing subtrees, and
  what removal does to references (removeArg and removeCall, prog/prog.go:364-395).

  A result argument is known by its place, so when results disappear the references to later
  ones are renumbered; references to the removed ones become defaults.
 */
module ArgEdit {
  import opened Ir
  import opened Defaults
  import opened Sizes

  /** A position: which argument, then which child, and so on. */
  type Pos = seq<nat>

  function Kids(a: Arg): seq<Arg> {
    match a
    case PointerArg(_, _, _, res) => if res.Some? then [res.value] else []
    case UnionArg(_, option) => [option]
    case GroupArg(_, inner) => inner
    case _ => []
  }

  function WithKids(a: Arg, kids: seq<Arg>): Arg
    requires |kids| == |Kids(a)|
  {
    match a
    case PointerArg(t, address, vmaSize, res) => if res.Some? then PointerArg(t, address, vmaSize, Some(kids[0])) else a
    case UnionArg(t, _) => UnionArg(t, kids[0])
    case GroupArg(t, _) => GroupArg(t, kids)
    case _ => a
  }

  predicate Has(args: seq<Arg>, pos: Pos)
    decreases |pos|
  {
    pos != [] && pos[0] < |args| && (|pos| > 1 ==> Has(Kids(args[pos[0]]), pos[1..]))
  }

  function At(args: seq<Arg>, pos: Pos): Arg
    requires Has(args, pos)
    decreases |pos|
  {
    if |pos| == 1 then args[pos[0]] else At(Kids(args[pos[0]]), pos[1..])
  }

  function Put(args: seq<Arg>, pos: Pos, b: Arg): (r: seq<Arg>)
    requires Has(args, pos)
    ensures |r| == |args|
    decreases |pos|
  {
    var a := args[pos[0]];
    args[pos[0] := if |pos| == 1 then b else WithKids(a, Put(Kids(a), pos[1..], b))]
  }

  /** Number of result arguments before a position. */
  function ResultsBefore(args: seq<Arg>, pos: Pos): nat
    requires Has(args, pos)
    decreases |pos|
  {
    NumResultsSeq(args[..pos[0]]) + if |pos| == 1 then 0 else ResultsBefore(Kids(args[pos[0]]), pos[1..])
  }

  // ----- references -----

  /** References after an edit: `f` gives the new place of a referent, None if it is gone. */
  function MapRefs(f: Loc -> Option<Loc>, a: Arg): (r: Arg)
    ensures r.typ == a.typ
    decreases a, 1
  {
    match a
    case PointerArg(t, address, vmaSize, res) =>
      if res.Some? then PointerArg(t, address, vmaSize, Some(MapRefs(f, res.value))) else a
    case UnionArg(t, option) => UnionArg(t, MapRefs(f, option))
    case GroupArg(t, inner) => GroupArg(t, MapRefsSeq(f, inner))
    case ResultArg(t, ref, opDiv, opAdd, val) =>
      if ref.None? then a
      else if f(ref.value).Some? then ResultArg(t, f(ref.value), opDiv, opAdd, val)
      else ResultArg(t, None, 0, 0, if t.ResourceT? then t.default else 0)
    case _ => a
  }

  function MapRefsSeq(f: Loc -> Option<Loc>, args: seq<Arg>): (r: seq<Arg>)
    ensures |r| == |args|
    decreases args, 0
  {
    if args == [] then [] else [MapRefs(f, args[0])] + MapRefsSeq(f, args[1..])
  }

  function MapCall(f: Loc -> Option<Loc>, call: Call): Call {
    call.(args := MapRefsSeq(f, call.args))
  }

  function MapProg(f: Loc -> Option<Loc>, p: Program): (r: Program)
    ensures |r| == |p|
    ensures forall i :: 0 <= i < |p| ==> r[i] == MapCall(f, p[i])
  {
    if p == [] then [] else [MapCall(f, p[0])] + MapProg(f, p[1..])
  }

  /** `n` results of call `c` from ordinal `lo` on are gone. */
  function WithoutResults(c: nat, lo: nat, n: nat): Loc -> Option<Loc> {
    (l: Loc) =>
      if l.call != c || l.idx < lo then Some(l)
      else if l.idx < lo + n then None
      else Some(Loc(c, l.idx - n))
  }

  function WithoutCall(c: nat): Loc -> Option<Loc> {
    (l: Loc) => if l.call == c then None else if l.call > c then Some(Loc(l.call - 1, l.idx)) else Some(l)
  }

  /** removeCall. */
  function RemoveCall(p: Program, c: nat): (r: Program)
    requires c < |p|
    ensures |r| == |p| - 1
    ensures forall i :: 0 <= i < |r| ==> r[i].meta == p[if i < c then i else i + 1].meta
  {
    MapProg(WithoutCall(c), p[..c] + p[c + 1..])
  }

  /** Replaces the argument at `pos` of call `c`, which loses the results of the subtree `gone`
      that stood at `at`, and assigns the sizes of the call. */
  function Rewrite(p: Program, c: nat, pos: Pos, b: Arg, at: nat, gone: nat): (r: Program)
    requires c < |p| && Has(p[c].args, pos)
    ensures |r| == |p|
  {
    var q := MapProg(WithoutResults(c, at + 1, gone), p[c := p[c].(args := Put(p[c].args, pos, b))]);
    q[c := q[c].(args := AssignSizes(q[c].args))]
  }

  // ----- weight -----

  /** What minimization reduces: nodes, data bytes, integers that are not default, references. */
  function Weight(a: Arg): nat
    decreases a, 1
  {
    match a
    case ConstArg(t, val) => if (t.IntT? || t.FlagsT? || t.ProcT?) && val != DefaultVal(t) then 2 else 1
    case DataArg(_, data, _) => 1 + |data|
    case PointerArg(_, _, _, res) => 1 + if res.Some? then Weight(res.value) else 0
    case UnionArg(_, option) => 1 + Weight(option)
    case GroupArg(_, inner) => 1 + WeightSeq(inner)
    case ResultArg(_, ref, _, _, _) => if ref.Some? then 2 else 1
  }

  function WeightSeq(args: seq<Arg>): nat
    decreases args, 0
  {
    if args == [] then 0 else Weight(args[0]) + WeightSeq(args[1..])
  }

  function WeightProg(p: Program): nat {
    if p == [] then 0 else WeightSeq(p[0].args) + WeightProg(p[1..])
  }

  lemma {:induction false} WeightKids(a: Arg)
    ensures WeightSeq(Kids(a)) <= Weight(a)
    ensures forall kids :: |kids| == |Kids(a)| ==>
        Weight(WithKids(a, kids)) == Weight(a) - WeightSeq(Kids(a)) + WeightSeq(kids)
  {
    forall kids: seq<Arg> | |kids| == |Kids(a)|
      ensures Weight(WithKids(a, kids)) == Weight(a) - WeightSeq(Kids(a)) + WeightSeq(kids)
    {
      match a
      case PointerArg(_, _, _, res) => if res.Some? { One(kids); One(Kids(a)); }
      case UnionArg(_, option) => One(kids); One(Kids(a));
      case _ =>
    }
    match a
    case PointerArg(_, _, _, res) => if res.Some? { One(Kids(a)); }
    case UnionArg(_, option) => One(Kids(a));
    case _ =>
  }

  lemma {:induction false} One(args: seq<Arg>)
    requires |args| == 1
    ensures WeightSeq(args) == Weight(args[0])
  {
    assert args[1..] == [];
    assert WeightSeq([]) == 0;
  }

  lemma {:induction false} WeightSet(args: seq<Arg>, i: nat, b: Arg)
    requires i < |args|
    ensures WeightSeq(args[i := b]) == WeightSeq(args) - Weight(args[i]) + Weight(b)
  {
    if i == 0 {
      assert args[i := b][1..] == args[1..];
    } else {
      assert args[i := b][1..] == args[1..][i - 1 := b];
      WeightSet(args[1..], i - 1, b);
    }
  }

  lemma {:induction false} WeightPut(args: seq<Arg>, pos: Pos, b: Arg)
    requires Has(args, pos)
    ensures WeightSeq(Put(args, pos, b)) == WeightSeq(args) - Weight(At(args, pos)) + Weight(b)
    decreases |pos|
  {
    var a := args[pos[0]];
    if |pos| > 1 {
      WeightPut(Kids(a), pos[1..], b);
      WeightKids(a);
      WeightSet(args, pos[0], WithKids(a, Put(Kids(a), pos[1..], b)));
    } else {
      WeightSet(args, pos[0], b);
    }
  }

  lemma {:induction false} WeightDrop(args: seq<Arg>, i: nat)
    requires i < |args|
    ensures WeightSeq(args[..i] + args[i + 1..]) == WeightSeq(args) - Weight(args[i])
  {
    if i == 0 {
      assert args[..0] + args[1..] == args[1..];
    } else {
      var rest := args[..i] + args[i + 1..];
      assert rest[0] == args[0] && rest[1..] == args[1..][..i - 1] + args[1..][i..];
      WeightDrop(args[1..], i - 1);
    }
  }

  lemma {:induction false} WeightMapped(f: Loc -> Option<Loc>, a: Arg)
    ensures Weight(MapRefs(f, a)) <= Weight(a)
    decreases a, 1
  {
    match a
    case PointerArg(_, _, _, res) => if res.Some? { WeightMapped(f, res.value); }
    case UnionArg(_, option) => WeightMapped(f, option);
    case GroupArg(_, inner) => WeightMappedSeq(f, inner);
    case _ =>
  }

  lemma {:induction false} WeightMappedSeq(f: Loc -> Option<Loc>, args: seq<Arg>)
    ensures WeightSeq(MapRefsSeq(f, args)) <= WeightSeq(args)
    decreases args, 0
  {
    if args != [] {
      WeightMapped(f, args[0]);
      WeightMappedSeq(f, args[1..]);
      assert MapRefsSeq(f, args)[1..] == MapRefsSeq(f, args[1..]);
    }
  }

  lemma {:induction false} WeightMappedProg(f: Loc -> Option<Loc>, p: Program)
    ensures WeightProg(MapProg(f, p)) <= WeightProg(p)
  {
    if p != [] {
      WeightMappedSeq(f, p[0].args);
      WeightMappedProg(f, p[1..]);
      assert MapProg(f, p)[1..] == MapProg(f, p[1..]);
    }
  }

  lemma {:induction false} WeightCall(p: Program, c: nat, call: Call)
    requires c < |p|
    ensures WeightProg(p[c := call]) == WeightProg(p) - WeightSeq(p[c].args) + WeightSeq(call.args)
  {
    if c == 0 {
      assert p[c := call][1..] == p[1..];
    } else {
      assert p[c := call][1..] == p[1..][c - 1 := call];
      WeightCall(p[1..], c - 1, call);
    }
  }

  lemma {:induction false} WeightOutline(a: Arg)
    ensures Weight(Outline(a)) == Weight(a)
    decreases a, 1
  {
    match a
    case PointerArg(_, _, _, res) => if res.Some? { WeightOutline(res.value); }
    case UnionArg(_, option) => WeightOutline(option);
    case GroupArg(_, inner) => WeightOutlineSeq(inner);
    case _ =>
  }

  lemma {:induction false} WeightOutlineSeq(args: seq<Arg>)
    ensures WeightSeq(OutlineSeq(args)) == WeightSeq(args)
    decreases args, 0
  {
    if args != [] {
      WeightOutline(args[0]);
      WeightOutlineSeq(args[1..]);
      assert OutlineSeq(args)[1..] == OutlineSeq(args[1..]);
    }
  }

  /** Arguments of the same shape weigh the same. */
  lemma {:induction false} SameWeight(x: seq<Arg>, y: seq<Arg>)
    requires OutlineSeq(x) == OutlineSeq(y)
    ensures WeightSeq(x) == WeightSeq(y)
  {
    WeightOutlineSeq(x);
    WeightOutlineSeq(y);
  }

  /** A rewrite loses at least the weight it takes from the argument. */
  lemma {:induction false} RewriteWeight(p: Program, c: nat, pos: Pos, b: Arg, at: nat, gone: nat)
    requires c < |p| && Has(p[c].args, pos)
    ensures WeightProg(Rewrite(p, c, pos, b, at, gone)) <= WeightProg(p) - Weight(At(p[c].args, pos)) + Weight(b)
  {
    var f := WithoutResults(c, at + 1, gone);
    var p1 := p[c := p[c].(args := Put(p[c].args, pos, b))];
    var q := MapProg(f, p1);
    WeightPut(p[c].args, pos, b);
    WeightCall(p, c, p[c].(args := Put(p[c].args, pos, b)));
    WeightMappedProg(f, p1);
    AssignKeepsOutline(q[c].args);
    SameWeight(q[c].args, AssignSizes(q[c].args));
    WeightCall(q, c, q[c].(args := AssignSizes(q[c].args)));
  }

  // ----- positions and shapes -----

  lemma {:induction false} KidsOutline(a: Arg)
    ensures Kids(Outline(a)) == OutlineSeq(Kids(a))
  {
    match a
    case PointerArg(_, _, _, res) => if res.Some? { assert OutlineSeq([res.value]) == [Outline(res.value)]; }
    case UnionArg(_, option) => assert OutlineSeq([option]) == [Outline(option)];
    case _ =>
  }

  lemma {:induction false} AtOutline(args: seq<Arg>, pos: Pos)
    ensures Has(OutlineSeq(args), pos) <==> Has(args, pos)
    ensures Has(args, pos) ==> At(OutlineSeq(args), pos) == Outline(At(args, pos))
    decreases |pos|
  {
    if pos != [] && pos[0] < |args| && |pos| > 1 {
      KidsOutline(args[pos[0]]);
      AtOutline(Kids(args[pos[0]]), pos[1..]);
    }
  }

  lemma {:induction false} PutPut(args: seq<Arg>, pos: Pos, b: Arg, d: Arg)
    requires Has(args, pos)
    ensures Has(Put(args, pos, b), pos) && At(Put(args, pos, b), pos) == b
    ensures Put(Put(args, pos, b), pos, d) == Put(args, pos, d)
    decreases |pos|
  {
    if |pos| > 1 {
      var a := args[pos[0]];
      PutPut(Kids(a), pos[1..], b, d);
      KidsWith(a, Put(Kids(a), pos[1..], b));
      assert Put(args, pos, b)[pos[0]] == WithKids(a, Put(Kids(a), pos[1..], b));
    }
  }

  lemma {:induction false} KidsWith(a: Arg, kids: seq<Arg>)
    requires |kids| == |Kids(a)|
    ensures Kids(WithKids(a, kids)) == kids
    ensures forall k2 :: |k2| == |kids| ==> WithKids(WithKids(a, kids), k2) == WithKids(a, k2)
  {
  }

  lemma {:induction false} PutSame(args: seq<Arg>, pos: Pos)
    requires Has(args, pos)
    ensures Put(args, pos, At(args, pos)) == args
    decreases |pos|
  {
    if |pos| > 1 {
      var a := args[pos[0]];
      PutSame(Kids(a), pos[1..]);
      assert WithKids(a, Kids(a)) == a;
    }
  }

  /** A position below another. */
  lemma {:induction false} AtKid(args: seq<Arg>, pos: Pos, k: nat)
    requires Has(args, pos) && k < |Kids(At(args, pos))|
    ensures Has(args, pos + [k]) && At(args, pos + [k]) == Kids(At(args, pos))[k]
    decreases |pos|
  {
    var next := pos + [k];
    assert next[0] == pos[0];
    if |pos| == 1 {
      assert next[1..] == [k];
    } else {
      assert next[1..] == pos[1..] + [k];
      AtKid(Kids(args[pos[0]]), pos[1..], k);
    }
  }

  // ----- references keep their referents -----

  /** The result arguments of a tree in order: the one at ordinal `k` of a call is entry `k - 1`. */
  function Results(a: Arg): seq<Arg>
    decreases a, 1
  {
    match a
    case PointerArg(_, _, _, res) => if res.Some? then Results(res.value) else []
    case UnionArg(_, option) => Results(option)
    case GroupArg(_, inner) => ResultsSeq(inner)
    case ResultArg(_, _, _, _, _) => [a]
    case _ => []
  }

  function ResultsSeq(args: seq<Arg>): seq<Arg>
    decreases args, 0
  {
    if args == [] then [] else Results(args[0]) + ResultsSeq(args[1..])
  }

  lemma {:induction false} ResultsCount(a: Arg)
    ensures |Results(a)| == NumResults(a)
    decreases a, 1
  {
    match a
    case PointerArg(_, _, _, res) => if res.Some? { ResultsCount(res.value); }
    case UnionArg(_, option) => ResultsCount(option);
    case GroupArg(_, inner) => ResultsCountSeq(inner);
    case _ =>
  }

  lemma {:induction false} ResultsCountSeq(args: seq<Arg>)
    ensures |ResultsSeq(args)| == NumResultsSeq(args)
    decreases args, 0
  {
    if args != [] {
      ResultsCount(args[0]);
      ResultsCountSeq(args[1..]);
    }
  }

  lemma {:induction false} ResultsJoin(a: seq<Arg>, b: seq<Arg>)
    ensures ResultsSeq(a + b) == ResultsSeq(a) + ResultsSeq(b)
    decreases a
  {
    if a == [] {
      assert a + b == b;
    } else {
      assert (a + b)[1..] == a[1..] + b;
      ResultsJoin(a[1..], b);
    }
  }

  lemma {:induction false} ResultsKids(a: Arg)
    requires Kids(a) != []
    ensures Results(a) == ResultsSeq(Kids(a))
    ensures forall kids :: |kids| == |Kids(a)| ==> Results(WithKids(a, kids)) == ResultsSeq(kids)
  {
    forall kids: seq<Arg> | |kids| == |Kids(a)| ensures Results(WithKids(a, kids)) == ResultsSeq(kids) {
      if !a.GroupArg? { assert kids[1..] == [] && Results(kids[0]) + [] == Results(kids[0]); }
    }
    assert WithKids(a, Kids(a)) == a;
  }

  /** Around one member. */
  lemma {:induction false} ResultsAround(args: seq<Arg>, i: nat, b: Arg)
    requires i < |args|
    ensures ResultsSeq(args[i := b]) == ResultsSeq(args[..i]) + (Results(b) + ResultsSeq(args[i + 1..]))
  {
    assert args[i := b] == args[..i] + ([b] + args[i + 1..]);
    ResultsJoin(args[..i], [b] + args[i + 1..]);
    assert ([b] + args[i + 1..])[1..] == args[i + 1..];
  }

  /** Replacing a subtree replaces its results, where they stand, and no others: `pre` and `post`
      are the results before and after it. */
  lemma {:induction false} ResultsPut(args: seq<Arg>, pos: Pos, b: Arg) returns (pre: seq<Arg>, post: seq<Arg>)
    requires Has(args, pos)
    ensures |pre| == ResultsBefore(args, pos)
    ensures ResultsSeq(args) == pre + (Results(At(args, pos)) + post)
    ensures ResultsSeq(Put(args, pos, b)) == pre + (Results(b) + post)
    decreases |pos|
  {
    var i, a := pos[0], args[pos[0]];
    assert args[i := a] == args;
    ResultsAround(args, i, a);
    ResultsCountSeq(args[..i]);
    pre, post := ResultsSeq(args[..i]), ResultsSeq(args[i + 1..]);
    if |pos| == 1 {
      ResultsAround(args, i, b);
    } else {
      var x, y := ResultsPut(Kids(a), pos[1..], b);
      var kids := Put(Kids(a), pos[1..], b);
      ResultsKids(a);
      ResultsAround(args, i, WithKids(a, kids));
      Nest(pre, x, Results(At(args, pos)), y, post);
      Nest(pre, x, Results(b), y, post);
      pre, post := pre + x, y + post;
    }
  }

  lemma {:induction false} Nest(a: seq<Arg>, b: seq<Arg>, c: seq<Arg>, d: seq<Arg>, e: seq<Arg>)
    ensures a + ((b + (c + d)) + e) == (a + b) + (c + (d + e))
  {
  }

  /** Where a referent stands after the results of a subtree are gone: the renumbered reference
      leads to the same result argument. */
  lemma {:induction false} RenumberedReferent(args: seq<Arg>, pos: Pos, b: Arg, c: nat, j: nat)
    requires Has(args, pos) && NumResults(b) == 0 && j < NumResultsSeq(args)
    ensures var at, n := ResultsBefore(args, pos), NumResults(At(args, pos));
      var l := WithoutResults(c, at + 1, n)(Loc(c, j + 1));
      && (l.None? <==> at <= j < at + n)
      && (l.Some? ==>
            && l.value.call == c && 1 <= l.value.idx <= |ResultsSeq(Put(args, pos, b))| && j < |ResultsSeq(args)|
            && ResultsSeq(Put(args, pos, b))[l.value.idx - 1] == ResultsSeq(args)[j])
  {
    ResultsCountSeq(args);
    var at, n := ResultsBefore(args, pos), NumResults(At(args, pos));
    RemovedAt(args, pos, b, j);
    assert WithoutResults(c, at + 1, n)(Loc(c, j + 1)) ==
           if j < at then Some(Loc(c, j + 1)) else if j < at + n then None else Some(Loc(c, j + 1 - n));
  }

  lemma {:induction false} RemovedAt(args: seq<Arg>, pos: Pos, b: Arg, j: nat)
    requires Has(args, pos) && NumResults(b) == 0 && j < |ResultsSeq(args)|
    ensures var r, out := ResultsSeq(args), ResultsSeq(Put(args, pos, b));
      var at, n := ResultsBefore(args, pos), NumResults(At(args, pos));
      |out| == |r| - n && at + n <= |r| && (j < at ==> out[j] == r[j]) && (j >= at + n ==> out[j - n] == r[j])
  {
    var pre, post := ResultsPut(args, pos, b);
    ResultsCount(b);
    ResultsCount(At(args, pos));
    TakenOut(pre, Results(At(args, pos)), Results(b), post, j);
  }

  lemma {:induction false} TakenOut(pre: seq<Arg>, sub: seq<Arg>, none: seq<Arg>, post: seq<Arg>, j: nat)
    requires |none| == 0 && j < |pre + (sub + post)|
    ensures var r, out := pre + (sub + post), pre + (none + post);
      |out| == |r| - |sub| && (j < |pre| ==> out[j] == r[j]) && (j >= |pre| + |sub| ==> out[j - |sub|] == r[j])
  {
  }

  /** The same for the removal of an element of an array. */
  lemma {:induction false} RemovedElement(args: seq<Arg>, pos: Pos, k: nat) returns (pre: seq<Arg>, post: seq<Arg>)
    requires Has(args, pos) && At(args, pos).GroupArg? && k < |At(args, pos).inner|
    ensures var a := At(args, pos);
      var less := GroupArg(a.typ, a.inner[..k] + a.inner[k + 1..]);
      && Has(args, pos + [k]) && |pre| == ResultsBefore(args, pos + [k])
      && ResultsSeq(args) == pre + (Results(a.inner[k]) + post)
      && ResultsSeq(Put(args, pos, less)) == pre + post
  {
    var inner := At(args, pos).inner;
    var less := GroupArg(At(args, pos).typ, inner[..k] + inner[k + 1..]);
    AtKid(args, pos, k);
    BeforeKid(args, pos, k);
    pre, post := ResultsPut(args, pos, less);
    var x, y := ResultsSeq(inner[..k]), ResultsSeq(inner[k + 1..]);
    ResultsJoin(inner[..k], inner[k + 1..]);
    ResultsAround(inner, k, inner[k]);
    assert inner[k := inner[k]] == inner;
    ResultsCountSeq(inner[..k]);
    Nest(pre, x, Results(inner[k]), y, post);
    Nest(pre, x, [], y, post);
    assert x + ([] + y) == x + y;
    assert [] + (y + post) == y + post;
    pre, post := pre + x, y + post;
  }

  lemma {:induction false} BeforeKid(args: seq<Arg>, pos: Pos, k: nat)
    requires Has(args, pos) && k < |Kids(At(args, pos))| && Has(args, pos + [k])
    ensures ResultsBefore(args, pos + [k]) == ResultsBefore(args, pos) + NumResultsSeq(Kids(At(args, pos))[..k])
    decreases |pos|
  {
    var next := pos + [k];
    if |pos| == 1 {
      assert next[1..] == [k];
    } else {
      assert next[1..] == pos[1..] + [k];
      AtKid(Kids(args[pos[0]]), pos[1..], k);
      BeforeKid(Kids(args[pos[0]]), pos[1..], k);
    }
  }
}
