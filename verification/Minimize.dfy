/**
  Program minimization (prog/minimization.go).

  The predicate is a function of the program and the call index.  The source works on a clone
  `p` of the committed program `p0` and commits by making them the same object; `shared` says
  that they are, and a change to a shared program changes both.  An argument whose kind does
  not fit its type is left alone here (a failed type assertion in the source).
 */
module Minimize {
  import opened Ir
  import opened Defaults
  import opened TextLex
  import opened Sizes
  import opened ArgEdit

  type Pred = (Program, int) -> bool

  // ----- data and sizes -----

  predicate IsStruct(a: Arg) {
    a.GroupArg? && a.typ.StructT?
  }

  lemma {:induction false} CleanKids(a: Arg)
    ensures Clean(a) == WithKids(a, CleanSeq(Kids(a), IsStruct(a)))
  {
    match a
    case PointerArg(_, _, _, res) => if res.Some? { assert CleanSeq([res.value], false) == [Clean(res.value)]; }
    case UnionArg(_, option) => assert CleanSeq([option], false) == [Clean(option)];
    case _ =>
  }

  /** What holds data at some depth is not a length field. */
  lemma {:induction false} DataInside(args: seq<Arg>, pos: Pos)
    requires Has(args, pos) && At(args, pos).DataArg?
    ensures !IsLen(InnerArg(args[pos[0]]))
    decreases |pos|
  {
    if |pos| > 1 { DataInside(Kids(args[pos[0]]), pos[1..]); }
  }

  lemma {:induction false} CleanAt(args: seq<Arg>, fields: bool, i: nat)
    requires i < |args|
    ensures CleanSeq(args, fields)[i] == if fields && IsLen(InnerArg(args[i])) then SetInner(args[i], 0)
        else Clean(args[i])
  {
    if i > 0 { CleanAt(args[1..], fields, i - 1); }
  }

  lemma {:induction false} CleanSet(args: seq<Arg>, fields: bool, i: nat, b: Arg)
    requires i < |args|
    ensures CleanSeq(args[i := b], fields) ==
            CleanSeq(args, fields)[i := if fields && IsLen(InnerArg(b)) then SetInner(b, 0) else Clean(b)]
  {
    if i == 0 {
      assert args[i := b][1..] == args[1..];
    } else {
      assert args[i := b][1..] == args[1..][i - 1 := b];
      CleanSet(args[1..], fields, i - 1, b);
    }
  }

  lemma {:induction false} SameKids(a: Arg, b: Arg)
    requires Clean(a) == Clean(b)
    ensures |Kids(a)| == |Kids(b)| && IsStruct(a) == IsStruct(b) &&
        CleanSeq(Kids(a), IsStruct(a)) == CleanSeq(Kids(b), IsStruct(b))
    ensures forall k :: |k| == |Kids(a)| ==> WithKids(Clean(a), k) == WithKids(Clean(b), k)
  {
    CleanKids(a);
    CleanKids(b);
    KidsWith(a, CleanSeq(Kids(a), IsStruct(a)));
    KidsWith(b, CleanSeq(Kids(b), IsStruct(b)));
  }

  lemma {:induction false} CleanWith(a: Arg, kids: seq<Arg>)
    requires |kids| == |Kids(a)|
    ensures Clean(WithKids(a, kids)) == WithKids(Clean(a), CleanSeq(kids, IsStruct(a)))
  {
    CleanKids(a);
    CleanKids(WithKids(a, kids));
    KidsWith(a, kids);
    KidsWith(a, CleanSeq(Kids(a), IsStruct(a)));
  }

  /** Changing data commutes with forgetting assigned sizes. */
  lemma {:induction false} CleanPut(x: seq<Arg>, y: seq<Arg>, pos: Pos, d: Arg, fields: bool)
    requires Has(x, pos) && Has(y, pos) && At(x, pos).DataArg? && At(y, pos).DataArg? && d.DataArg?
    requires CleanSeq(x, fields) == CleanSeq(y, fields)
    ensures CleanSeq(Put(x, pos, d), fields) == CleanSeq(Put(y, pos, d), fields)
    decreases |pos|
  {
    var i := pos[0];
    var a, b := x[i], y[i];
    var a1 := if |pos| == 1 then d else WithKids(a, Put(Kids(a), pos[1..], d));
    var b1 := if |pos| == 1 then d else WithKids(b, Put(Kids(b), pos[1..], d));
    PutPut(x, pos, d, d);
    PutPut(y, pos, d, d);
    DataInside(x, pos);
    DataInside(y, pos);
    DataInside(Put(x, pos, d), pos);
    DataInside(Put(y, pos, d), pos);
    CleanAt(x, fields, i);
    CleanAt(y, fields, i);
    CleanSet(x, fields, i, a1);
    CleanSet(y, fields, i, b1);
    if |pos| > 1 {
      SameKids(a, b);
      CleanPut(Kids(a), Kids(b), pos[1..], d, IsStruct(a));
      CleanWith(a, Put(Kids(a), pos[1..], d));
      CleanWith(b, Put(Kids(b), pos[1..], d));
    }
  }

  /** What the tree has after its data was changed and its sizes were assigned. */
  function WithData(args: seq<Arg>, pos: Pos, data: seq<Byte>): seq<Arg>
    requires Has(args, pos) && At(args, pos).DataArg?
  {
    AssignSizes(Put(args, pos, DataArg(At(args, pos).typ, data, At(args, pos).outSize)))
  }

  /** A tree that differs from `x` in its data and in assigned sizes. */
  ghost predicate Differs(x: seq<Arg>, args: seq<Arg>, pos: Pos, data: seq<Byte>)
    requires Has(x, pos) && At(x, pos).DataArg?
  {
    var d := DataArg(At(x, pos).typ, data, At(x, pos).outSize);
    Has(args, pos) && At(args, pos) == d && CleanSeq(args, true) == CleanSeq(Put(x, pos, d), true)
  }

  lemma {:induction false} AssignedAt(args: seq<Arg>, pos: Pos)
    requires Has(args, pos) && At(args, pos).DataArg?
    ensures Has(AssignSizes(args), pos) && At(AssignSizes(args), pos) == At(args, pos)
  {
    AssignKeepsOutline(args);
    AtOutline(args, pos);
    AtOutline(AssignSizes(args), pos);
  }

  /** However often data and sizes were changed before, the next change has the same result: the
      second assignment of sizes undoes the first. */
  lemma {:induction false} DataStep(x: seq<Arg>, args: seq<Arg>, pos: Pos, data: seq<Byte>, data1: seq<Byte>)
    requires Has(x, pos) && At(x, pos).DataArg? && Differs(x, args, pos, data)
    ensures WithData(args, pos, data1) == WithData(x, pos, data1)
    ensures Differs(x, WithData(args, pos, data1), pos, data1)
  {
    var d := DataArg(At(x, pos).typ, data, At(x, pos).outSize);
    var d1 := DataArg(At(x, pos).typ, data1, At(x, pos).outSize);
    PutPut(x, pos, d, d1);
    PutPut(args, pos, d1, d1);
    CleanPut(args, Put(x, pos, d), pos, d1, true);
    AssignIsFunction(Put(args, pos, d1), Put(x, pos, d1));
    AssignKeepsClean(Put(args, pos, d1));
    AssignedAt(Put(args, pos, d1), pos);
  }

  lemma {:induction false} DataStart(x: seq<Arg>, pos: Pos)
    requires Has(x, pos) && At(x, pos).DataArg?
    ensures Differs(x, x, pos, At(x, pos).data)
  {
    PutSame(x, pos);
  }

  // ----- paths -----

  function PathTo(path: string, a: Arg): string {
    path + "-" + a.typ.com.field
  }

  function ElemPath(path: string, i: nat): string {
    path + "-" + Dec(i)
  }

  /** All paths below an argument that may be marked as tried. */
  function Paths(a: Arg, path: string): set<string>
    decreases a, 1
  {
    var here := PathTo(path, a);
    {here} +
    match a
    case PointerArg(_, _, _, res) => if res.Some? then {here + "->"} + Paths(res.value, here) else {}
    case UnionArg(_, option) => Paths(option, here)
    case GroupArg(t, inner) => PathsSeq(inner, here, !t.ArrayT?, 0)
    case _ => {}
  }

  function PathsSeq(args: seq<Arg>, path: string, fields: bool, i: nat): set<string>
    decreases args, 0
  {
    if args == [] then {}
    else
      var p := if fields then path else ElemPath(path, i);
      {p} + Paths(args[0], p) + PathsSeq(args[1..], path, fields, i + 1)
  }

  lemma {:induction false} PathsAt(args: seq<Arg>, path: string, fields: bool, i: nat, k: nat)
    requires k < |args|
    ensures var p := if fields then path else ElemPath(path, i + k);
      {p} + Paths(args[k], p) <= PathsSeq(args, path, fields, i)
  {
    if k > 0 { PathsAt(args[1..], path, fields, i + 1, k - 1); }
  }

  // ----- one call -----

  function WithArgs(p: Program, i: nat, args: seq<Arg>): Program
    requires i < |p|
  {
    p[i := p[i].(args := args)]
  }

  /** The programs are the same but for lengths in call `i`. */
  ghost predicate SameButSizes(p: Program, q: Program, i: nat) {
    i < |p| && i < |q| && p == WithArgs(q, i, p[i].args) && OutlineSeq(p[i].args) == OutlineSeq(q[i].args)
  }

  lemma {:induction false} SameWeightProg(p: Program, q: Program, i: nat)
    requires SameButSizes(p, q, i)
    ensures WeightProg(p) == WeightProg(q)
  {
    SameWeight(p[i].args, q[i].args);
    WeightCall(q, i, p[i]);
  }

  function Metas(p: Program): seq<Syscall> {
    if p == [] then [] else [p[0].meta] + Metas(p[1..])
  }

  lemma {:induction false} SameMetas(p: Program, q: Program)
    requires |p| == |q| && forall i :: 0 <= i < |p| ==> p[i].meta == q[i].meta
    ensures Metas(p) == Metas(q)
  {
    if p != [] { SameMetas(p[1..], q[1..]); }
  }

  lemma {:induction false} MetaAt(p: Program, i: nat)
    requires i < |p|
    ensures i < |Metas(p)| && Metas(p)[i] == p[i].meta
  {
    if i > 0 { MetaAt(p[1..], i - 1); }
  }
}
