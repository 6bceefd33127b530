/**
  The arguments of a call in the order of ForeachArg (prog/prog.go), where each lies, and the
  copyins in that order.

  Arguments are known by their numbers in that order.
 */
module Traversal {
  import opened Ir
  import opened ExecFormat
  import opened ExecCompile

  /** An argument, where it lies, and which pointer leads to it (0 for none).  `up` are the structs
      that parentsMap leads to: the one it is a field of, that one's own, and so on. */
  datatype Visit = Visit(arg: Arg, base: Option<U64>, off: nat, obj: nat, up: seq<nat>)

  /** ForeachArg below one argument, which gets number `n`.  The field of a struct that is a pointer
      stands for what it leads to; members of arrays and unions are fields of nothing. */
  function Visits(tgt: Target, a: Arg, n: nat, base: Option<U64>, off: nat, obj: nat, up: seq<nat>): (r: seq<Visit>)
    ensures |r| == Count(a)
    decreases a, 1
  {
    match a
    case PointerArg(t, _, _, res) =>
      [Visit(a, base, off, obj, if t.PtrT? then [] else up)] +
      if res.Some? then Visits(tgt, res.value, n + 1, Some(PointeeBase(tgt, a)), 0, n + 1,
          if t.PtrT? then up else []) else []
    case GroupArg(t, inner) =>
      [Visit(a, base, off, obj, up)] + VisitsSeq(tgt, inner, n + 1, base, off, obj, if t.StructT? then [n] + up else [])
    case UnionArg(_, option) => [Visit(a, base, off, obj, up)] + Visits(tgt, option, n + 1, base, off, obj, [])
    case _ => [Visit(a, base, off, obj, up)]
  }

  function VisitsSeq(tgt: Target, args: seq<Arg>, n: nat, base: Option<U64>, off: nat, obj: nat,
      up: seq<nat>): (r: seq<Visit>)
    ensures |r| == CountSeq(args)
    decreases args, 0
  {
    if args == [] then []
    else
      Visits(tgt, args[0], n, base, off, obj, up) +
      VisitsSeq(tgt, args[1..], n + Count(args[0]), base, off + Size(args[0]), obj, up)
  }

  /** The arguments of a call. */
  function VisitsTop(tgt: Target, args: seq<Arg>, n: nat): (r: seq<Visit>)
    ensures |r| == CountSeq(args)
    decreases args
  {
    if args == [] then []
    else Visits(tgt, args[0], n, None, 0, 0, []) + VisitsTop(tgt, args[1..], n + Count(args[0]))
  }

  function Count(a: Arg): nat
    decreases a, 1
  {
    match a
    case PointerArg(_, _, _, res) => 1 + if res.Some? then Count(res.value) else 0
    case GroupArg(_, inner) => 1 + CountSeq(inner)
    case UnionArg(_, option) => 1 + Count(option)
    case _ => 1
  }

  function CountSeq(args: seq<Arg>): nat
    decreases args, 0
  {
    if args == [] then 0 else Count(args[0]) + CountSeq(args[1..])
  }

  // ----- the copyins -----

  /** The copyins of the arguments themselves, in order. */
  function Owns(tgt: Target, infos: Infos, vs: seq<Visit>): Option<seq<Copyin>> {
    if vs == [] then Some([])
    else Join(OwnCopyin(tgt, infos, vs[0].arg, vs[0].base, vs[0].off), Owns(tgt, infos, vs[1..]))
  }

  lemma {:induction false} JoinAssoc<T>(a: Option<seq<T>>, b: Option<seq<T>>, c: Option<seq<T>>)
    ensures Join(a, Join(b, c)) == Join(Join(a, b), c)
  {
    if a.Some? && b.Some? && c.Some? { assert a.value + (b.value + c.value) == (a.value + b.value) + c.value; }
  }

  lemma {:induction false} OwnsJoin(tgt: Target, infos: Infos, a: seq<Visit>, b: seq<Visit>)
    ensures Owns(tgt, infos, a + b) == Join(Owns(tgt, infos, a), Owns(tgt, infos, b))
  {
    if a == [] {
      assert a + b == b;
      if Owns(tgt, infos, b).Some? { assert [] + Owns(tgt, infos, b).value == Owns(tgt, infos, b).value; }
    } else {
      assert (a + b)[1..] == a[1..] + b;
      OwnsJoin(tgt, infos, a[1..], b);
      JoinAssoc(OwnCopyin(tgt, infos, a[0].arg, a[0].base, a[0].off), Owns(tgt, infos, a[1..]), Owns(tgt, infos, b));
    }
  }

  lemma {:induction false} OwnsFirst(tgt: Target, infos: Infos, v: Visit, rest: seq<Visit>)
    ensures Owns(tgt, infos, [v] + rest) ==
            Join(OwnCopyin(tgt, infos, v.arg, v.base, v.off), Owns(tgt, infos, rest))
  {
    assert ([v] + rest)[1..] == rest;
  }

  /** writeCopyins emits nothing but the copyins of the arguments, in the order of the traversal. */
  lemma {:induction false} CopyinsInOrder(tgt: Target, infos: Infos, a: Arg, n: nat, base: Option<U64>, off: nat,
      obj: nat, up: seq<nat>)
    ensures StaticCopyins(tgt, infos, a, base, off) == Owns(tgt, infos, Visits(tgt, a, n, base, off, obj, up))
    decreases a, 1
  {
    match a
    case PointerArg(t, _, _, res) =>
      var rest := if res.Some? then Visits(tgt, res.value, n + 1, Some(PointeeBase(tgt, a)), 0, n + 1,
          if t.PtrT? then up else []) else [];
      OwnsFirst(tgt, infos, Visit(a, base, off, obj, if t.PtrT? then [] else up), rest);
      if res.Some? {
        CopyinsInOrder(tgt, infos, res.value, n + 1, Some(PointeeBase(tgt, a)), 0, n + 1, if t.PtrT? then up else []);
      }
    case GroupArg(t, inner) =>
      var up1 := if t.StructT? then [n] + up else [];
      OwnsFirst(tgt, infos, Visit(a, base, off, obj, up), VisitsSeq(tgt, inner, n + 1, base, off, obj, up1));
      CopyinsInOrderSeq(tgt, infos, inner, n + 1, base, off, obj, up1);
    case UnionArg(_, option) =>
      OwnsFirst(tgt, infos, Visit(a, base, off, obj, up), Visits(tgt, option, n + 1, base, off, obj, []));
      CopyinsInOrder(tgt, infos, option, n + 1, base, off, obj, []);
    case _ =>
      assert [Visit(a, base, off, obj, up)][1..] == [];
  }

  lemma {:induction false} CopyinsInOrderSeq(tgt: Target, infos: Infos, args: seq<Arg>, n: nat, base: Option<U64>,
      off: nat, obj: nat, up: seq<nat>)
    ensures StaticCopyinsSeq(tgt, infos, args, base, off) ==
            Owns(tgt, infos, VisitsSeq(tgt, args, n, base, off, obj, up))
    decreases args, 0
  {
    if args != [] {
      CopyinsInOrder(tgt, infos, args[0], n, base, off, obj, up);
      CopyinsInOrderSeq(tgt, infos, args[1..], n + Count(args[0]), base, off + Size(args[0]), obj, up);
      OwnsJoin(tgt, infos, Visits(tgt, args[0], n, base, off, obj, up),
               VisitsSeq(tgt, args[1..], n + Count(args[0]), base, off + Size(args[0]), obj, up));
    }
  }

  lemma {:induction false} CopyinsTopInOrder(tgt: Target, infos: Infos, args: seq<Arg>, n: nat)
    ensures StaticCopyinsTop(tgt, infos, args) == Owns(tgt, infos, VisitsTop(tgt, args, n))
    decreases args
  {
    if args != [] {
      CopyinsInOrder(tgt, infos, args[0], n, None, 0, 0, []);
      CopyinsTopInOrder(tgt, infos, args[1..], n + Count(args[0]));
      OwnsJoin(tgt, infos, Visits(tgt, args[0], n, None, 0, 0, []), VisitsTop(tgt, args[1..], n + Count(args[0])));
    }
  }

  /** The copyins of one argument are among them. */
  lemma {:induction false} OwnIn(tgt: Target, infos: Infos, vs: seq<Visit>, k: nat)
    requires k < |vs| && Owns(tgt, infos, vs).Some?
    ensures var own := OwnCopyin(tgt, infos, vs[k].arg, vs[k].base, vs[k].off);
      own.Some? && forall c :: c in own.value ==> c in Owns(tgt, infos, vs).value
  {
    if k > 0 { OwnIn(tgt, infos, vs[1..], k - 1); }
  }

  // ----- where arguments lie -----

  /** What the argument holds comes next: the object that a pointer leads to from the address that
      the pointer holds, an option where its union lies, members one after the other. */
  predicate Leads(tgt: Target, vs: seq<Visit>, k: nat)
    requires k < |vs|
  {
    match vs[k].arg
    case PointerArg(_, address, _, res) =>
      res.Some? ==>
        && k + 1 < |vs| && vs[k + 1].arg == res.value && vs[k + 1].off == 0
        && vs[k + 1].base == Some((tgt.dataOffset + address) % TWO64)
    case UnionArg(_, option) =>
      k + 1 < |vs| && vs[k + 1].arg == option && vs[k + 1].base == vs[k].base && vs[k + 1].off == vs[k].off
    case GroupArg(_, inner) => forall f :: 0 <= f < |inner| ==> LiesAt(vs, k, inner, f)
    case _ => true
  }

  predicate LiesAt(vs: seq<Visit>, k: nat, inner: seq<Arg>, f: nat)
    requires k < |vs| && f < |inner|
  {
    var n := k + 1 + CountSeq(inner[..f]);
    n < |vs| && vs[n].arg == inner[f] && vs[n].base == vs[k].base && vs[n].off == vs[k].off + SizeSeq(inner[..f])
  }

  ghost predicate AllLead(tgt: Target, vs: seq<Visit>) {
    forall k :: 0 <= k < |vs| ==> Leads(tgt, vs, k)
  }

  lemma {:induction false} LeadsIn(tgt: Target, pre: seq<Visit>, vs: seq<Visit>, post: seq<Visit>, k: nat)
    requires k < |vs| && Leads(tgt, vs, k)
    ensures Leads(tgt, pre + vs + post, |pre| + k)
  {
    var all, at: nat := pre + vs + post, |pre| + k;
    assert forall i :: 0 <= i < |vs| ==> all[|pre| + i] == vs[i];
    if vs[k].arg.GroupArg? {
      var inner := vs[k].arg.inner;
      forall f | 0 <= f < |inner| ensures LiesAt(all, at, inner, f) {
        assert LiesAt(vs, k, inner, f);
        var n := k + 1 + CountSeq(inner[..f]);
        assert all[|pre| + n] == vs[n];
      }
    }
  }

  lemma {:induction false} LeadsJoin(tgt: Target, a: seq<Visit>, b: seq<Visit>)
    requires AllLead(tgt, a) && AllLead(tgt, b)
    ensures AllLead(tgt, a + b)
  {
    forall k | 0 <= k < |a + b| ensures Leads(tgt, a + b, k) {
      if k < |a| {
        LeadsIn(tgt, [], a, b, k);
        assert [] + a + b == a + b;
      } else {
        LeadsIn(tgt, a, b, [], k - |a|);
        assert a + b + [] == a + b;
      }
    }
  }

  /** The argument itself and what follows it. */
  lemma {:induction false} LeadsFirst(tgt: Target, v: Visit, rest: seq<Visit>)
    requires AllLead(tgt, rest) && Leads(tgt, [v] + rest, 0)
    ensures AllLead(tgt, [v] + rest)
  {
    forall k | 0 <= k < |[v] + rest| ensures Leads(tgt, [v] + rest, k) {
      if k > 0 {
        LeadsIn(tgt, [v], rest, [], k - 1);
        assert [v] + rest + [] == [v] + rest;
      }
    }
  }

  lemma {:induction false} FirstVisit(tgt: Target, a: Arg, n: nat, base: Option<U64>, off: nat, obj: nat, up: seq<nat>)
    ensures var vs := Visits(tgt, a, n, base, off, obj, up);
      |vs| > 0 && vs[0].arg == a && vs[0].base == base && vs[0].off == off && vs[0].obj == obj
  {
  }

  lemma {:induction false} MemberVisit(tgt: Target, args: seq<Arg>, n: nat, base: Option<U64>, off: nat, obj: nat,
      up: seq<nat>, f: nat)
    requires f < |args|
    ensures var vs, k := VisitsSeq(tgt, args, n, base, off, obj, up), CountSeq(args[..f]);
      k < |vs| && vs[k].arg == args[f] && vs[k].base == base && vs[k].off == off + SizeSeq(args[..f])
    decreases args
  {
    FirstVisit(tgt, args[0], n, base, off, obj, up);
    if f > 0 {
      MemberVisit(tgt, args[1..], n + Count(args[0]), base, off + Size(args[0]), obj, up, f - 1);
      assert args[..f][1..] == args[1..][..f - 1];
    }
  }

  lemma {:induction false} ArgLeads(tgt: Target, a: Arg, n: nat, base: Option<U64>, off: nat, obj: nat, up: seq<nat>)
    ensures AllLead(tgt, Visits(tgt, a, n, base, off, obj, up))
    decreases a, 1
  {
    match a
    case PointerArg(t, address, _, res) =>
      var v := Visit(a, base, off, obj, if t.PtrT? then [] else up);
      if res.Some? {
        var up1, obj1: U64 := if t.PtrT? then up else [], (tgt.dataOffset + address) % TWO64;
        ArgLeads(tgt, res.value, n + 1, Some(obj1), 0, n + 1, up1);
        FirstVisit(tgt, res.value, n + 1, Some(obj1), 0, n + 1, up1);
        LeadsFirst(tgt, v, Visits(tgt, res.value, n + 1, Some(obj1), 0, n + 1, up1));
      }
    case GroupArg(t, inner) =>
      var up1 := if t.StructT? then [n] + up else [];
      var v, rest := Visit(a, base, off, obj, up), VisitsSeq(tgt, inner, n + 1, base, off, obj, up1);
      MembersLead(tgt, inner, n + 1, base, off, obj, up1);
      forall f | 0 <= f < |inner| ensures LiesAt([v] + rest, 0, inner, f) {
        MemberVisit(tgt, inner, n + 1, base, off, obj, up1, f);
      }
      LeadsFirst(tgt, v, rest);
    case UnionArg(_, option) =>
      ArgLeads(tgt, option, n + 1, base, off, obj, []);
      FirstVisit(tgt, option, n + 1, base, off, obj, []);
      LeadsFirst(tgt, Visit(a, base, off, obj, up), Visits(tgt, option, n + 1, base, off, obj, []));
    case _ =>
  }

  lemma {:induction false} MembersLead(tgt: Target, args: seq<Arg>, n: nat, base: Option<U64>, off: nat, obj: nat,
      up: seq<nat>)
    ensures AllLead(tgt, VisitsSeq(tgt, args, n, base, off, obj, up))
    decreases args, 0
  {
    if args != [] {
      ArgLeads(tgt, args[0], n, base, off, obj, up);
      MembersLead(tgt, args[1..], n + Count(args[0]), base, off + Size(args[0]), obj, up);
      LeadsJoin(tgt, Visits(tgt, args[0], n, base, off, obj, up),
                VisitsSeq(tgt, args[1..], n + Count(args[0]), base, off + Size(args[0]), obj, up));
    }
  }

  /** Where the arguments of a call lie. */
  lemma {:induction false} CallLeads(tgt: Target, args: seq<Arg>, n: nat)
    ensures AllLead(tgt, VisitsTop(tgt, args, n))
    decreases args
  {
    if args != [] {
      ArgLeads(tgt, args[0], n, None, 0, 0, []);
      CallLeads(tgt, args[1..], n + Count(args[0]));
      LeadsJoin(tgt, Visits(tgt, args[0], n, None, 0, 0, []), VisitsTop(tgt, args[1..], n + Count(args[0])));
    }
  }

  // ----- parents -----

  predicate IsPtr(v: Visit) {
    v.arg.PointerArg? && v.arg.typ.PtrT? && v.arg.res.Some?
  }

  /** From number `lo` on the arguments are pointers, each to the next, up to `k`. */
  predicate Chain(vs: seq<Visit>, lo: nat, k: nat)
    requires k < |vs|
  {
    lo <= k && forall i :: lo <= i < k ==> IsPtr(vs[i])
  }

  /** Argument `k` is, behind any pointers, field `f` of the members `inner` that start at `at`. */
  predicate IsNth(vs: seq<Visit>, at: nat, inner: seq<Arg>, f: nat, k: nat)
    requires k < |vs| && f < |inner|
  {
    Chain(vs, at + CountSeq(inner[..f]), k)
  }

  predicate IsOneOf(vs: seq<Visit>, at: nat, inner: seq<Arg>, k: nat)
    requires k < |vs|
  {
    exists f :: 0 <= f < |inner| && IsNth(vs, at, inner, f, k)
  }

  /** Argument `k` is a field of struct `s`, behind any pointers. */
  predicate IsFieldOf(vs: seq<Visit>, s: nat, k: nat)
    requires k < |vs|
  {
    s < k && vs[s].arg.GroupArg? && vs[s].arg.typ.StructT? && IsOneOf(vs, s + 1, vs[s].arg.inner, k)
  }

  /** The innermost struct noted for argument `k` of arguments numbered from `n` on has it as a
      field, and the others are those of that struct; or the argument has those of the whole, `up`,
      and stands where `top` says. */
  predicate HasParent(vs: seq<Visit>, n: nat, up: seq<nat>, top: bool, k: nat)
    requires k < |vs|
  {
    || vs[k].up == []
    || (top && vs[k].up == up)
    || (n <= vs[k].up[0] && IsFieldOf(vs, vs[k].up[0] - n, k) && vs[k].up[1..] == vs[vs[k].up[0] - n].up)
  }

  ghost predicate HaveParents(vs: seq<Visit>, n: nat, up: seq<nat>) {
    forall k :: 0 <= k < |vs| ==> HasParent(vs, n, up, Chain(vs, 0, k), k)
  }

  ghost predicate MembersHaveParents(vs: seq<Visit>, n: nat, up: seq<nat>, inner: seq<Arg>) {
    forall k :: 0 <= k < |vs| ==> HasParent(vs, n, up, IsOneOf(vs, 0, inner, k), k)
  }

  lemma {:induction false} ChainIn(pre: seq<Visit>, vs: seq<Visit>, post: seq<Visit>, lo: nat, k: nat)
    requires k < |vs|
    ensures Chain(pre + vs + post, |pre| + lo, |pre| + k) <==> Chain(vs, lo, k)
  {
    var all := pre + vs + post;
    assert forall i :: 0 <= i < |vs| ==> all[|pre| + i] == vs[i];
    if Chain(all, |pre| + lo, |pre| + k) {
      forall i | lo <= i < k ensures IsPtr(vs[i]) {
        var j: nat := |pre| + i;
        assert IsPtr(all[j]);
      }
    }
  }

  lemma {:induction false} FieldIn(pre: seq<Visit>, vs: seq<Visit>, post: seq<Visit>, s: nat, k: nat)
    requires k < |vs| && IsFieldOf(vs, s, k)
    ensures IsFieldOf(pre + vs + post, |pre| + s, |pre| + k)
  {
    var all, inner := pre + vs + post, vs[s].arg.inner;
    assert all[|pre| + s] == vs[s];
    var f :| 0 <= f < |inner| && IsNth(vs, s + 1, inner, f, k);
    ChainIn(pre, vs, post, s + 1 + CountSeq(inner[..f]), k);
    assert IsNth(all, |pre| + s + 1, inner, f, |pre| + k);
  }

  /** Seen from a longer list. */
  lemma {:induction false} ParentIn(pre: seq<Visit>, vs: seq<Visit>, post: seq<Visit>, n: nat, up: seq<nat>, top: bool,
      all: bool, k: nat)
    requires k < |vs| && HasParent(vs, n + |pre|, up, top, k) && (top ==> all)
    ensures HasParent(pre + vs + post, n, up, all, |pre| + k)
  {
    assert (pre + vs + post)[|pre| + k] == vs[k];
    if vs[k].up != [] && !(top && vs[k].up == up) {
      var s := vs[k].up[0] - (n + |pre|);
      FieldIn(pre, vs, post, s, k);
      assert (pre + vs + post)[|pre| + s] == vs[s];
    }
  }

  lemma {:induction false} ArgParents(tgt: Target, a: Arg, n: nat, base: Option<U64>, off: nat, obj: nat, up: seq<nat>)
    ensures HaveParents(Visits(tgt, a, n, base, off, obj, up), n, up)
    decreases a, 1
  {
    var vs := Visits(tgt, a, n, base, off, obj, up);
    match a
    case PointerArg(t, _, _, res) =>
      if res.Some? {
        var up1 := if t.PtrT? then up else [];
        var rest := Visits(tgt, res.value, n + 1, Some(PointeeBase(tgt, a)), 0, n + 1, up1);
        ArgParents(tgt, res.value, n + 1, Some(PointeeBase(tgt, a)), 0, n + 1, up1);
        forall k | 0 <= k < |vs| ensures HasParent(vs, n, up, Chain(vs, 0, k), k) {
          if k > 0 { PointeeParent(vs, rest, n, up, up1, k - 1); }
        }
      }
    case GroupArg(t, inner) =>
      var up1 := if t.StructT? then [n] + up else [];
      var rest := VisitsSeq(tgt, inner, n + 1, base, off, obj, up1);
      MembersParents(tgt, inner, n + 1, base, off, obj, up1);
      forall k | 0 <= k < |vs| ensures HasParent(vs, n, up, Chain(vs, 0, k), k) {
        if k > 0 { MemberParent(vs, rest, n, up, up1, inner, k - 1); }
      }
    case UnionArg(_, option) =>
      var rest := Visits(tgt, option, n + 1, base, off, obj, []);
      ArgParents(tgt, option, n + 1, base, off, obj, []);
      forall k | 0 <= k < |vs| ensures HasParent(vs, n, up, Chain(vs, 0, k), k) {
        if k > 0 { PointeeParent(vs, rest, n, up, [], k - 1); }
      }
    case _ =>
  }

  lemma {:induction false} PointeeParent(vs: seq<Visit>, rest: seq<Visit>, n: nat, up: seq<nat>, up1: seq<nat>, k: nat)
    requires vs != [] && vs == [vs[0]] + rest && k < |rest| && HaveParents(rest, n + 1, up1)
    requires up1 == [] || (up1 == up && IsPtr(vs[0]))
    ensures HasParent(vs, n, up, Chain(vs, 0, k + 1), k + 1)
  {
    assert HasParent(rest, n + 1, up1, Chain(rest, 0, k), k);
    ChainIn([vs[0]], rest, [], 0, k);
    assert [vs[0]] + rest + [] == vs;
    if up1 == up && IsPtr(vs[0]) {
      assert Chain(rest, 0, k) ==> Chain(vs, 0, k + 1);
      ParentIn([vs[0]], rest, [], n, up, Chain(rest, 0, k), Chain(vs, 0, k + 1), k);
    } else {
      assert HasParent(rest, n + 1, up, false, k);
      ParentIn([vs[0]], rest, [], n, up, false, Chain(vs, 0, k + 1), k);
    }
  }

  lemma {:induction false} MemberParent(vs: seq<Visit>, rest: seq<Visit>, n: nat, up: seq<nat>, up1: seq<nat>,
      inner: seq<Arg>, k: nat)
    requires vs != [] && vs == [vs[0]] + rest && k < |rest| && MembersHaveParents(rest, n + 1, up1, inner)
    requires vs[0].arg.GroupArg? && vs[0].arg.inner == inner && vs[0].up == up
    requires up1 == if vs[0].arg.typ.StructT? then [n] + up else []
    ensures HasParent(vs, n, up, Chain(vs, 0, k + 1), k + 1)
  {
    assert HasParent(rest, n + 1, up1, IsOneOf(rest, 0, inner, k), k);
    assert [vs[0]] + rest + [] == vs;
    if rest[k].up != [] && rest[k].up == up1 && IsOneOf(rest, 0, inner, k) {
      var f :| 0 <= f < |inner| && IsNth(rest, 0, inner, f, k);
      ChainIn([vs[0]], rest, [], CountSeq(inner[..f]), k);
      assert IsNth(vs, 1, inner, f, k + 1);
      assert IsFieldOf(vs, 0, k + 1);
    } else {
      assert HasParent(rest, n + 1, up, false, k);
      ParentIn([vs[0]], rest, [], n, up, false, Chain(vs, 0, k + 1), k);
    }
  }

  lemma {:induction false} MembersParents(tgt: Target, args: seq<Arg>, n: nat, base: Option<U64>, off: nat, obj: nat,
      up: seq<nat>)
    ensures MembersHaveParents(VisitsSeq(tgt, args, n, base, off, obj, up), n, up, args)
    decreases args, 0
  {
    if args != [] {
      var one := Visits(tgt, args[0], n, base, off, obj, up);
      var more := VisitsSeq(tgt, args[1..], n + Count(args[0]), base, off + Size(args[0]), obj, up);
      ArgParents(tgt, args[0], n, base, off, obj, up);
      MembersParents(tgt, args[1..], n + Count(args[0]), base, off + Size(args[0]), obj, up);
      forall k | 0 <= k < |one + more| ensures HasParent(one + more, n, up, IsOneOf(one + more, 0, args, k), k) {
        if k < |one| {
          FirstMember(one, more, n, up, args, k);
        } else {
          LaterMember(one, more, n, up, args, k - |one|);
        }
      }
    }
  }

  lemma {:induction false} FirstMember(one: seq<Visit>, more: seq<Visit>, n: nat, up: seq<nat>, args: seq<Arg>, k: nat)
    requires args != [] && k < |one| && HaveParents(one, n, up)
    ensures HasParent(one + more, n, up, IsOneOf(one + more, 0, args, k), k)
  {
    assert HasParent(one, n, up, Chain(one, 0, k), k);
    assert [] + one + more == one + more;
    ChainIn([], one, more, 0, k);
    if Chain(one, 0, k) { assert args[..0] == [] && IsNth(one + more, 0, args, 0, k); }
    ParentIn([], one, more, n, up, Chain(one, 0, k), IsOneOf(one + more, 0, args, k), k);
  }

  lemma {:induction false} LaterMember(one: seq<Visit>, more: seq<Visit>, n: nat, up: seq<nat>, args: seq<Arg>, k: nat)
    requires args != [] && k < |more| && |one| == Count(args[0])
    requires MembersHaveParents(more, n + |one|, up, args[1..])
    ensures HasParent(one + more, n, up, IsOneOf(one + more, 0, args, |one| + k), |one| + k)
  {
    assert HasParent(more, n + |one|, up, IsOneOf(more, 0, args[1..], k), k);
    assert one + more + [] == one + more;
    if IsOneOf(more, 0, args[1..], k) {
      var f :| 0 <= f < |args[1..]| && IsNth(more, 0, args[1..], f, k);
      assert args[..f + 1][1..] == args[1..][..f];
      ChainIn(one, more, [], CountSeq(args[1..][..f]), k);
      assert IsNth(one + more, 0, args, f + 1, |one| + k);
    }
    ParentIn(one, more, [], n, up, IsOneOf(more, 0, args[1..], k), IsOneOf(one + more, 0, args, |one| + k), k);
  }

  /** parentsMap: the struct noted for an argument of a call has it as a field. */
  lemma {:induction false} CallParents(tgt: Target, args: seq<Arg>, n: nat)
    ensures HaveParents(VisitsTop(tgt, args, n), n, [])
    decreases args
  {
    if args != [] {
      var one, more := Visits(tgt, args[0], n, None, 0, 0, []), VisitsTop(tgt, args[1..], n + Count(args[0]));
      ArgParents(tgt, args[0], n, None, 0, 0, []);
      CallParents(tgt, args[1..], n + Count(args[0]));
      forall k | 0 <= k < |one + more| ensures HasParent(one + more, n, [], Chain(one + more, 0, k), k) {
        if k < |one| {
          FirstHas(one, more, n, k);
        } else {
          RestHas(one, more, n, k - |one|);
        }
      }
    }
  }

  lemma {:induction false} FirstHas(one: seq<Visit>, more: seq<Visit>, n: nat, k: nat)
    requires k < |one| && HasParent(one, n, [], Chain(one, 0, k), k)
    ensures HasParent(one + more, n, [], Chain(one + more, 0, k), k)
  {
    assert HasParent(one, n, [], false, k);
    ParentIn([], one, more, n, [], false, Chain(one + more, 0, k), k);
    assert [] + one + more == one + more;
  }

  lemma {:induction false} RestHas(one: seq<Visit>, more: seq<Visit>, n: nat, k: nat)
    requires k < |more| && HasParent(more, n + |one|, [], Chain(more, 0, k), k)
    ensures HasParent(one + more, n, [], Chain(one + more, 0, k + |one|), k + |one|)
  {
    assert HasParent(more, n + |one|, [], false, k);
    ParentIn(one, more, [], n, [], false, Chain(one + more, 0, k + |one|), k);
    assert one + more + [] == one + more;
  }
}
