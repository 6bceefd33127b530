/**
  The minimizer as the source runs it: it changes a clone in place, asks the predicate, commits
  or undoes, and starts over after every change.
 */
module MinimizeRun {
  import opened Ir
  import opened Defaults
  import opened TextLex
  import opened Sizes
  import opened ArgEdit
  import opened Cloning
  import opened Minimize
  import opened ValidEdits

  lemma {:induction false} WeightPositive(a: Arg)
    ensures Weight(a) >= 1
  {
  }

  lemma {:induction false} RewriteMetas(p: Program, c: nat, pos: Pos, b: Arg, at: nat, gone: nat)
    requires c < |p| && Has(p[c].args, pos)
    ensures Metas(Rewrite(p, c, pos, b, at, gone)) == Metas(p)
  {
    SameMetas(Rewrite(p, c, pos, b, at, gone), p);
  }

  lemma {:induction false} ArgsMetas(p: Program, i: nat, args: seq<Arg>)
    requires i < |p|
    ensures Metas(WithArgs(p, i, args)) == Metas(p)
  {
    SameMetas(WithArgs(p, i, args), p);
  }

  /** What a commit keeps besides weight: the descriptions of the calls, and that Clone works. */
  ghost predicate Keeps(p: Program, q: Program) {
    Metas(q) == Metas(p) && (Clonable(p) ==> Clonable(q))
  }

  /** Assigned sizes make no difference to Clone. */
  lemma {:induction false} SizesClonable(p: Program, q: Program, i: nat)
    requires SameButSizes(p, q, i)
    ensures Clonable(p) <==> Clonable(q)
  {
    SameResults(p[i].args, q[i].args);
    assert q == WithArgs(p, i, q[i].args);
    if Clonable(p) { SetArgsClonable(p, i, q[i].args); }
    if Clonable(q) { SetArgsClonable(q, i, p[i].args); }
  }

  lemma {:induction false} ArgsWeight(p: Program, i: nat, args: seq<Arg>)
    requires i < |p|
    ensures WeightProg(WithArgs(p, i, args)) == WeightProg(p) - WeightSeq(p[i].args) + WeightSeq(args)
  {
    WeightCall(p, i, p[i].(args := args));
  }

  /** The predicate rejects the change that is tried first for argument `j` of call `i`. */
  ghost predicate Rejected(q: Program, i: nat, j: nat, pred: Pred, index: int, crash: bool)
    requires i < |q| && j < |q[i].args|
  {
    var args := q[i].args;
    match args[j]
    case ConstArg(t, val) =>
      !crash && val != DefaultVal(t) && (t.IntT? || t.FlagsT? || (t.ProcT? && t.com.optional)) ==>
        !pred(WithArgs(q, i, Put(args, [j], ConstArg(t, DefaultVal(t)))), index)
    case ResultArg(t, ref, div, add, _) =>
      !crash && ref.Some? ==>
        !pred(WithArgs(q, i, Put(args, [j],
                ResultArg(t, None, div, add, if t.ResourceT? then t.default else 0))), index)
    case PointerArg(t, _, _, res) => t.PtrT? && res.Some? ==> !pred(WithoutPointee(q, i, [j]), index)
    case DataArg(t, data, _) =>
      IsBlobArg(args[j]) && |data| > t.rangeBegin ==>
        !pred(Cut(q, i, [j], if crash then t.rangeBegin else |data| - 1), index)
    case _ => true
  }

  /** The change was rejected for the program, or for the program with lengths assigned anew. */
  ghost predicate Unmoved(p0: Program, i: nat, j: nat, pred: Pred, index: int, crash: bool) {
    exists q: Program :: SameButSizes(q, p0, i) && j < |q[i].args| && Rejected(q, i, j, pred, index, crash)
  }

  /** What the tried paths of the arguments themselves tell about them. */
  ghost predicate PathsTell(p0: Program, i: nat, pred: Pred, index: int, crash: bool, tried: set<string>)
    requires i < |p0|
  {
    forall j {:trigger TopTried(p0[i].args[j], j, tried)} :: 0 <= j < |p0[i].args| && TopTried(p0[i].args[j], j, tried)
      ==> Unmoved(p0, i, j, pred, index, crash)
  }

  ghost predicate TopTried(a: Arg, j: nat, tried: set<string>) {
    var path := PathTo(Dec(j), a);
    path in tried || (a.PointerArg? && a.typ.PtrT? && a.res.Some? && path + "->" in tried)
  }

  /** minimizeArgsCtx. */
  class Ctx {
    const pred: Pred
    const crash: bool
    const callIndex: int
    const i: nat
    ghost const tgt: Target
    ghost const good: bool // the program given is valid, and can be cloned
    ghost var asked: set<Program> // what the predicate was asked about
    var p0: Program
    var p: Program
    var shared: bool
    var version: nat // how often a program was committed
    var tried: set<string>
    var panicked: bool

    /** A clone of the committed program, but for lengths. */
    ghost predicate Open()
      reads this
    {
      !shared && !panicked && SameButSizes(p, p0, i) && Sane()
    }

    /** The committed program is good, and the predicate was asked about valid programs only. */
    ghost predicate Sane()
      reads this
    {
      good ==> Good(tgt, p0) && AskedValid()
    }

    ghost predicate AskedValid()
      reads this
    {
      forall q :: q in asked ==> ValidProg(tgt, q)
    }

    /** The clone is good too. */
    lemma CloneGood()
      requires Open() && good
      ensures Good(tgt, p)
    {
      SizesGood(tgt, p0, i, p[i].args);
    }

    /** No commit: the iteration goes on. */
    ghost predicate GoesOn(q0: Program, v: nat, before: set<string>, all: set<string>)
      reads this
    {
      Open() && p0 == q0 && version == v && before <= tried <= before + all
    }

    /** A new start: with a smaller program that the predicate accepted as it is, or with one
        more path of the committed program tried. */
    ghost predicate Restarts(q0: Program, before: set<string>, all: set<string>)
      reads this
    {
      && !panicked && before <= tried <= before + all && Sane()
      && if shared then
           p0 == p && pred(p0, callIndex) && WeightProg(p0) < WeightProg(q0) && Keeps(q0, p0)
         else
           p0 == q0 && exists x :: x in all && x in tried && x !in before
    }

    /** The predicate was asked about `q`, which was committed exactly if it was accepted. */
    ghost predicate Tried(q: Program)
      reads this
    {
      shared == pred(q, callIndex) && (shared ==> p0 == q)
    }

    /** The committed program is `orig` still, and the tried paths tell about its arguments, or it is
        lighter. */
    ghost predicate Stands(orig: Program)
      requires i < |orig|
      reads this
    {
      if p0 == orig then PathsTell(orig, i, pred, callIndex, crash, tried) else WeightProg(p0) < WeightProg(orig)
    }

    constructor (p: Program, pred: Pred, crash: bool, callIndex: int, i: nat, ghost tgt: Target)
      requires i < |p|
      ensures Open() && p0 == p && tried == {} && asked == {} && Stands(p)
      ensures this.pred == pred && this.crash == crash && this.callIndex == callIndex && this.i == i
      ensures this.tgt == tgt && good == Good(tgt, p)
    {
      this.pred, this.crash, this.callIndex, this.i := pred, crash, callIndex, i;
      this.tgt, this.good, asked := tgt, Good(tgt, p), {};
      this.p0, this.p := p, p;
      shared, version, tried, panicked := false, 0, {}, false;
    }

    /** The next clone; it fails when a result refers to one that is not copied before it. */
    method Clone() returns (ok: bool)
      requires i < |p0| && !panicked && Sane()
      modifies this
      ensures ok == Clonable(p0) && !panicked && p0 == old(p0) && tried == old(tried) && version == old(version)
      ensures Sane() && asked == old(asked)
      ensures ok ==> Open() && p == p0
    {
      var r := CloneProg(p0);
      ok := r.Some?;
      if ok {
        p, shared := r.value, false;
      }
    }

    /** In-place change of the clone: a shared program changes with it. */
    method Change(q: Program)
      modifies this`p, this`p0
      ensures p == q && p0 == if shared then q else old(p0)
    {
      p := q;
      if shared {
        p0 := q;
      }
    }

    /** Every question about a program goes through here. */
    method Ask() returns (accepted: bool)
      requires good ==> Good(tgt, p) && AskedValid()
      modifies this`asked
      ensures accepted == pred(p, callIndex) && asked == old(asked) + {p} && (good ==> AskedValid())
    {
      accepted := pred(p, callIndex);
      asked := asked + {p};
      if good {
        IsValid(tgt, p);
      }
    }

    method Commit()
      modifies this`p0, this`shared, this`version
      ensures p0 == p && shared && version == old(version) + 1
    {
      p0, shared, version := p, true, version + 1;
    }

    /** Asks about a clone that is lighter now, commits it if it is accepted, and starts over. */
    method Settle(path: string, ghost all: set<string>)
      requires !shared && !panicked && Sane() && (good ==> Good(tgt, p))
      requires WeightProg(p) < WeightProg(p0) && Keeps(p0, p) && path in all && path !in tried
      modifies this
      ensures Restarts(old(p0), old(tried), all)
      ensures path in tried && Tried(old(p))
    {
      var accepted := Ask();
      if accepted {
        Commit();
      }
      tried := tried + {path};
    }

    /** What the minimize method of a type does with an argument: the change it tries, and that it is
        committed exactly if the predicate accepts it; or that it has gone on to the parts. */
    twostate predicate Handled(pos: Pos, path: string, a: Arg, changed: bool)
      requires old(i < |p| && Has(p[i].args, pos))
      reads this
    {
      match At(old(p)[i].args, pos)
      case ConstArg(t, _) =>
        if t.IntT? || t.FlagsT? || (t.ProcT? && t.com.optional) then IntHandled(pos, changed) else !changed
      case ResultArg(_, _, _, _, _) => ResultHandled(pos, changed)
      case PointerArg(t, _, _, _) => if t.PtrT? then PointerHandled(pos, path, a, changed) else !changed
      case UnionArg(_, _) => !changed ==> MembersTried(path, Kids(a), |Kids(a)|, tried)
      case GroupArg(t, _) =>
        if t.StructT? then !changed ==> MembersTried(path, Kids(a), |Kids(a)|, tried)
        else ArrayHandled(pos, path, a, changed)
      case DataArg(_, _, _) => DataHandled(pos, changed)
    }

    /** minimizeInt: the default value. */
    twostate predicate IntHandled(pos: Pos, changed: bool)
      requires old(i < |p| && Has(p[i].args, pos) && At(p[i].args, pos).ConstArg?)
      reads this
    {
      var a := At(old(p)[i].args, pos);
      var q := WithArgs(old(p), i, Put(old(p)[i].args, pos, ConstArg(a.typ, DefaultVal(a.typ))));
      changed == (!crash && a.val != DefaultVal(a.typ) && pred(q, callIndex)) && (changed ==> shared && p0 == q)
    }

    /** ResourceType.minimize: the default value in place of a reference. */
    twostate predicate ResultHandled(pos: Pos, changed: bool)
      requires old(i < |p| && Has(p[i].args, pos) && At(p[i].args, pos).ResultArg?)
      reads this
    {
      var a := At(old(p)[i].args, pos);
      var unset := ResultArg(a.typ, None, a.opDiv, a.opAdd, if a.typ.ResourceT? then a.typ.default else 0);
      && changed == (!crash && a.ref.Some?)
      && (changed ==> Tried(WithArgs(old(p), i, Put(old(p)[i].args, pos, unset))))
    }

    /** PtrType.minimize: the null pointer, and then the pointee. */
    twostate predicate PointerHandled(pos: Pos, path: string, a: Arg, changed: bool)
      requires old(i < |p| && Has(p[i].args, pos) && At(p[i].args, pos).PointerArg?)
      reads this
    {
      if At(old(p)[i].args, pos).res.None? then !changed
      else if path + "->" !in old(tried) then
        changed && path + "->" in tried && Tried(WithoutPointee(old(p), i, pos))
      else !changed ==> MembersTried(path, Kids(a), |Kids(a)|, tried)
    }

    /** ArrayType.minimize: the last element goes first if it may; and when nothing was changed every
        element was tried, and its removal too if an element may go. */
    twostate predicate ArrayHandled(pos: Pos, path: string, a: Arg, changed: bool)
      requires old(i < |p| && Has(p[i].args, pos) && At(p[i].args, pos).GroupArg?)
      reads this
    {
      var was := At(old(p)[i].args, pos);
      && (was.typ.ArrayT? && !changed ==> ElemsTried(path, Kids(a), MayGo(a), 0, tried))
      && (was.inner != [] && MayGo(was) && ElemPath(path, |was.inner| - 1) !in old(tried) ==>
            changed && Tried(WithoutElem(old(p), i, pos, |was.inner| - 1)))
      && (!was.typ.ArrayT? ==> !changed)
    }

    /** BufferType.minimize: a shorter length that the predicate accepts.  Without `crash` one byte less
        is too short or was rejected; with `crash` it is the smallest length or none. */
    twostate predicate DataHandled(pos: Pos, changed: bool)
      requires old(IsData(p, i, pos))
      reads this
    {
      var a := At(old(p)[i].args, pos);
      if !IsBlobArg(a) then !changed
      else exists n: nat ::
             n <= |a.data| && changed == (n < |a.data|) && Shortened(old(p), pos, a.typ.rangeBegin, n) &&
             (changed ==> shared && p0 == Cut(old(p), i, pos, n))
    }

    ghost predicate Shortened(q: Program, pos: Pos, least: nat, n: nat)
      requires IsData(q, i, pos) && n <= |DataAt(q, i, pos)|
    {
      var all := |DataAt(q, i, pos)|;
      && (n < all ==> least <= n && pred(Cut(q, i, pos, n), callIndex))
      && (!crash && n > least ==> !pred(Cut(q, i, pos, n - 1), callIndex))
      && (crash && all > least ==> n == if pred(Cut(q, i, pos, least), callIndex) then least else all)
    }

    /** do. */
    method Do(pos: Pos, path0: string, ghost a: Arg, ghost all: set<string>) returns (changed: bool)
      requires Open() && Has(p[i].args, pos) && Outline(At(p[i].args, pos)) == a && Paths(a, path0) <= all
      modifies this
      ensures !changed ==> GoesOn(old(p0), old(version), old(tried), all) && PathTo(path0, a) in tried
      ensures changed ==> Restarts(old(p0), old(tried), all)
      ensures PathTo(path0, a) !in old(tried) ==> Handled(pos, PathTo(path0, a), a, changed)
      decreases a, 3
    {
      var path := PathTo(path0, At(p[i].args, pos));
      if path in tried {
        return false;
      }
      var v := version;
      changed := MinimizeArg(pos, path, a, all);
      if changed {
        return;
      }
      // "shared program committed" and "iterating over stale program"
      panicked := panicked || shared || version != v;
      tried := tried + {path};
    }

    /** One argument of the call.  If nothing was committed it was left as it is because of the
        predicate. */
    method Argument(ghost orig: Program, j: nat, ghost a: Arg) returns (changed: bool)
      requires Open() && j < |p[i].args| && i < |orig| && Stands(orig)
      requires j < |p0[i].args| && a == Outline(p0[i].args[j]) == Outline(p[i].args[j])
      modifies this
      ensures !changed ==> GoesOn(old(p0), old(version), old(tried), Paths(a, Dec(j)))
      ensures !changed ==> PathTo(Dec(j), a) in tried
      ensures changed ==> Restarts(old(p0), old(tried), Paths(a, Dec(j)))
      ensures Stands(orig)
    {
      changed := Do([j], Dec(j), a, Paths(a, Dec(j)));
      if !shared && p0 == orig {
        if !TopTried(p0[i].args[j], j, old(tried)) {
          assert At(old(p)[i].args, [j]) == old(p)[i].args[j];
          assert Rejected(old(p), i, j, pred, callIndex, crash);
        }
        PathsTellMore(p0, i, j, pred, callIndex, crash, old(tried), tried);
      }
    }

    /** The minimize methods of the types. */
    method MinimizeArg(pos: Pos, path: string, ghost a: Arg, ghost all: set<string>) returns (changed: bool)
      requires Open() && Has(p[i].args, pos) && Outline(At(p[i].args, pos)) == a
      requires path in all && path !in tried && Below(a, path) <= all
      modifies this
      ensures !changed ==> GoesOn(old(p0), old(version), old(tried), all)
      ensures changed ==> Restarts(old(p0), old(tried), all)
      ensures Handled(pos, path, a, changed)
      decreases a, 2
    {
      var arg := At(p[i].args, pos);
      match arg {
        case GroupArg(t, _) =>
          if t.StructT? {
            changed := MinimizeStruct(pos, path, a, all);
          } else {
            changed := MinimizeArray(pos, path, a, all);
          }
        case UnionArg(_, option) =>
          AtKid(p[i].args, pos, 0);
          changed := Do(pos + [0], path, Outline(option), all);
        case PointerArg(t, _, _, _) =>
          if t.PtrT? {
            changed := MinimizePointer(pos, path, a, all);
          } else {
            changed := false;
          }
        case ConstArg(t, _) =>
          if t.IntT? || t.FlagsT? || (t.ProcT? && t.com.optional) {
            changed := MinimizeInt(pos, path, all);
          } else {
            changed := false;
          }
        case ResultArg(_, _, _, _, _) => changed := MinimizeResult(pos, path, all);
        case DataArg(_, _, _) => changed := MinimizeBuffer(pos, path, all);
      }
    }

    method MinimizeStruct(pos: Pos, path: string, ghost a: Arg, ghost all: set<string>) returns (changed: bool)
      requires Open() && Has(p[i].args, pos) && Outline(At(p[i].args, pos)) == a
      requires a.GroupArg? && a.typ.StructT? && Below(a, path) <= all
      modifies this
      ensures !changed ==> GoesOn(old(p0), old(version), old(tried), all)
      ensures !changed ==> MembersTried(path, Kids(a), |Kids(a)|, tried)
      ensures changed ==> Restarts(old(p0), old(tried), all)
      decreases a, 1
    {
      var n := |Kids(At(p[i].args, pos))|;
      KidsOutline(At(p[i].args, pos));
      for k := 0 to n
        invariant GoesOn(old(p0), old(version), old(tried), all)
        invariant Has(p[i].args, pos) && Outline(At(p[i].args, pos)) == a && n == |a.inner|
        invariant MembersTried(path, a.inner, k, tried)
      {
        PathsAt(a.inner, path, true, 0, k);
        ghost var before := tried;
        changed := DoKid(pos, k, path, a, all);
        if changed {
          return;
        }
        MembersMore(path, a.inner, k, before, tried);
      }
      return false;
    }

    method MinimizePointer(pos: Pos, path: string, ghost a: Arg, ghost all: set<string>) returns (changed: bool)
      requires Open() && Has(p[i].args, pos) && Outline(At(p[i].args, pos)) == a
      requires a.PointerArg? && Below(a, path) <= all
      modifies this
      ensures !changed ==> GoesOn(old(p0), old(version), old(tried), all)
      ensures changed ==> Restarts(old(p0), old(tried), all)
      ensures PointerHandled(pos, path, a, changed)
      decreases a, 1
    {
      var args := p[i].args;
      var arg := At(args, pos);
      if arg.res.None? {
        return false;
      }
      if path + "->" !in tried {
        RemovePointee(pos);
        Settle(path + "->", all);
        return true;
      }
      AtKid(args, pos, 0);
      changed := Do(pos + [0], path, Outline(arg.res.value), all);
    }

    /** Makes a pointer null. */
    method RemovePointee(pos: Pos)
      requires Open() && Has(p[i].args, pos) && At(p[i].args, pos).PointerArg? && At(p[i].args, pos).res.Some?
      modifies this`p, this`p0
      ensures p0 == old(p0) && WeightProg(p) < WeightProg(p0) && Keeps(p0, p)
      ensures p == WithoutPointee(old(p), i, pos) && (good ==> Good(tgt, p))
    {
      var arg := At(p[i].args, pos);
      var at, gone := ResultsBefore(p[i].args, pos), NumResults(arg.res.value);
      var nothing := PointerArg(arg.typ, 0, 0, None);
      RewriteWeight(p, i, pos, nothing, at, gone);
      RewriteMetas(p, i, pos, nothing, at, gone);
      WeightPositive(arg.res.value);
      SameWeightProg(p, p0, i);
      ArgsMetas(p0, i, p[i].args);
      SizesClonable(p, p0, i);
      if Clonable(p) { NullClonable(p, i, pos, nothing); }
      if good {
        CloneGood();
        NullGood(tgt, p, i, pos);
      }
      Change(Rewrite(p, i, pos, nothing, at, gone));
    }

    method MinimizeArray(pos: Pos, path: string, ghost a: Arg, ghost all: set<string>) returns (changed: bool)
      requires Open() && Has(p[i].args, pos) && Outline(At(p[i].args, pos)) == a
      requires a.GroupArg? && Below(a, path) <= all
      modifies this
      ensures !changed ==> GoesOn(old(p0), old(version), old(tried), all)
      ensures changed ==> Restarts(old(p0), old(tried), all)
      ensures ArrayHandled(pos, path, a, changed)
      decreases a, 1
    {
      var n := |At(p[i].args, pos).inner|;
      if !At(p[i].args, pos).typ.ArrayT? || n == 0 {
        return false;
      }
      changed := MinimizeElem(pos, n - 1, path, a, all);
      if !changed {
        changed := MinimizeElems(pos, n - 1, path, a, all);
      }
    }

    /** The elements below `n`, the last one first. */
    method MinimizeElems(pos: Pos, n: nat, path: string, ghost a: Arg, ghost all: set<string>) returns (changed: bool)
      requires Open() && Has(p[i].args, pos) && Outline(At(p[i].args, pos)) == a
      requires a.GroupArg? && a.typ.ArrayT? && n <= |a.inner| && Below(a, path) <= all
      requires ElemsTried(path, a.inner, MayGo(a), n, tried)
      modifies this
      ensures !changed ==> GoesOn(old(p0), old(version), old(tried), all)
      ensures !changed ==> ElemsTried(path, a.inner, MayGo(a), 0, tried)
      ensures changed ==> Restarts(old(p0), old(tried), all)
      decreases a, 1, 0
    {
      var k: nat := n;
      while k > 0
        invariant GoesOn(old(p0), old(version), old(tried), all)
        invariant Has(p[i].args, pos) && Outline(At(p[i].args, pos)) == a && k <= |a.inner|
        invariant ElemsTried(path, a.inner, MayGo(a), k, tried)
      {
        k := k - 1;
        changed := MinimizeElem(pos, k, path, a, all);
        if changed {
          return;
        }
      }
      return false;
    }

    /** An element may be taken out. */
    ghost predicate MayGo(a: Arg) {
      !crash && MayDrop(a)
    }

    /** One element: its removal, or else its own minimization. */
    method MinimizeElem(pos: Pos, k: nat, path: string, ghost a: Arg, ghost all: set<string>) returns (changed: bool)
      requires Open() && Has(p[i].args, pos) && Outline(At(p[i].args, pos)) == a
      requires a.GroupArg? && a.typ.ArrayT? && k < |a.inner| && Below(a, path) <= all
      requires ElemsTried(path, a.inner, MayGo(a), k + 1, tried)
      modifies this
      ensures !changed ==> GoesOn(old(p0), old(version), old(tried), all)
      ensures !changed ==> Has(p[i].args, pos) && Outline(At(p[i].args, pos)) == a
      ensures !changed ==> ElemsTried(path, a.inner, MayGo(a), k, tried)
      ensures changed ==> Restarts(old(p0), old(tried), all)
      ensures MayGo(a) && ElemPath(path, k) !in old(tried) ==>
        changed && ElemPath(path, k) in tried && Tried(WithoutElem(old(p), i, pos, k))
      decreases a, 0, 1
    {
      var arg, elemPath := At(p[i].args, pos), ElemPath(path, k);
      ElemPaths(a, path, k, all);
      if !crash && elemPath !in tried && (arg.typ.akind.RandLen? || |arg.inner| > arg.typ.akind.begin) {
        TryElem(pos, k, elemPath, all);
        return true;
      }
      changed := DoKid(pos, k, elemPath, a, all);
      if !changed {
        ElemsMore(path, a.inner, MayGo(a), k, old(tried), tried);
      }
    }

    /** The member at `k`, which stays where it is unless something was committed. */
    method DoKid(pos: Pos, k: nat, path: string, ghost a: Arg, ghost all: set<string>) returns (changed: bool)
      requires Open() && Has(p[i].args, pos) && Outline(At(p[i].args, pos)) == a
      requires a.GroupArg? && k < |a.inner| && Paths(a.inner[k], path) <= all
      modifies this
      ensures !changed ==> GoesOn(old(p0), old(version), old(tried), all)
      ensures !changed ==> Has(p[i].args, pos) && Outline(At(p[i].args, pos)) == a
      ensures !changed ==> PathTo(path, a.inner[k]) in tried
      ensures changed ==> Restarts(old(p0), old(tried), all)
      decreases a, 0, 0
    {
      KidsOutline(At(p[i].args, pos));
      AtKid(p[i].args, pos, k);
      changed := Do(pos + [k], path, a.inner[k], all);
      if !changed {
        StillThere(p[i].args, old(p0)[i].args, pos, a, old(p)[i].args);
      }
    }

    method TryElem(pos: Pos, k: nat, elemPath: string, ghost all: set<string>)
      requires Open() && Has(p[i].args, pos) && At(p[i].args, pos).GroupArg? && k < |At(p[i].args, pos).inner|
      requires elemPath in all && elemPath !in tried && MayDrop(At(p[i].args, pos))
      modifies this
      ensures Restarts(old(p0), old(tried), all)
      ensures elemPath in tried && Tried(WithoutElem(old(p), i, pos, k))
    {
      RemoveElem(pos, k);
      Settle(elemPath, all);
    }

    /** Takes one element out of an array. */
    method RemoveElem(pos: Pos, k: nat)
      requires Open() && Has(p[i].args, pos) && At(p[i].args, pos).GroupArg? && k < |At(p[i].args, pos).inner|
      requires MayDrop(At(p[i].args, pos))
      modifies this`p, this`p0
      ensures p0 == old(p0) && WeightProg(p) < WeightProg(p0) && Keeps(p0, p)
      ensures p == WithoutElem(old(p), i, pos, k) && (good ==> Good(tgt, p))
    {
      var args := p[i].args;
      var arg := At(args, pos);
      AtKid(args, pos, k);
      var at, gone := ResultsBefore(args, pos + [k]), NumResults(arg.inner[k]);
      var less := GroupArg(arg.typ, arg.inner[..k] + arg.inner[k + 1..]);
      WeightDrop(arg.inner, k);
      WeightPositive(arg.inner[k]);
      RewriteWeight(p, i, pos, less, at, gone);
      RewriteMetas(p, i, pos, less, at, gone);
      SameWeightProg(p, p0, i);
      ArgsMetas(p0, i, p[i].args);
      SizesClonable(p, p0, i);
      if Clonable(p) { ElemClonable(p, i, pos, k); }
      if good {
        CloneGood();
        ElemGood(tgt, p, i, pos, k);
      }
      Change(Rewrite(p, i, pos, less, at, gone));
    }

    /** Replaces an argument by a lighter one and asks the predicate. */
    method TryArg(pos: Pos, b: Arg) returns (accepted: bool)
      requires Open() && Has(p[i].args, pos) && Weight(b) < Weight(At(p[i].args, pos))
      requires NoNewRefs(Results(At(p[i].args, pos)), Results(b))
      requires good ==> Fine(tgt, b, At(p[i].args, pos).typ) && Size(b) <= Size(At(p[i].args, pos))
      modifies this`p, this`p0, this`shared, this`version, this`asked
      ensures p == WithArgs(old(p), i, Put(old(p)[i].args, pos, b))
      ensures !accepted ==> !shared && p0 == old(p0) && version == old(version)
      ensures accepted == pred(p, callIndex)
      ensures accepted ==> shared && p0 == p && pred(p0, callIndex)
      ensures accepted ==> WeightProg(p0) < WeightProg(old(p0)) && Keeps(old(p0), p0)
      ensures Sane()
    {
      var args := p[i].args;
      WeightPut(args, pos, b);
      SameWeightProg(p, p0, i);
      ArgsWeight(p, i, Put(args, pos, b));
      ArgsMetas(p, i, Put(args, pos, b));
      ArgsMetas(p0, i, p[i].args);
      SizesClonable(p, p0, i);
      if Clonable(p) { PutClonable(p, i, pos, b); }
      if good {
        CloneGood();
        PutGood(tgt, p, i, pos, b);
      }
      Change(WithArgs(p, i, Put(args, pos, b)));
      accepted := Ask();
      if accepted {
        Commit();
      }
    }

    /** Defaults may stand where the argument does. */
    lemma DefaultsFine(pos: Pos)
      requires Open() && Has(p[i].args, pos) && (At(p[i].args, pos).ConstArg? || At(p[i].args, pos).ResultArg?)
      ensures var a := At(p[i].args, pos);
        good ==>
          && (a.ConstArg? && (a.typ.IntT? || a.typ.FlagsT? || a.typ.ProcT?) ==>
               Fine(tgt, ConstArg(a.typ, DefaultVal(a.typ)), a.typ))
          && (a.ResultArg? ==> Fine(tgt, DefaultResult(a), a.typ))
    {
      if good {
        CloneGood();
        GoodAt(tgt, p, i, pos);
        DefaultFine(tgt, At(p[i].args, pos));
      }
    }

    method MinimizeInt(pos: Pos, path: string, ghost all: set<string>) returns (changed: bool)
      requires Open() && Has(p[i].args, pos)
      requires var a := At(p[i].args, pos); a.ConstArg? && (a.typ.IntT? || a.typ.FlagsT? || a.typ.ProcT?)
      requires path in all
      modifies this
      ensures !changed ==> GoesOn(old(p0), old(version), old(tried), all) && p == old(p)
      ensures changed ==> Restarts(old(p0), old(tried), all)
      ensures IntHandled(pos, changed)
    {
      var args := p[i].args;
      var a := At(args, pos);
      if crash || a.val == DefaultVal(a.typ) {
        return false;
      }
      var b := ConstArg(a.typ, DefaultVal(a.typ));
      DefaultsFine(pos);
      changed := TryArg(pos, b);
      if changed {
        tried := tried + {path};
      } else {
        PutPut(args, pos, b, a);
        PutSame(args, pos);
        Change(WithArgs(p, i, Put(p[i].args, pos, a)));
        assert p[i] == old(p)[i];
        assert p == old(p);
      }
    }

    method MinimizeResult(pos: Pos, path: string, ghost all: set<string>) returns (changed: bool)
      requires Open() && Has(p[i].args, pos) && At(p[i].args, pos).ResultArg? && path in all && path !in tried
      modifies this
      ensures !changed ==> GoesOn(old(p0), old(version), old(tried), all) && p == old(p)
      ensures changed ==> Restarts(old(p0), old(tried), all)
      ensures ResultHandled(pos, changed)
    {
      var a := At(p[i].args, pos);
      if crash || a.ref.None? {
        return false;
      }
      DefaultsFine(pos);
      var accepted := TryArg(pos, DefaultResult(a));
      if !accepted {
        PutPut(old(p)[i].args, pos, DefaultResult(a), a);
        Change(WithArgs(p, i, Put(p[i].args, pos, ResultArg(a.typ, a.ref, a.opDiv, a.opAdd, 0))));
      }
      tried := tried + {path};
      return true;
    }

    /** Cuts the data of the clone from `len` to `n` bytes; undoes it if the predicate rejects. */
    method TryLength(ghost was: Program, pos: Pos, data: seq<Byte>, len: nat, n: nat) returns (accepted: bool)
      requires !shared && IsData(was, i, pos) && data == DataAt(was, i, pos) && n <= len <= |data|
      requires p == Cut(was, i, pos, len) || (p == was && len == |data|)
      requires good ==> Good(tgt, Cut(was, i, pos, n)) && AskedValid()
      modifies this`p, this`p0, this`asked
      ensures good ==> AskedValid()
      ensures p0 == old(p0) && accepted == pred(Cut(was, i, pos, n), callIndex)
      ensures p == Cut(was, i, pos, if accepted then n else len)
    {
      CutFrom(was, p, i, pos, len, n);
      Change(WithArgs(p, i, WithData(p[i].args, pos, data[..n])));
      accepted := Ask();
      if !accepted {
        CutFrom(was, p, i, pos, n, len);
        Change(WithArgs(p, i, WithData(p[i].args, pos, data[..len])));
      }
    }

    /** Whatever length is left, the program is good. */
    ghost predicate CutsGood(q: Program, pos: Pos, minLen: nat)
      requires IsData(q, i, pos)
    {
      forall n: nat | minLen <= n <= |DataAt(q, i, pos)| :: Good(tgt, Cut(q, i, pos, n))
    }

    /** The search for a shorter length.  The clone is what the predicate accepted last; without
        `crash` the length reached is the smallest allowed or one byte less was rejected. */
    method Shorten(pos: Pos, data: seq<Byte>, minLen: nat) returns (len: nat)
      requires !shared && IsData(p, i, pos) && data == DataAt(p, i, pos)
      requires good ==> CutsGood(p, pos, minLen) && AskedValid()
      modifies this`p, this`p0, this`asked
      ensures good ==> AskedValid()
      ensures p0 == old(p0) && len <= |data|
      ensures len < |data| ==> p == Cut(old(p), i, pos, len) && pred(p, callIndex) && (good ==> Good(tgt, p))
      ensures len == |data| ==> p == Cut(old(p), i, pos, len) || p == old(p)
      ensures Shortened(old(p), pos, minLen, len)
    {
      len := |data|;
      var step: int := len - minLen;
      while len > minLen && step > 0
        invariant len <= |data| && p0 == old(p0) && (good ==> AskedValid())
        invariant p == Cut(old(p), i, pos, len) || (p == old(p) && len == |data|)
        invariant len < |data| ==> pred(p, callIndex) && minLen <= len
        invariant crash ==> step == |data| - minLen
        invariant crash && len < |data| ==> len == minLen && pred(Cut(old(p), i, pos, minLen), callIndex)
        invariant !crash && step <= 0 ==> len <= minLen || !pred(Cut(old(p), i, pos, len - 1), callIndex)
        decreases step + len
      {
        if len - step >= minLen {
          var accepted := TryLength(old(p), pos, data, len, len - step);
          if accepted {
            len := len - step;
            continue;
          }
        }
        step := step / 2;
        if crash {
          break;
        }
      }
    }

    lemma BufferGood(pos: Pos)
      requires Open() && IsData(p, i, pos) && IsBlobArg(At(p[i].args, pos))
      ensures good ==> CutsGood(p, pos, At(p[i].args, pos).typ.rangeBegin)
    {
      if good {
        var a := At(p[i].args, pos);
        CloneGood();
        forall n: nat | a.typ.rangeBegin <= n <= |a.data|
          ensures Good(tgt, Cut(p, i, pos, n))
        {
          CutGood(tgt, p, i, pos, n);
        }
      }
    }

    method CommitCut(ghost was: Program, pos: Pos, len: nat, path: string, ghost all: set<string>)
      requires !shared && !panicked && Sane() && SameButSizes(was, p0, i) && IsData(was, i, pos)
      requires len < |DataAt(was, i, pos)| && p == Cut(was, i, pos, len)
      requires pred(p, callIndex) && path in all && (good ==> Good(tgt, p))
      modifies this`p0, this`shared, this`version, this`tried
      ensures Restarts(old(p0), old(tried), all) && shared && p0 == p
    {
      CutWeight(was, p0, i, pos, DataAt(was, i, pos)[..len], p);
      Commit();
      tried := tried + {path};
    }

    method MinimizeBuffer(pos: Pos, path: string, ghost all: set<string>) returns (changed: bool)
      requires Open() && IsData(p, i, pos) && path in all
      modifies this
      ensures !changed ==> GoesOn(old(p0), old(version), old(tried), all)
      ensures changed ==> Restarts(old(p0), old(tried), all)
      ensures DataHandled(pos, changed)
    {
      var a := At(p[i].args, pos);
      var t := a.typ;
      if !t.BufferT? || (t.kind != BlobRand && t.kind != BlobRange) || t.com.dir == DirOut {
        return false;
      }
      BufferGood(pos);
      var len := Shorten(pos, a.data, t.rangeBegin);
      if len == |a.data| {
        CutNothing(old(p), i, pos);
        return false;
      }
      CommitCut(old(p), pos, len, path, all);
      return true;
    }
  }

  /** An array of which an element may be taken out. */
  predicate MayDrop(a: Arg) {
    a.GroupArg? && a.typ.ArrayT? && (a.typ.akind.RandLen? || |a.inner| > a.typ.akind.begin)
  }

  /** The program with the pointer at `pos` made null. */
  function WithoutPointee(p: Program, i: nat, pos: Pos): Program
    requires i < |p| && Has(p[i].args, pos) && At(p[i].args, pos).PointerArg? && At(p[i].args, pos).res.Some?
  {
    var a := At(p[i].args, pos);
    Rewrite(p, i, pos, PointerArg(a.typ, 0, 0, None), ResultsBefore(p[i].args, pos), NumResults(a.res.value))
  }

  /** The program without element `k` of the array at `pos`. */
  function WithoutElem(p: Program, i: nat, pos: Pos, k: nat): Program
    requires i < |p| && Has(p[i].args, pos) && At(p[i].args, pos).GroupArg? && k < |At(p[i].args, pos).inner|
  {
    var a := At(p[i].args, pos);
    AtKid(p[i].args, pos, k);
    Rewrite(p, i, pos, GroupArg(a.typ, a.inner[..k] + a.inner[k + 1..]), ResultsBefore(p[i].args, pos + [k]),
        NumResults(a.inner[k]))
  }

  predicate IsData(p: Program, i: nat, pos: Pos) {
    i < |p| && Has(p[i].args, pos) && At(p[i].args, pos).DataArg?
  }

  function DataAt(p: Program, i: nat, pos: Pos): seq<Byte>
    requires IsData(p, i, pos)
  {
    At(p[i].args, pos).data
  }

  /** The program with `n` bytes of data left and sizes assigned. */
  function Cut(p: Program, i: nat, pos: Pos, n: nat): Program
    requires IsData(p, i, pos) && n <= |DataAt(p, i, pos)|
  {
    WithArgs(p, i, WithData(p[i].args, pos, DataAt(p, i, pos)[..n]))
  }

  /** Cutting what was cut before gives the same as cutting the original. */
  lemma {:induction false} CutFrom(was: Program, p: Program, i: nat, pos: Pos, len: nat, n: nat)
    requires IsData(was, i, pos) && len <= |DataAt(was, i, pos)| && n <= |DataAt(was, i, pos)|
    requires p == Cut(was, i, pos, len) || (p == was && len == |DataAt(was, i, pos)|)
    ensures IsData(p, i, pos) &&
        WithArgs(p, i, WithData(p[i].args, pos, DataAt(was, i, pos)[..n])) == Cut(was, i, pos, n)
  {
    var x, data := was[i].args, DataAt(was, i, pos);
    DataStart(x, pos);
    assert data[..|data|] == data;
    if p == Cut(was, i, pos, len) {
      DataStep(x, x, pos, data, data[..len]);
    }
    DataStep(x, p[i].args, pos, data[..len], data[..n]);
  }

  /** Assigning sizes alone keeps the outline. */
  lemma {:induction false} CutNothing(p: Program, i: nat, pos: Pos)
    requires IsData(p, i, pos)
    ensures SameButSizes(Cut(p, i, pos, |DataAt(p, i, pos)|), p, i)
  {
    var data := DataAt(p, i, pos);
    assert data[..|data|] == data;
    PutSame(p[i].args, pos);
    AssignKeepsOutline(p[i].args);
  }

  /** Less data weighs less. */
  lemma {:induction false} CutWeight(p: Program, p0: Program, i: nat, pos: Pos, data: seq<Byte>, q: Program)
    requires SameButSizes(p, p0, i) && Has(p[i].args, pos) && At(p[i].args, pos).DataArg?
    requires |data| < |At(p[i].args, pos).data|
    requires q == WithArgs(p, i, WithData(p[i].args, pos, data))
    ensures WeightProg(q) < WeightProg(p0) && Keeps(p0, q)
  {
    var d := DataArg(At(p[i].args, pos).typ, data, At(p[i].args, pos).outSize);
    var cut := Put(p[i].args, pos, d);
    WeightPut(p[i].args, pos, d);
    AssignKeepsOutline(cut);
    SameWeight(cut, AssignSizes(cut));
    ArgsWeight(p, i, AssignSizes(cut));
    SameWeightProg(p, p0, i);
    ArgsMetas(p, i, AssignSizes(cut));
    ArgsMetas(p0, i, p[i].args);
    SizesClonable(p, p0, i);
    if Clonable(p) {
      PutClonable(p, i, pos, d);
      SizesClonable(q, WithArgs(p, i, cut), i);
    }
  }

  /** Paths strictly below an argument whose own path is `path`. */
  function Below(a: Arg, path: string): set<string> {
    match a
    case PointerArg(_, _, _, res) => if res.Some? then {path + "->"} + Paths(res.value, path) else {}
    case UnionArg(_, option) => Paths(option, path)
    case GroupArg(t, inner) => PathsSeq(inner, path, !t.ArrayT?, 0)
    case _ => {}
  }

  lemma {:induction false} ElemPaths(a: Arg, path: string, k: nat, all: set<string>)
    requires a.GroupArg? && a.typ.ArrayT? && k < |a.inner| && Below(a, path) <= all
    ensures ElemPath(path, k) in all && Paths(a.inner[k], ElemPath(path, k)) <= all
  {
    PathsAt(a.inner, path, false, 0, k);
  }

  /** Arguments of the same outline have the same positions. */
  lemma {:induction false} StillThere(x: seq<Arg>, y: seq<Arg>, pos: Pos, a: Arg, z: seq<Arg>)
    requires OutlineSeq(x) == OutlineSeq(y) == OutlineSeq(z) && Has(z, pos) && Outline(At(z, pos)) == a
    ensures Has(x, pos) && Outline(At(x, pos)) == a
  {
    AtOutline(x, pos);
    AtOutline(z, pos);
  }

  // ----- the whole program -----

  /** How minimization may end: Clone may dereference a missing referent, and the source has two
      more panics. */
  datatype Outcome = Done(p: Program, callIndex: int) | BadCallIndex | CloneFails | Panic

  /** The result is the original, or was accepted exactly as it is. */
  ghost predicate Accepted(pred: Pred, orig: Program, index: int, p: Program, callIndex: int) {
    (p == orig && callIndex == index) || pred(p, callIndex)
  }

  /** The index still names the call. */
  ghost predicate Names(orig: Program, index: int, p: Program, callIndex: int) {
    if index == -1 then callIndex == -1
    else 0 <= index < |orig| && 0 <= callIndex < |p| && p[callIndex].meta == orig[index].meta
  }

  /** The program and its index once the calls below `n` were tried, the last one first. */
  function Trimmed(p: Program, index: int, n: nat, pred: Pred): (r: (Program, int))
    requires n <= |p|
    ensures |r.0| <= |p|
    decreases n
  {
    if n == 0 then (p, index)
    else if n - 1 == index then Trimmed(p, index, n - 1, pred)
    else
      var q, next := RemoveCall(p, n - 1), After(index, n - 1);
      if pred(q, next) then Trimmed(q, next, n - 1, pred) else Trimmed(p, index, n - 1, pred)
  }

  /** The index without call `c`. */
  function After(index: int, c: nat): int {
    if c < index then index - 1 else index
  }

  /** Nothing is removed exactly if the predicate rejects the removal of every single call. */
  lemma {:induction false} NothingRemovedIff(p: Program, index: int, n: nat, pred: Pred)
    requires n <= |p|
    ensures |Trimmed(p, index, n, pred).0| == |p| <==>
      forall c :: 0 <= c < n && c != index ==> !pred(RemoveCall(p, c), After(index, c))
    ensures |Trimmed(p, index, n, pred).0| == |p| ==> Trimmed(p, index, n, pred) == (p, index)
    decreases n
  {
    if n > 0 && (n - 1 == index || !pred(RemoveCall(p, n - 1), After(index, n - 1))) {
      NothingRemovedIff(p, index, n - 1, pred);
    }
  }

  lemma {:induction false} NamesAfter(p: Program, index: int, c: nat)
    requires c < |p| && c != index && (index == -1 || 0 <= index < |p|)
    ensures Names(p, index, RemoveCall(p, c), After(index, c))
  {
  }

  lemma {:induction false} NamesOn(p: Program, index: int, q: Program, next: int, r: Program, last: int)
    requires Names(p, index, q, next) && Names(q, next, r, last)
    ensures Names(p, index, r, last)
  {
  }

  /** The result was accepted as it is. */
  lemma {:induction false} TrimmedAccepted(p: Program, index: int, n: nat, pred: Pred)
    requires n <= |p|
    ensures Accepted(pred, p, index, Trimmed(p, index, n, pred).0, Trimmed(p, index, n, pred).1)
    decreases n
  {
    if n > 0 {
      var q, next := RemoveCall(p, n - 1), After(index, n - 1);
      if n - 1 == index || !pred(q, next) {
        TrimmedAccepted(p, index, n - 1, pred);
      } else {
        TrimmedAccepted(q, next, n - 1, pred);
      }
    }
  }

  /** The index names the same call. */
  lemma {:induction false} TrimmedNames(p: Program, index: int, n: nat, pred: Pred)
    requires n <= |p| && (index == -1 || 0 <= index < |p|)
    ensures Names(p, index, Trimmed(p, index, n, pred).0, Trimmed(p, index, n, pred).1)
    decreases n
  {
    if n > 0 {
      var q, next := RemoveCall(p, n - 1), After(index, n - 1);
      if n - 1 == index || !pred(q, next) {
        TrimmedNames(p, index, n - 1, pred);
      } else {
        NamesAfter(p, index, n - 1);
        TrimmedNames(q, next, n - 1, pred);
        NamesOn(p, index, q, next, Trimmed(q, next, n - 1, pred).0, Trimmed(q, next, n - 1, pred).1);
      }
    }
  }

  /** A clone without call `c`. */
  method TryRemoval(p: Program, index: int, c: nat, ghost tgt: Target) returns (ok: bool, q: Program, next: int)
    requires c < |p|
    ensures ok == Clonable(p)
    ensures ok ==> q == RemoveCall(p, c) && next == After(index, c) && Clonable(q)
    ensures ok && Good(tgt, p) ==> Good(tgt, q) && ValidProg(tgt, q)
  {
    q, next := p, After(index, c);
    var clone := CloneProg(p);
    ok := clone.Some?;
    if ok {
      RemoveCallClonable(p, c);
      q := RemoveCall(clone.value, c);
      if Good(tgt, p) {
        RemoveCallGood(tgt, p, c);
        IsValid(tgt, q);
      }
    }
  }

  /** A predicate that accepts everything leaves nothing but the named call. */
  lemma {:induction false} AllRemoved(p: Program, index: int, n: nat, pred: Pred)
    requires n <= |p| && -1 <= index <= n && |p| == n + (if index == n then 1 else 0)
    requires forall q, k :: pred(q, k)
    ensures |Trimmed(p, index, n, pred).0| == if index == -1 then 0 else 1
    decreases n
  {
    if n == 0 {
    } else if n - 1 == index {
      AllRemoved(p, index, n - 1, pred);
    } else {
      AllRemoved(RemoveCall(p, n - 1), After(index, n - 1), n - 1, pred);
    }
  }

  /** removeCalls.  Every call but the named one is tried.  A program without another call is not
      cloned. */
  method RemoveCalls(orig: Program, index: int, pred: Pred, ghost tgt: Target)
    returns (ok: bool, p: Program, callIndex: int, ghost asked: set<Program>)
    requires index == -1 || 0 <= index < |orig|
    ensures Good(tgt, orig) ==> Good(tgt, p) && forall q :: q in asked ==> ValidProg(tgt, q)
    ensures (!Clonable(orig) ==> asked == {}) && (p == orig || p in asked)
    ensures ok <==> Clonable(orig) || |orig| == if index == -1 then 0 else 1
    ensures ok ==> Accepted(pred, orig, index, p, callIndex) && Names(orig, index, p, callIndex)
    ensures ok ==> (Clonable(p) <==> Clonable(orig))
    ensures ok ==> (p, callIndex) == Trimmed(orig, index, |orig|, pred)
  {
    p, callIndex, asked := orig, index, {};
    var i: nat := |p|;
    while i > 0
      invariant i <= |p| && (Good(tgt, orig) ==> Good(tgt, p) && forall q :: q in asked ==> ValidProg(tgt, q))
      invariant (!Clonable(orig) ==> asked == {}) && (p == orig || p in asked)
      invariant Trimmed(p, callIndex, i, pred) == Trimmed(orig, index, |orig|, pred)
      invariant if Clonable(orig) then Clonable(p)
                else p == orig && callIndex == index && (i == |p| || (i == |p| - 1 && i == index))
    {
      i := i - 1;
      if i != callIndex {
        var cloned, q, next := TryRemoval(p, callIndex, i, tgt);
        if !cloned {
          return false, p, callIndex, asked;
        }
        asked := asked + {q};
        if pred(q, next) {
          p, callIndex := q, next;
        }
      }
    }
    ok := true;
    TrimmedAccepted(orig, index, |orig|, pred);
    TrimmedNames(orig, index, |orig|, pred);
  }

  /** The paths of a call that may be tried. */
  function CallPaths(args: seq<Arg>): set<string> {
    set j, x | 0 <= j < |args| && x in Paths(Outline(args[j]), Dec(j)) :: x
  }

  /** The paths of the first `n` members were tried. */
  ghost predicate MembersTried(path: string, members: seq<Arg>, n: nat, tried: set<string>)
    requires n <= |members|
  {
    forall k :: 0 <= k < n ==> PathTo(path, members[k]) in tried
  }

  lemma {:induction false} MembersMore(path: string, members: seq<Arg>, n: nat, before: set<string>,
                                       after: set<string>)
    requires n < |members| && MembersTried(path, members, n, before) && before <= after
    requires PathTo(path, members[n]) in after
    ensures MembersTried(path, members, n + 1, after)
  {
  }

  /** The paths of the elements from `n` on were tried, and those of their removals if `drop`. */
  ghost predicate ElemsTried(path: string, elems: seq<Arg>, drop: bool, n: nat, tried: set<string>) {
    forall k :: n <= k < |elems| ==>
      PathTo(ElemPath(path, k), elems[k]) in tried && (drop ==> ElemPath(path, k) in tried)
  }

  lemma {:induction false} ElemsMore(path: string, elems: seq<Arg>, drop: bool, n: nat, before: set<string>,
                                     after: set<string>)
    requires n < |elems| && ElemsTried(path, elems, drop, n + 1, before) && before <= after
    requires PathTo(ElemPath(path, n), elems[n]) in after && (drop ==> ElemPath(path, n) in after)
    ensures ElemsTried(path, elems, drop, n, after)
  {
  }

  /** The paths of the first `n` arguments were tried. */
  ghost predicate AllTried(args: seq<Arg>, n: nat, tried: set<string>)
    requires n <= |args|
  {
    forall j :: 0 <= j < n ==> PathTo(Dec(j), args[j]) in tried
  }

  lemma {:induction false} TriedMore(args: seq<Arg>, n: nat, before: set<string>, after: set<string>)
    requires n < |args| && AllTried(args, n, before) && before <= after && PathTo(Dec(n), Outline(args[n])) in after
    ensures AllTried(args, n + 1, after)
  {
  }

  lemma {:induction false} PathsLead(a: Arg, path: string, x: string)
    requires x in Paths(a, path)
    ensures path + "-" <= x
    decreases a, 1
  {
    var here := PathTo(path, a);
    if x != here {
      match a
      case PointerArg(_, _, _, res) => if x != here + "->" { PathsLead(res.value, here, x); }
      case UnionArg(_, option) => PathsLead(option, here, x);
      case GroupArg(t, inner) => PathsSeqLead(inner, here, !t.ArrayT?, 0, x);
    }
  }

  lemma {:induction false} PathsSeqLead(args: seq<Arg>, path: string, fields: bool, i: nat, x: string)
    requires x in PathsSeq(args, path, fields, i)
    ensures path <= x
    decreases args, 0
  {
    var p := if fields then path else ElemPath(path, i);
    if x in Paths(args[0], p) {
      PathsLead(args[0], p, x);
    } else if x != p {
      PathsSeqLead(args[1..], path, fields, i + 1, x);
    }
  }

  lemma {:induction false} FirstDash(s: string, t: string, x: string)
    requires IsIdent(t) && s + "-" <= x && t + "-" <= x
    ensures |t| <= |s|
  {
    assert x[|s|] == '-';
    assert forall n :: 0 <= n < |t| ==> x[n] == t[n];
  }

  /** Paths of different arguments are different. */
  lemma {:induction false} OtherPath(a: Arg, j: nat, k: nat, x: string)
    requires x in Paths(a, Dec(j)) && Dec(k) + "-" <= x
    ensures j == k
  {
    PathsLead(a, Dec(j), x);
    FirstDash(Dec(j), Dec(k), x);
    FirstDash(Dec(k), Dec(j), x);
    assert Dec(j) == x[..|Dec(j)|] == Dec(k);
    DigitsRoundTrip(j, 10);
    DigitsRoundTrip(k, 10);
  }

  lemma {:induction false} PathsTellMore(p0: Program, i: nat, j: nat, pred: Pred, index: int, crash: bool,
                                     before: set<string>, after: set<string>)
    requires i < |p0| && j < |p0[i].args| && PathsTell(p0, i, pred, index, crash, before)
    requires after <= before + Paths(Outline(p0[i].args[j]), Dec(j)) && Unmoved(p0, i, j, pred, index, crash)
    ensures PathsTell(p0, i, pred, index, crash, after)
  {
    forall k | 0 <= k < |p0[i].args| && TopTried(p0[i].args[k], k, after)
      ensures Unmoved(p0, i, k, pred, index, crash)
    {
      if k != j {
        var a, path := Outline(p0[i].args[j]), PathTo(Dec(k), p0[i].args[k]);
        if path in Paths(a, Dec(j)) { OtherPath(a, j, k, path); }
        if path + "->" in Paths(a, Dec(j)) { OtherPath(a, j, k, path + "->"); }
        assert TopTried(p0[i].args[k], k, before);
      }
    }
  }

  /** One pass over the arguments of a call: it changes something, or has tried every argument. */
  method Pass(ctx: Ctx, ghost orig: Program) returns (changed: bool)
    requires ctx.Open() && ctx.p == ctx.p0
    modifies ctx
    requires ctx.i < |orig| && ctx.Stands(orig)
    ensures !changed ==> ctx.GoesOn(old(ctx.p0), old(ctx.version), old(ctx.tried), CallPaths(old(ctx.p0)[ctx.i].args))
    ensures !changed ==> AllTried(old(ctx.p0)[ctx.i].args, |old(ctx.p0)[ctx.i].args|, ctx.tried)
    ensures changed ==> ctx.Restarts(old(ctx.p0), old(ctx.tried), CallPaths(old(ctx.p0)[ctx.i].args))
    ensures ctx.Stands(orig)
  {
    ghost var args := ctx.p[ctx.i].args;
    ghost var all := CallPaths(args);
    for j := 0 to |ctx.p[ctx.i].args|
      invariant ctx.GoesOn(old(ctx.p0), old(ctx.version), old(ctx.tried), all) &&
          OutlineSeq(ctx.p[ctx.i].args) == OutlineSeq(args)
      invariant ctx.Stands(orig)
      invariant AllTried(args, j, ctx.tried)
    {
      assert Outline(ctx.p[ctx.i].args[j]) == OutlineSeq(args)[j] == Outline(args[j]);
      ghost var before := ctx.tried;
      changed := ctx.Argument(orig, j, Outline(args[j]));
      assert Paths(Outline(args[j]), Dec(j)) <= all;
      if changed {
        return;
      }
      TriedMore(args, j, before, ctx.tried);
    }
    return false;
  }

  lemma {:induction false} FewerUntried(all: set<string>, before: set<string>, after: set<string>)
    requires before <= after && exists x :: x in all && x in after && x !in before
    ensures |all - after| < |all - before|
  {
    var x :| x in all && x in after && x !in before;
    assert all - after <= all - before - {x};
    Fewer(all - after, all - before - {x});
  }

  lemma {:induction false} Fewer(a: set<string>, b: set<string>)
    requires a <= b
    ensures |a| <= |b|
  {
    assert b == a + (b - a);
  }

  /** The next start: a lighter program, or the same one with fewer paths of call `i` untried. */
  ghost predicate Lighter(p: Program, tried: set<string>, q: Program, after: set<string>, i: nat)
    requires i < |p|
  {
    WeightProg(q) < WeightProg(p) || (q == p && |CallPaths(p[i].args) - after| < |CallPaths(p[i].args) - tried|)
  }

  /** Nothing is left to do for call `i`. */
  ghost predicate Settled(p: Program, i: nat, pred: Pred, index: int, crash: bool)
    requires i < |p|
  {
    forall j :: 0 <= j < |p[i].args| ==> Unmoved(p, i, j, pred, index, crash)
  }

  lemma {:induction false} NowSettled(p: Program, i: nat, pred: Pred, index: int, crash: bool, tried: set<string>)
    requires i < |p| && PathsTell(p, i, pred, index, crash, tried) && AllTried(p[i].args, |p[i].args|, tried)
    ensures Settled(p, i, pred, index, crash)
  {
    forall j | 0 <= j < |p[i].args|
      ensures Unmoved(p, i, j, pred, index, crash)
    {
      assert TopTried(p[i].args[j], j, tried);
    }
  }

  /** One round: a clone and a pass over it. */
  method Round(ctx: Ctx, ghost orig: Program) returns (ok: bool, changed: bool)
    requires ctx.i < |ctx.p0| && !ctx.panicked && ctx.Sane()
    requires ctx.i < |orig| && ctx.Stands(orig)
    modifies ctx
    ensures ok == Clonable(old(ctx.p0)) && !ctx.panicked && ctx.Sane()
    ensures ctx.Stands(orig)
    ensures !ok ==> ctx.asked == old(ctx.asked)
    ensures !ok || !changed ==> ctx.p0 == old(ctx.p0)
    ensures ctx.p0 == old(ctx.p0) || ctx.pred(ctx.p0, ctx.callIndex)
    ensures Keeps(old(ctx.p0), ctx.p0)
    ensures ok && changed ==> Lighter(old(ctx.p0), old(ctx.tried), ctx.p0, ctx.tried, ctx.i)
    ensures ok && !changed ==> AllTried(ctx.p0[ctx.i].args, |ctx.p0[ctx.i].args|, ctx.tried)
    ensures ok && !changed && ctx.p0 == orig ==> Settled(orig, ctx.i, ctx.pred, ctx.callIndex, ctx.crash)
  {
    changed := false;
    ok := ctx.Clone();
    if ok {
      changed := Pass(ctx, orig);
      if changed && !ctx.shared {
        FewerUntried(CallPaths(ctx.p0[ctx.i].args), old(ctx.tried), ctx.tried);
      }
      if !changed && ctx.p0 == orig {
        NowSettled(orig, ctx.i, ctx.pred, ctx.callIndex, ctx.crash, ctx.tried);
      }
    }
  }

  /** Minimization of one call: rounds until one changes nothing.  It ends because every restart
      has a lighter program, or the same one with fewer paths untried.  Only the first clone may
      fail. */
  method MinimizeCall(orig: Program, index: int, i: nat, crash: bool, pred: Pred, ghost tgt: Target)
    returns (ok: bool, p: Program, panicked: bool, ghost asked: set<Program>)
    requires i < |orig|
    ensures Good(tgt, orig) ==> Good(tgt, p) && forall q :: q in asked ==> ValidProg(tgt, q)
    ensures !Clonable(orig) ==> asked == {} && p == orig
    ensures ok <==> Clonable(orig)
    ensures !panicked && (p == orig || pred(p, index)) && Keeps(orig, p) && WeightProg(p) <= WeightProg(orig)
    ensures ok ==> WeightProg(p) < WeightProg(orig) || (p == orig && Settled(p, i, pred, index, crash))
  {
    var ctx := new Ctx(orig, pred, crash, index, i, tgt);
    while true
      invariant ctx.tgt == tgt && ctx.good == Good(tgt, orig) && ctx.Sane() &&
          (!Clonable(orig) ==> ctx.asked == {} && ctx.p0 == orig)
      invariant fresh(ctx) && !ctx.panicked && (ctx.p0 == orig || (pred(ctx.p0, index) && Clonable(orig)))
      invariant Keeps(orig, ctx.p0) && ctx.Stands(orig)
      invariant ctx.pred == pred && ctx.callIndex == index && ctx.i == i && ctx.crash == crash
      decreases WeightProg(ctx.p0), if i < |ctx.p0| then |CallPaths(ctx.p0[i].args) - ctx.tried| else 0
    {
      SameLength(ctx.p0, orig);
      var changed;
      ok, changed := Round(ctx, orig);
      if !ok || !changed {
        return ok, ctx.p0, ctx.panicked, ctx.asked;
      }
    }
  }

  lemma {:induction false} SameLength(p: Program, q: Program)
    requires Metas(p) == Metas(q)
    ensures |p| == |q|
  {
    MetasLength(p);
    MetasLength(q);
  }

  lemma {:induction false} MetasLength(p: Program)
    ensures |Metas(p)| == |p|
  {
    if p != [] { MetasLength(p[1..]); }
  }

  ghost predicate AllSettled(p: Program, n: nat, pred: Pred, index: int, crash: bool) {
    forall i :: 0 <= i < n && i < |p| ==> Settled(p, i, pred, index, crash)
  }

  /** Minimization of one call after the other. */
  method MinimizeArgs(orig: Program, index: int, crash: bool, pred: Pred, ghost tgt: Target)
    returns (ok: bool, p: Program, panicked: bool, ghost asked: set<Program>)
    ensures Good(tgt, orig) ==> Good(tgt, p) && forall q :: q in asked ==> ValidProg(tgt, q)
    ensures !Clonable(orig) ==> asked == {} && p == orig
    ensures ok <==> Clonable(orig) || orig == []
    ensures !panicked && (p == orig || pred(p, index)) && Keeps(orig, p)
    ensures ok ==> WeightProg(p) < WeightProg(orig) || (p == orig && AllSettled(p, |p|, pred, index, crash))
  {
    ok, p, panicked, asked := true, orig, false, {};
    SameLength(p, orig);
    for i := 0 to |p|
      invariant |p| == |orig| && Keeps(orig, p) && (p == orig || pred(p, index)) && !panicked && ok
      invariant (i > 0 ==> Clonable(orig)) && (!Clonable(orig) ==> p == orig && asked == {})
      invariant Good(tgt, orig) ==> Good(tgt, p) && forall q :: q in asked ==> ValidProg(tgt, q)
      invariant WeightProg(p) < WeightProg(orig) || (p == orig && AllSettled(orig, i, pred, index, crash))
    {
      ghost var more;
      var was := p;
      ok, p, panicked, more := MinimizeCall(p, index, i, crash, pred, tgt);
      asked := asked + more;
      if !ok || panicked {
        return;
      }
      SameLength(p, was);
    }
  }

  /** Minimize.  It fails in Clone if and only if the given program cannot be cloned, and then at
      the first attempt; no other panic but the one for a bad argument is reachable. */
  method MinimizeProgram(orig: Program, index: int, crash: bool, pred: Pred, ghost tgt: Target)
    returns (r: Outcome, ghost asked: set<Program>)
    ensures InUse(tgt, orig) ==> forall q :: q in asked ==> ValidProg(tgt, q)
    ensures InUse(tgt, orig) && r.Done? ==> ValidProg(tgt, r.p)
    ensures r.BadCallIndex? <==> index != -1 && !(0 <= index < |orig|)
    ensures r.CloneFails? <==> !r.BadCallIndex? && !Clonable(orig)
    ensures !r.Panic?
    ensures r.Done? ==> Accepted(pred, orig, index, r.p, r.callIndex) && Names(orig, index, r.p, r.callIndex)
    ensures r.Done? ==> Clonable(r.p)
    ensures r.Done? ==>
      var (p, c) := Trimmed(orig, index, |orig|, pred);
      r.callIndex == c && (WeightProg(r.p) < WeightProg(p) || (r.p == p && AllSettled(p, |p|, pred, c, crash)))
  {
    asked := {};
    if InUse(tgt, orig) && Clonable(orig) { InUseGood(tgt, orig); }
    if index != -1 && (index < 0 || index >= |orig|) {
      return BadCallIndex, asked;
    }
    var ok, p, callIndex;
    ok, p, callIndex, asked := RemoveCalls(orig, index, pred, tgt);
    if !ok {
      return CloneFails, asked;
    }
    var panicked;
    ghost var trimmed, more := p, {};
    ok, p, panicked, more := MinimizeArgs(p, callIndex, crash, pred, tgt);
    asked := asked + more;
    if !ok {
      return CloneFails, asked;
    }
    if panicked {
      return Panic, asked;
    }
    if index != -1 {
      SameLength(p, trimmed);
      MetaAt(p, callIndex);
      MetaAt(trimmed, callIndex);
    }
    if index != -1 && (callIndex < 0 || callIndex >= |p| || p[callIndex].meta.name != orig[index].meta.name) {
      return Panic, asked;
    }
    if Good(tgt, orig) { IsValid(tgt, p); }
    return Done(p, callIndex), asked;
  }
}
