/**
  Selection of a random subset of calls for corpus rotation (prog/rotation.go).

  Random draws are arbitrary choices, so what is proved holds for every sequence of draws.
  The selection loop has no bound in the source; here it stops with `Unfinished` after
  `fuel` rounds, and every other outcome is one the source has.
 */
module Rotator {
  import R = Resources

  datatype Info = Info(ctors0: seq<R.Syscall>, ctors1: seq<R.Syscall>, uses0: seq<R.Syscall>, uses1: seq<R.Syscall>)

  datatype Config = Config(
    calls: set<R.Syscall>,
    resourceless: seq<R.Syscall>,
    uses: map<R.Syscall, seq<R.Resource>>,
    resources: map<R.Resource, Info>,
    goal: nat,
    nresourceless: nat)
  {
    /** What MakeRotator establishes: it files only the calls it was given, and wants at
        least one call and at least one call without resources. */
    predicate Valid() {
      && goal >= 1 && nresourceless >= 1
      && From(resourceless)
      && forall r :: r in resources ==>
           && From(resources[r].ctors0) && From(resources[r].ctors1)
           && From(resources[r].uses0) && From(resources[r].uses1)
    }

    predicate From(s: seq<R.Syscall>) {
      forall i :: 0 <= i < |s| ==> s[i] in calls
    }

    /** Lookup in a Go map: a missing key gives empty lists. */
    function InfoOf(r: R.Resource): (info: Info)
      ensures Valid() ==> From(info.ctors0) && From(info.ctors1) && From(info.uses0) && From(info.uses1)
    {
      if r in resources then resources[r] else Info([], [], [], [])
    }
  }

  /** How a bounded run of the selection loop ends.  `IndexPanic` takes the head of an empty
      queue, `HandledPanic` is "top queue already handled". */
  datatype Outcome = Done(calls: set<R.Syscall>) | Unfinished | IndexPanic | HandledPanic

  predicate Distinct(s: seq<R.Resource>) {
    forall i, j :: 0 <= i < j < |s| ==> s[i] != s[j]
  }

  /** Any duplicate-free listing of the resources: map order, sorting and shuffling. */
  method Listing(keys: set<R.Resource>) returns (s: seq<R.Resource>)
    ensures Distinct(s) && (forall r :: r in s <==> r in keys)
  {
    s := [];
    var todo := keys;
    while todo != {}
      invariant todo <= keys && Distinct(s) && forall r :: r in s <==> r in keys - todo
      decreases todo
    {
      var r :| r in todo;
      assert r !in s;
      todo := todo - {r};
      s := s + [r];
    }
  }

  /** Taking one resource off a queue by moving the last one to its place. */
  lemma {:induction false} TakenOut(q: seq<R.Resource>, idx: nat)
    requires Distinct(q) && idx < |q|
    ensures var s := q[idx := q[|q| - 1]][..|q| - 1];
      Distinct(s) && forall r :: r in s <==> r in q && r != q[idx]
  {
    var n := |q| - 1;
    var s := q[idx := q[n]][..n];
    forall r | r in q && r != q[idx] ensures r in s {
      var i :| 0 <= i < |q| && q[i] == r;
      if i == n { assert s[idx] == r; } else { assert s[i] == r; }
    }
    forall r | r in s ensures r in q && r != q[idx] {
      var i :| 0 <= i < |s| && s[i] == r;
      assert r == if i == idx then q[n] else q[i];
    }
  }

  /** rotatorState. */
  class State {
    const cfg: Config
    var calls: set<R.Syscall>
    var topQueue: seq<R.Resource>
    var depQueue: seq<R.Resource>
    var made: bool // the handled maps exist; writing to them before is a nil-map panic
    var topHandled: set<R.Resource>
    var depHandled: set<R.Resource>

    /** What every step keeps.  The queues hold no resource twice, the top queue none already
        handled, and a dependency is marked as handled when it is queued. */
    predicate Valid()
      reads this
    {
      && cfg.Valid()
      && calls <= cfg.calls
      && Distinct(topQueue)
      && (forall r :: r in topQueue ==> r !in topHandled)
      && Distinct(depQueue)
      && (forall r :: r in depQueue ==> r in depHandled)
      && (!made ==> calls == {} && topQueue == [] && depQueue == [])
    }

    constructor (cfg: Config)
      requires cfg.Valid()
      ensures Valid() && this.cfg == cfg && calls == {} && topQueue == [] && depQueue == []
    {
      this.cfg := cfg;
      calls, topQueue, depQueue, topHandled, depHandled := {}, [], [], {}, {};
      made := false;
    }

    /** The resources that a call uses. */
    function UsesOf(call: R.Syscall): seq<R.Resource> {
      if call in cfg.uses then cfg.uses[call] else []
    }

    /** addCall.  A new call queues exactly those of its resources that were not handled before,
        each once, behind the others, and marks them as handled. */
    method AddCall(call: R.Syscall)
      requires Valid() && made && call in cfg.calls
      modifies this`calls, this`depHandled, this`depQueue
      ensures Valid() && calls == old(calls) + {call}
      ensures call in old(calls) ==> depQueue == old(depQueue) && depHandled == old(depHandled)
      ensures call !in old(calls) ==>
        && |old(depQueue)| <= |depQueue| && depQueue[..|old(depQueue)|] == old(depQueue)
        && (forall r :: r in depQueue[|old(depQueue)|..] <==>
             r in UsesOf(call) && r !in topHandled && r !in old(depHandled))
        && (forall r :: r in depHandled <==> r in old(depHandled) || r in depQueue[|old(depQueue)|..])
    {
      if call in calls {
        return;
      }
      calls := calls + {call};
      var uses := UsesOf(call);
      ghost var queued: seq<R.Resource> := [];
      assert depQueue == old(depQueue) + [];
      for i := 0 to |uses|
        invariant Valid() && calls == old(calls) + {call}
        invariant Queued(old(depQueue), old(depHandled), uses[..i], queued)
      {
        assert uses[..i + 1] == uses[..i] + [uses[i]];
        if uses[i] !in topHandled && uses[i] !in depHandled {
          depHandled := depHandled + {uses[i]};
          depQueue := depQueue + [uses[i]];
          assert old(depQueue) + (queued + [uses[i]]) == (old(depQueue) + queued) + [uses[i]];
          queued := queued + [uses[i]];
        }
      }
      assert uses[..|uses|] == uses && depQueue[|old(depQueue)|..] == queued;
    }

    /** `queued` came to the queue: what is in `uses` and was not handled. */
    ghost predicate Queued(queue: seq<R.Resource>, handled: set<R.Resource>, uses: seq<R.Resource>,
        queued: seq<R.Resource>)
      reads this
    {
      && depQueue == queue + queued
      && (forall r :: r in queued <==> r in uses && r !in topHandled && r !in handled)
      && (forall r :: r in depHandled <==> r in handled || r in queued)
    }

    /** selectCalls; the precondition is its "will never select anything" panic. */
    method SelectCalls(among: seq<R.Syscall>, probability: nat, force: bool)
      requires Valid() && made && cfg.From(among) && (force || probability >= 2)
      modifies this`calls, this`depHandled, this`depQueue
      ensures Valid() && old(calls) <= calls && made && old(depHandled) <= depHandled && old(depQueue) <= depQueue
      ensures forall c :: c in calls ==> c in old(calls) || c in among
      ensures force && among != [] ==> exists c :: c in among && c in calls
    {
      if among == [] {
        return;
      }
      var draws: nat :| draws >= 0;
      if force {
        draws := draws + 1;
      }
      for n := 0 to draws
        invariant Valid() && made && old(calls) <= calls && old(depHandled) <= depHandled
        invariant old(depQueue) <= depQueue
        invariant forall c :: c in calls ==> c in old(calls) || c in among
        invariant n > 0 ==> exists c :: c in among && c in calls
      {
        var i :| 0 <= i < |among|;
        AddCall(among[i]);
        assert among[i] in among;
      }
    }

    /** Some call of the list was selected, if it has any. */
    ghost predicate SomeOf(list: seq<R.Syscall>)
      reads this
    {
      list == [] || exists c :: c in list && c in calls
    }

    /** A constructor was selected, a precise one if there is any. */
    ghost predicate Constructed(r: R.Resource)
      reads this
    {
      var info := cfg.InfoOf(r);
      SomeOf(info.ctors0) && (info.ctors0 == [] ==> SomeOf(info.ctors1))
    }

    /** A user was selected, a precise one if there is any. */
    ghost predicate Used(r: R.Resource)
      reads this
    {
      var info := cfg.InfoOf(r);
      SomeOf(info.uses0) && (info.uses0 == [] ==> SomeOf(info.uses1))
    }

    /** Taking one dependency off the queue and adding constructors for it.  As in the source, the
        last resort selects the precise constructors again rather than the imprecise ones. */
    method HandleDependency() returns (ghost handled: R.Resource)
      requires Valid() && made && depQueue != []
      modifies this`calls, this`depHandled, this`depQueue
      ensures Valid() && old(calls) <= calls && old(depHandled) <= depHandled
      ensures handled in old(depQueue) && Constructed(handled)
      ensures forall r :: r in old(depQueue) && r != handled ==> r in depQueue
    {
      var idx :| 0 <= idx < |depQueue|;
      var res := depQueue[idx];
      handled := res;
      TakenOut(depQueue, idx);
      depQueue := depQueue[idx := depQueue[|depQueue| - 1]][..|depQueue| - 1];
      var info := cfg.InfoOf(res);
      var nctors0 := info.ctors0 != [];
      var nctors1 := nctors0 || info.ctors1 != [];
      SelectCalls(info.ctors0, 2, true);
      if nctors0 {
        return;
      }
      SelectCalls(info.ctors1, 2, !nctors0);
      if nctors1 {
        return;
      }
      SelectCalls(info.ctors0, 2, !nctors1);
    }

    method ResetQueues()
      requires Valid() && topQueue == [] && depQueue == []
      modifies this
      ensures Valid() && made && old(calls) <= calls && topHandled == {}
      ensures forall r :: r in topQueue <==> r in cfg.resources
      ensures topQueue == [] <==> cfg.resources == map[]
    {
      topQueue := Listing(cfg.resources.Keys);
      assert topQueue == [] <==> cfg.resources == map[] by {
        assert cfg.resources.Keys == {} <==> cfg.resources == map[];
        if topQueue != [] {
          assert topQueue[0] in topQueue;
        }
        assert cfg.resources != map[] ==> exists r :: r in cfg.resources.Keys;
      }
      depQueue, topHandled, depHandled, made := [], {}, {}, true;
      SelectCalls(cfg.resourceless, cfg.nresourceless + 1, false);
    }

    /** Handling the first resource of the queue. */
    method HandleTop() returns (handledBefore: bool)
      requires Valid() && made && topQueue != []
      modifies this
      ensures Valid() && made && old(calls) <= calls && !handledBefore
      ensures topQueue == old(topQueue)[1..] && topHandled == old(topHandled) + {old(topQueue)[0]}
      ensures Constructed(old(topQueue)[0]) && Used(old(topQueue)[0])
    {
      var res := topQueue[0];
      assert res in topQueue;
      topQueue := topQueue[1..];
      handledBefore := res in topHandled;
      topHandled := topHandled + {res};
      var info := cfg.InfoOf(res);
      var nctors0 := info.ctors0 != [];
      var nctors1 := nctors0 || info.ctors1 != [];
      SelectCalls(info.ctors0, 5, true);
      SelectCalls(info.ctors1, 3, !nctors0);
      SelectCalls(info.ctors0, 2, !nctors1);
      SelectCalls(info.uses0, 20, true);
      SelectCalls(info.uses1, 2, info.uses0 == []);
    }

    /** Select.  A returned set is closed (its own least fixpoint), within the given calls and
        large enough.  The queue panic never happens, and the index panic happens exactly when
        no call uses a resource: then in the first round. */
    method Select(fuel: nat) returns (out: Outcome)
      requires Valid() && calls == {} && topQueue == [] && depQueue == []
      modifies this
      ensures !out.HandledPanic?
      ensures out.IndexPanic? <==> cfg.resources == map[] && fuel > 0
      ensures out.Done? ==>
        out.calls <= cfg.calls && |out.calls| >= cfg.goal && R.IsLeast(out.calls, out.calls)
    {
      var n := 0;
      while n < fuel
        invariant n <= fuel && Valid()
        invariant n == 0 ==> calls == {} && topQueue == [] && depQueue == []
        invariant n > 0 ==> cfg.resources != map[]
      {
        n := n + 1;
        if (depQueue == [] && |calls| >= cfg.goal) || |calls| >= 2 * cfg.goal {
          var closed, _ := R.TransitivelyEnabled(calls);
          R.LeastIdempotent(calls, closed);
          calls := closed;
          if |calls| >= cfg.goal {
            return Done(calls);
          }
        }
        if depQueue != [] {
          ghost var _ := HandleDependency();
        } else {
          if topQueue == [] {
            ResetQueues();
            if topQueue == [] {
              return IndexPanic;
            }
          }
          var handledBefore := HandleTop();
          if handledBefore {
            return HandledPanic;
          }
        }
      }
      return Unfinished;
    }
  }
}
