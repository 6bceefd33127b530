/**
  Which calls can be used at all (prog/resources.go).

  transitivelyEnabled iterates over Go maps, whose order is arbitrary; the loops below pick
  elements arbitrarily, so the contracts hold for every order.
 */
module Resources {

  datatype Resource = Resource(name: string, kind: seq<string>)

  datatype Syscall = Syscall(id: nat, inputs: seq<Resource>, outputs: seq<Resource>)

  // ----- the specification -----

  /** Some call in `s` creates a resource of kind `k`. */
  ghost predicate Creatable(s: set<Syscall>, k: string) {
    exists c, r :: c in s && r in c.outputs && k in r.kind
  }

  /** All inputs of `c` can be created by calls in `s`. */
  ghost predicate Supported(s: set<Syscall>, c: Syscall) {
    forall r :: r in c.inputs ==> Creatable(s, r.name)
  }

  /** `s` contains every enabled call it supports. */
  ghost predicate Complete(enabled: set<Syscall>, s: set<Syscall>) {
    forall c :: c in enabled && Supported(s, c) ==> c in s
  }

  /** `s` is the least set of enabled calls that is complete. */
  ghost predicate IsLeast(enabled: set<Syscall>, s: set<Syscall>) {
    s <= enabled && Complete(enabled, s) && forall t :: Complete(enabled, t) ==> s <= t
  }

  /** Every call of `s` has its inputs created within `s`. */
  ghost predicate SelfSupporting(s: set<Syscall>) {
    forall c :: c in s ==> Supported(s, c)
  }

  lemma {:induction false} CreatableMonotone(s: set<Syscall>, t: set<Syscall>, k: string)
    requires s <= t && Creatable(s, k)
    ensures Creatable(t, k)
  {
  }

  lemma {:induction false} SupportedMonotone(s: set<Syscall>, t: set<Syscall>, c: Syscall)
    requires s <= t && Supported(s, c)
    ensures Supported(t, c)
  {
    forall r | r in c.inputs ensures Creatable(t, r.name) { CreatableMonotone(s, t, r.name); }
  }

  /** There is only one least set, so the result does not depend on iteration order. */
  lemma {:induction false} LeastUnique(enabled: set<Syscall>, s: set<Syscall>, t: set<Syscall>)
    requires IsLeast(enabled, s) && IsLeast(enabled, t)
    ensures s == t
  {
  }

  /** A least set is a fixpoint, not only a pre-fixpoint. */
  lemma {:induction false} LeastSelfSupporting(enabled: set<Syscall>, s: set<Syscall>)
    requires IsLeast(enabled, s)
    ensures SelfSupporting(s)
  {
    forall c | c in s ensures Supported(s, c) {
      var t := s - {c};
      forall d | d in enabled && Supported(t, d) ensures d in s {
        SupportedMonotone(t, s, d);
      }
      assert c !in t && !(s <= t);
      assert !Complete(enabled, t);
      var d :| d in enabled && Supported(t, d) && d !in t;
      assert d == c;
      SupportedMonotone(t, s, c);
    }
  }

  /** More enabled calls never support fewer. */
  lemma {:induction false} LeastMonotone(e1: set<Syscall>, s1: set<Syscall>, e2: set<Syscall>, s2: set<Syscall>)
    requires e1 <= e2 && IsLeast(e1, s1) && IsLeast(e2, s2)
    ensures s1 <= s2
  {
    assert Complete(e1, s2);
  }

  /** Running the analysis on its own result changes nothing. */
  lemma {:induction false} LeastIdempotent(enabled: set<Syscall>, s: set<Syscall>)
    requires IsLeast(enabled, s)
    ensures IsLeast(s, s)
  {
    forall t | Complete(s, t) ensures s <= t {
      var u := s * t;
      forall c | c in enabled && Supported(u, c) ensures c in u {
        SupportedMonotone(u, s, c);
        SupportedMonotone(u, t, c);
      }
      assert Complete(enabled, u);
    }
  }

  // ----- transitivelyEnabled -----

  function KindsOf(c: Syscall): set<string> {
    set r, k | r in c.outputs && k in r.kind :: k
  }

  /** The ready test: are all inputs known to be creatable? */
  method IsReady(c: Syscall, canCreate: set<string>) returns (ready: bool)
    ensures ready <==> forall r :: r in c.inputs ==> r.name in canCreate
  {
    var i := 0;
    while i < |c.inputs|
      invariant 0 <= i <= |c.inputs|
      invariant forall k :: 0 <= k < i ==> c.inputs[k].name in canCreate
    {
      if c.inputs[i].name !in canCreate {
        assert c.inputs[i] in c.inputs;
        return false;
      }
      i := i + 1;
    }
    return true;
  }

  /** `canCreate` holds exactly what `s` can create. */
  ghost predicate Tracks(canCreate: set<string>, s: set<Syscall>) {
    forall k :: k in canCreate <==> Creatable(s, k)
  }

  lemma {:induction false} TracksAdd(canCreate: set<string>, s: set<Syscall>, c: Syscall)
    requires Tracks(canCreate, s)
    ensures Tracks(canCreate + KindsOf(c), s + {c})
  {
    forall k ensures k in canCreate + KindsOf(c) <==> Creatable(s + {c}, k) {
      if k in canCreate {
        CreatableMonotone(s, s + {c}, k);
      } else if k in KindsOf(c) {
        var r :| r in c.outputs && k in r.kind;
        assert c in s + {c};
      }
      assert Creatable(s + {c}, k) ==> Creatable(s, k) || k in KindsOf(c);
    }
  }

  /** One pass over the enabled calls, in any order. */
  method Pass(enabled: set<Syscall>, supported0: set<Syscall>, canCreate0: set<string>)
    returns (supported: set<Syscall>, canCreate: set<string>)
    requires supported0 <= enabled && Tracks(canCreate0, supported0)
    requires forall t :: Complete(enabled, t) ==> supported0 <= t
    ensures supported0 <= supported <= enabled && Tracks(canCreate, supported)
    ensures forall t :: Complete(enabled, t) ==> supported <= t
    ensures supported == supported0 ==> Complete(enabled, supported)
  {
    supported, canCreate := supported0, canCreate0;
    var todo := enabled;
    while todo != {}
      invariant todo <= enabled && supported0 <= supported <= enabled && Tracks(canCreate, supported)
      invariant forall t :: Complete(enabled, t) ==> supported <= t
      invariant supported == supported0 ==> forall c ::
          c in enabled - todo && Supported(supported, c) ==> c in supported
      decreases todo
    {
      var c :| c in todo;
      todo := todo - {c};
      if c !in supported {
        var ready := IsReady(c, canCreate);
        assert ready <==> Supported(supported, c);
        if ready {
          forall t | Complete(enabled, t) ensures c in t { SupportedMonotone(supported, t, c); }
          TracksAdd(canCreate, supported, c);
          supported, canCreate := supported + {c}, canCreate + KindsOf(c);
        }
      }
    }
  }

  /** transitivelyEnabled: the least complete set, and what it can create. */
  method TransitivelyEnabled(enabled: set<Syscall>) returns (supported: set<Syscall>, canCreate: set<string>)
    ensures IsLeast(enabled, supported)
    ensures Tracks(canCreate, supported)
  {
    supported, canCreate := {}, {};
    while true
      invariant supported <= enabled && Tracks(canCreate, supported)
      invariant forall t :: Complete(enabled, t) ==> supported <= t
      decreases |enabled - supported|
    {
      var n := |supported|;
      ghost var before := supported;
      supported, canCreate := Pass(enabled, supported, canCreate);
      SizeGrows(before, supported);
      if n == |supported| {
        return;
      }
      SizeGrows(enabled - supported, enabled - before);
    }
  }

  lemma {:induction false} SizeGrows(s: set<Syscall>, t: set<Syscall>)
    requires s <= t
    ensures |s| <= |t| && (|s| == |t| <==> s == t) && |t| == |s| + |t - s|
  {
    assert t == s + (t - s);
    assert s !! (t - s);
    assert |t| == |s| + |t - s|;
  }

  /** The first input nobody can create. */
  method FirstMissing(c: Syscall, canCreate: set<string>) returns (r: Resource)
    requires exists q :: q in c.inputs && q.name !in canCreate
    ensures r in c.inputs && r.name !in canCreate
  {
    var i := 0;
    while c.inputs[i].name in canCreate
      invariant 0 <= i < |c.inputs|
      invariant exists q :: q in c.inputs[i..] && q.name !in canCreate
      decreases |c.inputs| - i
    {
      assert c.inputs[i..] == [c.inputs[i]] + c.inputs[i + 1..];
      i := i + 1;
    }
    r := c.inputs[i];
  }

  /** The reason given for disabling a call is a real one. */
  ghost predicate Justified(supported: set<Syscall>, c: Syscall, r: Resource) {
    r in c.inputs && !Creatable(supported, r.name)
  }

  /** TransitivelyEnabledCalls: every enabled call is either supported or disabled for an input
      nobody can create, so "lost syscalls" cannot happen. */
  method TransitivelyEnabledCalls(enabled: set<Syscall>)
    returns (lost: bool, supported: set<Syscall>, disabled: map<Syscall, Resource>)
    ensures !lost && IsLeast(enabled, supported) && disabled.Keys == enabled - supported
    ensures forall c :: c in disabled ==> Justified(supported, c, disabled[c])
  {
    var canCreate;
    supported, canCreate := TransitivelyEnabled(enabled);
    disabled := Disabled(enabled, supported, canCreate);
    SizeGrows(supported, enabled);
    assert |disabled| == |disabled.Keys|;
    lost := |enabled| != |supported| + |disabled|;
  }

  method Disabled(enabled: set<Syscall>, supported: set<Syscall>, canCreate: set<string>)
    returns (disabled: map<Syscall, Resource>)
    requires Complete(enabled, supported) && Tracks(canCreate, supported)
    ensures disabled.Keys == enabled - supported
    ensures forall c :: c in disabled ==> Justified(supported, c, disabled[c])
  {
    disabled := map[];
    var todo := enabled;
    while todo != {}
      invariant todo <= enabled && disabled.Keys == enabled - supported - todo
      invariant forall c :: c in disabled ==> Justified(supported, c, disabled[c])
      decreases todo
    {
      var c :| c in todo;
      todo := todo - {c};
      if c !in supported {
        assert !Supported(supported, c);
        var r := FirstMissing(c, canCreate);
        disabled := disabled[c := r];
      }
    }
  }
}
