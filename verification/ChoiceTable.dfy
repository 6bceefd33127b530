/**
  Weighted choice of a call (prog/prio.go:210-260).  Priorities are natural weights here; the
  draws of the random source are inputs.
 */
module ChoiceTable {

  /** The weight of a call in a row: nothing if it is disabled. */
  function Effective(weights: seq<nat>, enabled: seq<bool>): (r: seq<nat>)
    requires |weights| == |enabled|
    ensures |r| == |weights|
    ensures forall j :: 0 <= j < |r| ==> r[j] == if enabled[j] then weights[j] else 0
  {
    seq(|weights|, j requires 0 <= j < |weights| => if enabled[j] then weights[j] else 0)
  }

  function Sum(w: seq<nat>): nat {
    if w == [] then 0 else Sum(w[..|w| - 1]) + w[|w| - 1]
  }

  lemma {:induction false} SumStep(w: seq<nat>, j: nat)
    requires j < |w|
    ensures Sum(w[..j + 1]) == Sum(w[..j]) + w[j]
  {
    assert w[..j + 1][..j] == w[..j];
  }

  lemma {:induction false} SumMono(w: seq<nat>, i: nat, j: nat)
    requires i <= j <= |w|
    ensures Sum(w[..i]) <= Sum(w[..j])
  {
    if i < j {
      SumMono(w, i, j - 1);
      SumStep(w, j - 1);
    }
  }

  /** `run` is the row of prefix sums of `w`. */
  predicate IsRow(run: seq<nat>, w: seq<nat>) {
    |run| == |w| && forall j :: 0 <= j < |run| ==> run[j] == Sum(w[..j + 1])
  }

  lemma {:induction false} RowMono(run: seq<nat>, w: seq<nat>, i: nat, j: nat)
    requires IsRow(run, w) && i <= j < |run|
    ensures run[i] <= run[j]
  {
    SumMono(w, i + 1, j + 1);
  }

  /** One row of BuildChoiceTable. */
  method BuildRow(weights: seq<nat>, enabled: seq<bool>) returns (run: seq<nat>)
    requires |weights| == |enabled|
    ensures IsRow(run, Effective(weights, enabled))
  {
    ghost var w := Effective(weights, enabled);
    run := [];
    var sum := 0;
    for j := 0 to |weights|
      invariant |run| == j && sum == Sum(w[..j]) && forall k :: 0 <= k < j ==> run[k] == Sum(w[..k + 1])
    {
      SumStep(w, j);
      if enabled[j] {
        sum := sum + weights[j];
      }
      run := run + [sum];
    }
  }

  /** sort.SearchInts: binary search for the first entry that is at least `x`. */
  method SearchInts(run: seq<nat>, x: nat) returns (i: nat)
    requires forall a, b :: 0 <= a <= b < |run| ==> run[a] <= run[b]
    ensures i <= |run| && (forall k :: 0 <= k < i ==> run[k] < x) && (i < |run| ==> run[i] >= x)
  {
    var hi := |run|;
    i := 0;
    while i < hi
      invariant i <= hi <= |run|
      invariant forall k :: 0 <= k < i ==> run[k] < x
      invariant hi < |run| ==> run[hi] >= x
    {
      var h := (i + hi) / 2;
      if run[h] < x {
        i := h + 1;
      } else {
        hi := h;
      }
    }
  }

  /** The draw `x` falls to entry `j`. */
  predicate Hits(run: seq<nat>, x: nat, j: nat) {
    j < |run| && run[j] >= x && forall k :: 0 <= k < j ==> run[k] < x
  }

  /** Entry `j` is hit by the draws above the sum before it, up to the sum with it. */
  lemma {:induction false} HitsIff(run: seq<nat>, w: seq<nat>, x: nat, j: nat)
    requires IsRow(run, w) && j < |run| && x >= 1
    ensures Hits(run, x, j) <==> Sum(w[..j]) < x <= Sum(w[..j]) + w[j]
  {
    SumStep(w, j);
    if j > 0 {
      assert run[j - 1] == Sum(w[..j]);
      forall k | 0 <= k < j ensures run[k] <= run[j - 1] { RowMono(run, w, k, j - 1); }
    }
  }

  function Draws(lo: nat, hi: nat): (s: set<nat>)
  {
    set x | lo < x <= hi && In(x, lo, hi)
  }

  predicate In(x: nat, lo: nat, hi: nat) {
    lo < x <= hi
  }

  lemma {:induction false} DrawsSize(lo: nat, n: nat)
    ensures |Draws(lo, lo + n)| == n
  {
    if n > 0 {
      DrawsSize(lo, n - 1);
      assert Draws(lo, lo + n) == Draws(lo, lo + n - 1) + {lo + n};
    }
  }

  /** Of the draws from 1 to the total exactly `w[j]` select call `j`. */
  lemma {:induction false} ExactWeight(run: seq<nat>, w: seq<nat>, j: nat)
    requires IsRow(run, w) && j < |w|
    ensures var hits := set x | 1 <= x <= run[|run| - 1] && Hits(run, x, j); |hits| == w[j]
  {
    var lo := Sum(w[..j]);
    SumStep(w, j);
    SumMono(w, j + 1, |w|);
    var hits := set x | 1 <= x <= run[|run| - 1] && Hits(run, x, j);
    forall x: nat ensures x in hits <==> x in Draws(lo, lo + w[j]) {
      if x >= 1 { HitsIff(run, w, x, j); }
    }
    assert hits == Draws(lo, lo + w[j]);
    DrawsSize(lo, w[j]);
  }

  lemma {:induction false} SumZero(w: seq<nat>)
    ensures Sum(w) == 0 <==> forall j :: 0 <= j < |w| ==> w[j] == 0
  {
    if w != [] {
      var n := |w| - 1;
      SumZero(w[..n]);
      assert forall j :: 0 <= j < n ==> w[..n][j] == w[j];
      if forall j :: 0 <= j < |w| ==> w[j] == 0 {
        assert w[n] == 0;
      }
    }
  }

  /** Choose for a call with a row: `draw` is the first random number below the total.  It panics
      exactly when every enabled call has weight zero, and otherwise returns after this draw, an
      enabled call of positive weight. */
  method Choose(run: seq<nat>, enabled: seq<bool>, weights: seq<nat>, draw: nat)
    returns (panics: bool, again: bool, i: nat)
    requires |weights| == |enabled| && IsRow(run, Effective(weights, enabled)) && |run| > 0
    requires draw < run[|run| - 1] || run[|run| - 1] == 0
    ensures panics <==> forall j :: 0 <= j < |enabled| && enabled[j] ==> weights[j] == 0
    ensures !panics ==> !again && i < |enabled| && enabled[i] && weights[i] > 0 && Hits(run, draw + 1, i)
  {
    ghost var w := Effective(weights, enabled);
    var total := run[|run| - 1];
    assert w[..|w|] == w;
    SumZero(w);
    assert total == 0 <==> forall j :: 0 <= j < |enabled| && enabled[j] ==> weights[j] == 0 by {
      assert forall j :: 0 <= j < |w| ==> (w[j] == 0 <==> !enabled[j] || weights[j] == 0);
    }
    if total == 0 {
      return true, false, 0; // Intn(0)
    }
    var x := draw + 1;
    forall a, b | 0 <= a <= b < |run| ensures run[a] <= run[b] { RowMono(run, w, a, b); }
    i := SearchInts(run, x);
    assert run[|run| - 1] >= x;
    HitsIff(run, w, x, i);
    panics, again := false, !enabled[i];
  }
}
