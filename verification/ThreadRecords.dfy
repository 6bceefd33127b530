/**
  Where the output records of the thread protocol come from (executor/executor.cc:755-801,
  885-901): which step writes a record, for which call, and whether it says that the call finished.
 */
module ThreadRecords {
  import opened Threads

  /** The record of extra coverage, if there is any. */
  function ExtraOf(ch: Choice): seq<Record> {
    if ch.extra then [ExtraRecord] else []
  }

  /** What a step of the scheduler adds: the call of a slot whose worker is done with it, as
      finished, or that of a slot that is still executing when the program is over, as unfinished;
      and extra coverage with a finished call, after the unfinished ones, and at the end of the
      first pass. */
  ghost predicate Adds(s: State, a: Action, more: seq<Record>) {
    if a.SchedulerStep? && s.pc.CompleteOutput? && !s.collide then
      && s.pc.i < |s.slots| && Done(s.slots[s.pc.i]) && s.slots[s.pc.i].ran == s.slots[s.pc.i].job
      && more == [CallRecord(s.slots[s.pc.i].job.callIndex, true)] + ExtraOf(a.choice)
    else if a.SchedulerStep? && s.pc.FinalWrite? && s.pc.i < |s.slots| && s.slots[s.pc.i].executing then
      more == [CallRecord(s.slots[s.pc.i].job.callIndex, false)]
    else if a.SchedulerStep? && ((s.pc.FinalWrite? && s.pc.i >= MAX_THREADS) || (s.pc.PassEnd? && !s.collide)) then
      more == ExtraOf(a.choice)
    else
      more == []
  }

  lemma {:induction false} CompletionAdds(s: State, ch: Choice)
    requires Inv(s) && s.pc.CompleteOutput?
    ensures var t := CompleteNext(s, ch);
      s.records <= t.records && Adds(s, SchedulerStep(ch), t.records[|s.records|..])
  {
    var t, i := CompleteNext(s, ch), s.pc.i;
    if s.collide {
      assert t.records[|s.records|..] == [];
    } else {
      assert t.records == s.records + ([CallRecord(s.slots[i].job.callIndex, true)] + ExtraOf(ch));
    }
  }

  lemma {:induction false} MainAdds(s: State, ch: Choice)
    requires Inv(s) && !Scheduling(s.pc) && !Completing(s.pc)
    ensures var t := MainNext(s, ch);
      s.records <= t.records && Adds(s, SchedulerStep(ch), t.records[|s.records|..])
  {
    var t := MainNext(s, ch);
    var more := t.records[|s.records|..];
    if s.pc.FinalWrite? && s.pc.i < |s.slots| && s.slots[s.pc.i].executing {
      assert more == [CallRecord(s.slots[s.pc.i].job.callIndex, false)];
    } else {
      assert more == [] || more == ExtraOf(ch);
    }
  }

  /** Records are only added, and every step adds exactly these. */
  lemma {:induction false} StepAdds(s: State, a: Action)
    requires Inv(s)
    ensures s.records <= Step(s, a).records && Adds(s, a, Step(s, a).records[|s.records|..])
  {
    match a
    case WorkerStep(i) => assert Step(s, a).records == s.records;
    case SchedulerStep(ch) =>
      if s.pc.CompleteOutput? {
        CompletionAdds(s, ch);
      } else if !Scheduling(s.pc) && !Completing(s.pc) {
        MainAdds(s, ch);
      } else {
        assert Step(s, a).records == s.records;
      }
  }

  /** The state from which a record was written: it says that the call finished if and only if a
      slot was completed whose worker had run that very call; else a slot was still executing it
      when the program was over. */
  ghost predicate Wrote(s: State, r: Record) {
    r.CallRecord? ==>
      && (s.pc.CompleteOutput? || s.pc.FinalWrite?) && s.pc.i < |s.slots| && s.slots[s.pc.i].executing
      && r.callIndex == s.slots[s.pc.i].job.callIndex
      && (r.finished <==> s.pc.CompleteOutput?)
      && (r.finished ==> Done(s.slots[s.pc.i]) && s.slots[s.pc.i].ran == s.slots[s.pc.i].job)
  }

  lemma {:induction false} AddedWrote(s: State, a: Action, n: nat)
    requires Inv(s) && |s.records| <= n < |Step(s, a).records|
    ensures Wrote(s, Step(s, a).records[n])
  {
    StepAdds(s, a);
    var more, r := Step(s, a).records[|s.records|..], Step(s, a).records[n];
    assert r == more[n - |s.records|];
  }

  /** Every record of a run was written by one of its steps. */
  lemma {:induction false} RecordOrigin(s: State, actions: seq<Action>, n: nat) returns (k: nat)
    requires Inv(s) && |s.records| <= n < |Run(s, actions).records|
    ensures k < |actions|
    ensures var t := Run(s, actions[..k]);
      && Inv(t) && |t.records| <= n < |Step(t, actions[k]).records|
      && Run(s, actions).records[n] == Step(t, actions[k]).records[n] && Wrote(t, Run(s, actions).records[n])
    decreases |actions|
  {
    var t, rest := Step(s, actions[0]), actions[1..];
    StepKeeps(s, actions[0]);
    StepAdds(s, actions[0]);
    if n < |t.records| {
      k := 0;
      AddedWrote(s, actions[0], n);
      RecordsStay(t, rest, n);
    } else {
      var i := RecordOrigin(t, rest, n);
      k := i + 1;
      assert actions[..k][1..] == rest[..i] && actions[..k][0] == actions[0];
    }
  }

  lemma {:induction false} RecordsStay(s: State, actions: seq<Action>, n: nat)
    requires Inv(s) && n < |s.records|
    ensures n < |Run(s, actions).records| && Run(s, actions).records[n] == s.records[n]
    decreases |actions|
  {
    if actions != [] {
      StepKeeps(s, actions[0]);
      StepAdds(s, actions[0]);
      RecordsStay(Step(s, actions[0]), actions[1..], n);
    }
  }

  /** Finished records of call `j`. */
  function NumFinished(rs: seq<Record>, j: nat): nat {
    if rs == [] then 0 else One(rs[0] == CallRecord(j, true)) + NumFinished(rs[1..], j)
  }

  lemma {:induction false} AllFinished(rs: seq<Record>, j: nat)
    requires forall n :: 0 <= n < |rs| && rs[n].CallRecord? ==> rs[n].finished
    ensures NumFinished(rs, j) == NumRecords(rs, j)
  {
    if rs != [] {
      assert forall n :: 0 <= n < |rs| - 1 ==> rs[1..][n] == rs[n + 1];
      AllFinished(rs[1..], j);
    }
  }

  /** No call was found executing when the program was over. */
  ghost predicate NoFinalWrite(s: State, actions: seq<Action>) {
    forall k :: 0 <= k < |actions| ==> !Run(s, actions[..k]).pc.FinalWrite?
  }

  /** A run that completes the first pass without a final write has one record for each call, which
      says that the call finished. */
  lemma {:induction false} AllCallsFinished(threaded: bool, flagCollide: bool, ncalls: nat, actions: seq<Action>,
      j: nat)
    requires flagCollide ==> threaded
    requires NoFinalWrite(Init(threaded, flagCollide, ncalls), actions)
    ensures var s := Run(Init(threaded, flagCollide, ncalls), actions);
      Over(s) ==> NumRecords(s.records, j) == NumFinished(s.records, j) == One(j < ncalls)
  {
    var s0 := Init(threaded, flagCollide, ncalls);
    var rs := Run(s0, actions).records;
    InitInv(threaded, flagCollide, ncalls);
    OneRecordPerCall(threaded, flagCollide, ncalls, actions, j);
    forall n | 0 <= n < |rs| && rs[n].CallRecord? ensures rs[n].finished {
      var k := RecordOrigin(s0, actions, n);
      assert !Run(s0, actions[..k]).pc.FinalWrite?;
    }
    AllFinished(rs, j);
  }

  // ----- waiting -----

  /** Every call is waited for, or run in place, but for the second, the fourth and so on of the
      collide pass, whose successors are given out while they run. */
  lemma {:induction false} WaitedFor(s: State, ch: Choice)
    requires Inv(s) && s.pc.Count?
    ensures var pc := SchedulerNext(s, ch).pc;
      && (s.collide && s.nextCall % 2 == 0 ==> pc == Next)
      && (!s.collide || s.nextCall % 2 == 1 ==> if s.threaded then pc == Wait(s.pc.i) else pc == DirectStart)
  {
  }

  /** Looking for calls that have completed, the scheduler completes every slot that it finds done,
      and passes over the others. */
  lemma {:induction false} ScanCompletes(s: State, ch: Choice)
    requires Inv(s) && (s.pc.Scan? || s.pc.FinalScan?) && s.pc.i < MAX_THREADS
    ensures var pc := SchedulerNext(s, ch).pc;
      if Done(s.slots[s.pc.i]) then pc.CompleteReady? && pc.i == s.pc.i
      else pc == if s.pc.Scan? then Scan(s.pc.i + 1) else FinalScan(s.pc.i + 1)
  {
    assert SlotInv(s, s.pc.i);
  }

  /** When all calls were given out, the first pass waits as long as a call is executing and time is
      left, looking at every slot again and again; then it writes what is unfinished. */
  lemma {:induction false} FinalWaits(s: State, ch: Choice)
    requires Inv(s) && s.pc.FinalWait?
    ensures var pc := SchedulerNext(s, ch).pc;
      if exists i :: 0 <= i < MAX_THREADS && s.slots[i].executing
      then pc == if ch.yes then FinalScan(0) else FinalWrite(0)
      else pc == PassEnd
  {
    if NumExecuting(s.slots) > 0 {
      SomeExecuting(s.slots);
    } else {
      forall i | 0 <= i < MAX_THREADS ensures !s.slots[i].executing {
        if s.slots[i].executing { NumExecutingPositive(s.slots, i); }
      }
    }
  }

  lemma {:induction false} SomeExecuting(ss: seq<Slot>)
    requires NumExecuting(ss) > 0
    ensures exists i :: 0 <= i < |ss| && ss[i].executing
  {
    if ss[0].executing {
    } else {
      SomeExecuting(ss[1..]);
      var i :| 0 <= i < |ss| - 1 && ss[1..][i].executing;
      assert ss[i + 1].executing;
    }
  }

  // ----- the collide pass -----

  /** A slot that is being armed knows which pass the call belongs to. */
  ghost predicate Marked(s: State) {
    s.pc.Fill? && s.pc.i < |s.slots| ==> s.slots[s.pc.i].colliding == s.collide
  }

  /** A slot that is given a call in the collide pass is marked so, and one of the first pass is not. */
  ghost predicate Given(s: State, t: State) {
    |t.slots| == |s.slots| && forall i :: 0 <= i < |s.slots| && !s.slots[i].executing && t.slots[i].executing ==>
                                t.slots[i].colliding == s.collide
  }

  lemma {:induction false} ScheduleMarks(s: State, ch: Choice)
    requires Marked(s) && Scheduling(s.pc)
    ensures Marked(ScheduleNext(s, ch)) && Given(s, ScheduleNext(s, ch))
  {
  }

  lemma {:induction false} CompletionMarks(s: State, ch: Choice)
    requires Completing(s.pc)
    ensures Marked(CompleteNext(s, ch)) && Given(s, CompleteNext(s, ch))
  {
  }

  lemma {:induction false} MainMarks(s: State, ch: Choice)
    requires !Scheduling(s.pc)
    ensures Marked(MainNext(s, ch)) && Given(s, MainNext(s, ch))
  {
    if s.pc.Direct? && |s.slots| > 0 {
      DirectMarks(s, ch);
    } else if s.pc.DirectStart? || s.pc.FinalWrite? {
      SlotMarks(s, ch);
    } else {
      assert MainNext(s, ch).slots == s.slots;
    }
  }

  lemma {:induction false} SlotMarks(s: State, ch: Choice)
    requires s.pc.DirectStart? || s.pc.FinalWrite?
    ensures Marked(MainNext(s, ch)) && Given(s, MainNext(s, ch))
  {
  }

  lemma {:induction false} DirectMarks(s: State, ch: Choice)
    requires s.pc.Direct? && |s.slots| > 0
    ensures Marked(MainNext(s, ch)) && Given(s, MainNext(s, ch))
  {
    assert WorkerBody(s.slots[0]).1.executing == s.slots[0].executing;
  }

  lemma {:induction false} StepMarks(s: State, a: Action)
    requires Marked(s)
    ensures Marked(Step(s, a)) && Given(s, Step(s, a))
  {
    match a
    case WorkerStep(i) =>
      if i < |s.slots| {
        assert WorkerBody(s.slots[i]).1.executing == s.slots[i].executing;
        assert WorkerBody(s.slots[i]).1.colliding == s.slots[i].colliding;
      }
    case SchedulerStep(ch) =>
      if Scheduling(s.pc) {
        ScheduleMarks(s, ch);
      } else if Completing(s.pc) {
        CompletionMarks(s, ch);
      } else {
        MainMarks(s, ch);
      }
  }

  /** Whatever the interleaving. */
  lemma {:induction false} GivenMarked(s: State, actions: seq<Action>, a: Action)
    requires Marked(s)
    ensures Marked(Run(s, actions)) && Given(Run(s, actions), Step(Run(s, actions), a))
    decreases |actions|
  {
    if actions == [] {
      StepMarks(s, a);
    } else {
      StepMarks(s, actions[0]);
      GivenMarked(Step(s, actions[0]), actions[1..], a);
    }
  }

  // ----- the end -----

  /** A pass ends when all calls were given out, and the run after the collide pass, if it is on. */
  ghost predicate EndInv(s: State) {
    && (s.pc.PassEnd? || s.pc.Finished? ==> s.nextCall == s.ncalls)
    && (s.pc.Finished? ==> (s.collide <==> s.flagCollide))
  }

  /** What no step changes, and that the end is reached from the main loop only. */
  ghost predicate NotYet(s: State, t: State) {
    && t.flagCollide == s.flagCollide && t.ncalls == s.ncalls
    && (t.pc.PassEnd? || t.pc.Finished? ==> t.pc == s.pc && t.nextCall == s.nextCall && t.collide == s.collide)
  }

  lemma {:induction false} WorkerNotYet(s: State, i: nat)
    requires Inv(s)
    ensures NotYet(s, WorkerNext(s, i))
  {
    WorkerKeeps(s, i);
  }

  lemma {:induction false} ScheduleNotYet(s: State, ch: Choice)
    requires Scheduling(s.pc)
    ensures NotYet(s, ScheduleNext(s, ch))
  {
  }

  lemma {:induction false} CompleteNotYet(s: State, ch: Choice)
    requires Completing(s.pc)
    ensures NotYet(s, CompleteNext(s, ch))
  {
  }

  lemma {:induction false} MainEnds(s: State, ch: Choice)
    requires Inv(s) && EndInv(s) && !Scheduling(s.pc) && !Completing(s.pc)
    ensures var t := MainNext(s, ch); EndInv(t) && t.flagCollide == s.flagCollide && t.ncalls == s.ncalls
  {
  }

  lemma {:induction false} StepEnds(s: State, a: Action)
    requires Inv(s) && EndInv(s)
    ensures EndInv(Step(s, a)) && Step(s, a).flagCollide == s.flagCollide && Step(s, a).ncalls == s.ncalls
  {
    match a
    case WorkerStep(i) => WorkerNotYet(s, i);
    case SchedulerStep(ch) =>
      if Scheduling(s.pc) {
        ScheduleNotYet(s, ch);
      } else if Completing(s.pc) {
        CompleteNotYet(s, ch);
      } else {
        MainEnds(s, ch);
      }
  }

  /** Every run that finishes has given out all calls, twice if the collide pass is on. */
  lemma {:induction false} FinishedRun(s: State, actions: seq<Action>)
    requires Inv(s) && EndInv(s)
    ensures var t := Run(s, actions);
      t.pc.Finished? ==> t.nextCall == s.ncalls && (t.collide <==> s.flagCollide)
    decreases |actions|
  {
    if actions != [] {
      StepKeeps(s, actions[0]);
      StepEnds(s, actions[0]);
      FinishedRun(Step(s, actions[0]), actions[1..]);
    }
  }
}
