/**
  The executor's thread protocol (executor/executor.cc): one scheduler and up to sixteen
  workers that communicate through a `ready` and a `done` event per slot.

  Every access to an event is a step of its own, and a run is any interleaving of
  scheduler and worker steps.  Timed waits and clocks are choices.  `fail(...)` is the
  state Failed; Safety shows that no run reaches it.
 */
module Threads {

  const MAX_THREADS: nat := 16

  /** What a worker is about to do. */
  datatype WorkerPc = WWait | WReset | WRun | WCheckDone | WStoreDone

  /** The arguments the scheduler leaves for the worker. */
  datatype Job = Job(callIndex: nat, args: int)

  /** thread_t. `ran` and `recorded` are history: the job the worker read, and whether an
      output record was written for the current job. */
  datatype Slot = Slot(created: bool, ready: bool, done: bool, executing: bool, colliding: bool,
                       job: Job, pc: WorkerPc, ran: Job, recorded: bool)

  /** Where the scheduler goes on after handle_completion. */
  datatype Cont = ToSchedule | ToNext | ToScan(i: nat) | ToFinal(i: nat)

  /** What the scheduler is about to do. */
  datatype Pc =
    | Next                           // execute_one: next instruction
    | Find(i: nat)                   // schedule_call: look at slot i, create it if needed
    | Probe(i: nat)                  // schedule_call: event_isset(done)
    | CompleteReady(i: nat, k: Cont) // handle_completion: check ready
    | CompleteDone(i: nat, k: Cont)  // handle_completion: check done and executing
    | CompleteOutput(i: nat, k: Cont)
    | CompleteEnd(i: nat, k: Cont)   // executing = false, running--
    | CheckReady(i: nat)             // schedule_call: state check
    | CheckDone(i: nat)
    | Arm(i: nat)                    // event_reset(done)
    | Fill(i: nat)                   // executing = true, job
    | SetReady(i: nat)               // event_set(ready): test
    | StoreReady(i: nat)             // event_set(ready): store
    | Count(i: nat)                  // running++
    | Wait(i: nat)                   // event_timedwait(done)
    | Scan(i: nat)                   // have earlier calls completed?
    | DirectStart | Direct           // no worker threads: run the call in place
    | FinalWait | FinalScan(i: nat) | FinalWrite(i: nat)
    | PassEnd | Finished
    | Exit                           // out of threads
    | Failed

  /** An output record; extra-coverage records belong to no call. */
  datatype Record = CallRecord(callIndex: nat, finished: bool) | ExtraRecord

  datatype State = State(threaded: bool, flagCollide: bool, ncalls: nat,
                         slots: seq<Slot>, pc: Pc, running: int, collide: bool, nextCall: nat,
                         records: seq<Record>)

  /** Outcome of waits and clock reads, whether extra coverage was found, new arguments. */
  datatype Choice = Choice(yes: bool, extra: bool, args: int)

  datatype Action = SchedulerStep(choice: Choice) | WorkerStep(i: nat)

  // ----- steps -----

  const NO_JOB := Job(0, 0)
  const BLANK := Slot(false, false, false, false, false, NO_JOB, WWait, NO_JOB, false)

  function Init(threaded: bool, flagCollide: bool, ncalls: nat): State {
    State(threaded, flagCollide, ncalls, seq(MAX_THREADS, _ => BLANK), Next, 0, false, 0, [])
  }

  /** One step of worker_thread; None is "event already set". */
  function WorkerBody(t: Slot): (r: (bool, Slot)) {
    match t.pc
    case WWait => (true, if t.ready then t.(pc := WReset) else t)
    case WReset => (true, t.(ready := false, pc := WRun))
    case WRun => (true, t.(ran := t.job, pc := WCheckDone))
    case WCheckDone => if t.done then (false, t) else (true, t.(pc := WStoreDone))
    case WStoreDone => (true, t.(done := true, pc := WWait))
  }

  function WorkerNext(s: State, i: nat): State {
    if i < |s.slots| && s.threaded && s.slots[i].created then
      var r := WorkerBody(s.slots[i]);
      if r.0 then s.(slots := s.slots[i := r.1]) else s.(pc := Failed)
    else s
  }

  function Set(s: State, i: nat, t: Slot, pc: Pc): State
    requires i < |s.slots|
  {
    s.(slots := s.slots[i := t], pc := pc)
  }

  function Go(s: State, pc: Pc): State {
    s.(pc := pc)
  }

  function Extra(s: State, extra: bool): seq<Record> {
    if extra then s.records + [ExtraRecord] else s.records
  }

  /** schedule_call */
  function ScheduleNext(s: State, ch: Choice): State {
    match s.pc
    case Find(i) =>
      if i >= |s.slots| then Go(s, Exit)
      else if s.slots[i].created then Go(s, Probe(i))
      else Set(s, i, s.slots[i].(created := true, executing := false, ready := false, done := true, pc := WWait),
          Probe(i))
    case Probe(i) =>
      if i >= |s.slots| then Go(s, Failed)
      else if !s.slots[i].done then Go(s, Find(i + 1))
      else if s.slots[i].executing then Go(s, CompleteReady(i, ToSchedule))
      else Go(s, CheckReady(i))
    case CheckReady(i) => Go(s, if i >= |s.slots| || s.slots[i].ready then Failed else CheckDone(i))
    case CheckDone(i) => Go(s, if i >= |s.slots| || !s.slots[i].done || s.slots[i].executing then Failed else Arm(i))
    case Arm(i) =>
      if i >= |s.slots| then Go(s, Failed)
      else Set(s, i, s.slots[i].(colliding := s.collide, done := false), Fill(i))
    case Fill(i) =>
      if i >= |s.slots| then Go(s, Failed)
      else Set(s, i, s.slots[i].(executing := true, job := Job(s.nextCall, ch.args), recorded := false), SetReady(i))
             .(nextCall := s.nextCall + 1)
    case SetReady(i) => Go(s, if i >= |s.slots| || s.slots[i].ready then Failed else StoreReady(i))
    case StoreReady(i) =>
      if i >= |s.slots| then Go(s, Failed) else Set(s, i, s.slots[i].(ready := true), Count(i))
    case Count(i) =>
      s.(running := s.running + 1,
         pc := if s.collide && s.nextCall % 2 == 0 then Next
               else if s.threaded then Wait(i)
               else if i != 0 then Failed else DirectStart)
    case _ => s
  }

  /** handle_completion */
  function CompleteNext(s: State, ch: Choice): State {
    match s.pc
    case CompleteReady(i, k) => Go(s, if i >= |s.slots| || s.slots[i].ready then Failed else CompleteDone(i, k))
    case CompleteDone(i, k) =>
      Go(s, if i >= |s.slots| || !s.slots[i].done || !s.slots[i].executing then Failed else CompleteOutput(i, k))
    case CompleteOutput(i, k) =>
      if i >= |s.slots| then Go(s, Failed)
      else if s.collide || s.slots[i].colliding then Go(s, CompleteEnd(i, k))
      else Set(s, i, s.slots[i].(recorded := true), CompleteEnd(i, k))
             .(records := s.records + [CallRecord(s.slots[i].job.callIndex, true)] + if ch.extra then [ExtraRecord]
                 else [])
    case CompleteEnd(i, k) =>
      if i >= |s.slots| then Go(s, Failed)
      else
        Set(s, i, s.slots[i].(executing := false),
            if s.running - 1 < 0 then Failed
            else match k
                 case ToSchedule => CheckReady(i)
                 case ToNext => Next
                 case ToScan(j) => Scan(j)
                 case ToFinal(j) => FinalScan(j))
          .(running := s.running - 1)
    case _ => s
  }

  /** The loop of execute_one and what follows it. */
  function MainNext(s: State, ch: Choice): State {
    match s.pc
    case Next =>
      Go(s, if s.nextCall < s.ncalls then Find(0) else if !s.collide && s.running > 0 then FinalWait else PassEnd)
    case Wait(i) =>
      Go(s, if i < |s.slots| && ch.yes && s.slots[i].done then CompleteReady(i, ToScan(0)) else Scan(0))
    case Scan(i) =>
      Go(s, if i >= |s.slots| then Next
            else if s.slots[i].executing && s.slots[i].done then CompleteReady(i, ToScan(i + 1)) else Scan(i + 1))
    case DirectStart =>
      if |s.slots| == 0 then Go(s, Failed) else Set(s, 0, s.slots[0].(pc := WReset), Direct)
    case Direct =>
      if |s.slots| == 0 then Go(s, Failed)
      else
        var r := WorkerBody(s.slots[0]);
        if !r.0 then Go(s, Failed)
        else Set(s, 0, r.1, if r.1.pc == WWait then CompleteReady(0, ToNext) else Direct)
    case FinalWait =>
      Go(s, if s.running > 0 && ch.yes then FinalScan(0) else if s.running > 0 then FinalWrite(0) else PassEnd)
    case FinalScan(i) =>
      Go(s, if i >= |s.slots| then FinalWait
            else if s.slots[i].executing && s.slots[i].done then CompleteReady(i, ToFinal(i + 1)) else FinalScan(i + 1))
    case FinalWrite(i) =>
      if i >= |s.slots| then Go(s, PassEnd).(records := Extra(s, ch.extra))
      else if !s.slots[i].executing then Go(s, FinalWrite(i + 1))
      else Set(s, i, s.slots[i].(recorded := true), FinalWrite(i + 1))
             .(records := s.records + [CallRecord(s.slots[i].job.callIndex, false)])
    case PassEnd =>
      if s.collide then Go(s, Finished)
      else if s.flagCollide then s.(pc := Next, collide := true, nextCall := 0, records := Extra(s, ch.extra))
      else Go(s, Finished).(records := Extra(s, ch.extra))
    case _ => s
  }

  predicate Scheduling(pc: Pc) {
    pc.Find? || pc.Probe? || pc.CheckReady? || pc.CheckDone? || pc.Arm? || pc.Fill? || pc.SetReady? || pc.StoreReady? ||
        pc.Count?
  }

  predicate Completing(pc: Pc) {
    pc.CompleteReady? || pc.CompleteDone? || pc.CompleteOutput? || pc.CompleteEnd?
  }

  function SchedulerNext(s: State, ch: Choice): State {
    if Scheduling(s.pc) then ScheduleNext(s, ch)
    else if Completing(s.pc) then CompleteNext(s, ch)
    else MainNext(s, ch)
  }

  function Step(s: State, a: Action): State {
    match a
    case SchedulerStep(ch) => SchedulerNext(s, ch)
    case WorkerStep(i) => WorkerNext(s, i)
  }

  /** The state after a run: any sequence of scheduler and worker steps. */
  function Run(s: State, actions: seq<Action>): State
    decreases |actions|
  {
    if actions == [] then s else Run(Step(s, actions[0]), actions[1..])
  }

  // ----- slot states -----

  predicate Idle(t: Slot) { t.created && !t.ready && t.done && !t.executing && t.pc == WWait }

  predicate Scheduled(t: Slot) { t.created && t.ready && !t.done && t.executing && (t.pc == WWait || t.pc == WReset) }

  predicate Running(t: Slot) {
    t.created && !t.ready && !t.done && t.executing &&
        (t.pc == WRun || ((t.pc == WCheckDone || t.pc == WStoreDone) && t.ran == t.job))
  }

  predicate Done(t: Slot) { t.created && !t.ready && t.done && t.executing && t.pc == WWait && t.ran == t.job }

  /** Owned by the scheduler in the middle of schedule_call, the worker waits. */
  predicate Armed(t: Slot, executing: bool) {
    t.created && !t.ready && !t.done && t.executing == executing && t.pc == WWait
  }

  predicate Absent(t: Slot) { !t.created && !t.executing }

  ghost predicate SlotInv(s: State, i: nat)
    requires i < |s.slots|
  {
    var t := s.slots[i];
    if s.pc == Fill(i) then Armed(t, false)
    else if s.pc == SetReady(i) || s.pc == StoreReady(i) then Armed(t, true)
    else Absent(t) || Idle(t) || Scheduled(t) || Running(t) || Done(t)
  }

  // ----- counting -----

  function One(b: bool): nat { if b then 1 else 0 }

  function NumExecuting(ss: seq<Slot>): nat {
    if ss == [] then 0 else One(ss[0].executing) + NumExecuting(ss[1..])
  }

  /** Slots that hold call `j` and have no record for it yet. */
  function NumHolding(ss: seq<Slot>, j: nat): nat {
    if ss == [] then 0 else One(Holds(ss[0], j)) + NumHolding(ss[1..], j)
  }

  predicate Holds(t: Slot, j: nat) { t.executing && !t.recorded && t.job.callIndex == j }

  function NumRecords(rs: seq<Record>, j: nat): nat {
    if rs == [] then 0 else One(rs[0].CallRecord? && rs[0].callIndex == j) + NumRecords(rs[1..], j)
  }

  lemma {:induction false} NumExecutingUpdate(ss: seq<Slot>, i: nat, t: Slot)
    requires i < |ss|
    ensures NumExecuting(ss[i := t]) == NumExecuting(ss) - One(ss[i].executing) + One(t.executing)
  {
    if i == 0 {
      assert ss[i := t][1..] == ss[1..];
    } else {
      NumExecutingUpdate(ss[1..], i - 1, t);
      assert ss[i := t][1..] == ss[1..][i - 1 := t];
    }
  }

  lemma {:induction false} NumHoldingUpdate(ss: seq<Slot>, i: nat, t: Slot, j: nat)
    requires i < |ss|
    ensures NumHolding(ss[i := t], j) == NumHolding(ss, j) - One(Holds(ss[i], j)) + One(Holds(t, j))
  {
    if i == 0 {
      assert ss[i := t][1..] == ss[1..];
    } else {
      NumHoldingUpdate(ss[1..], i - 1, t, j);
      assert ss[i := t][1..] == ss[1..][i - 1 := t];
    }
  }

  lemma {:induction false} NumRecordsAppend(xs: seq<Record>, ys: seq<Record>, j: nat)
    ensures NumRecords(xs + ys, j) == NumRecords(xs, j) + NumRecords(ys, j)
  {
    if xs == [] {
      assert xs + ys == ys;
    } else {
      NumRecordsAppend(xs[1..], ys, j);
      assert (xs + ys)[1..] == xs[1..] + ys;
    }
  }

  lemma {:induction false} NumExecutingPositive(ss: seq<Slot>, i: nat)
    requires i < |ss| && ss[i].executing
    ensures NumExecuting(ss) > 0
  {
    if i > 0 { NumExecutingPositive(ss[1..], i - 1); }
  }

  lemma {:induction false} NothingHeld(ss: seq<Slot>, j: nat)
    requires forall i :: 0 <= i < |ss| ==> !ss[i].executing || ss[i].recorded
    ensures NumHolding(ss, j) == 0
  {
    if ss != [] { NothingHeld(ss[1..], j); }
  }

  lemma {:induction false} NoneExecuting(ss: seq<Slot>)
    requires NumExecuting(ss) == 0
    ensures forall i :: 0 <= i < |ss| ==> !ss[i].executing
  {
    forall i | 0 <= i < |ss| ensures !ss[i].executing {
      if ss[i].executing { NumExecutingPositive(ss, i); }
    }
  }

  lemma {:induction false} BlankCounts(n: nat, j: nat)
    ensures NumExecuting(seq(n, _ => BLANK)) == 0 && NumHolding(seq(n, _ => BLANK), j) == 0
  {
    if n > 0 {
      BlankCounts(n - 1, j);
      assert seq(n, _ => BLANK)[1..] == seq(n - 1, _ => BLANK);
    }
  }

  // ----- the invariant -----

  predicate ContOk(s: State, k: Cont) {
    (k.ToScan? ==> k.i <= MAX_THREADS && s.threaded) && (k.ToFinal? ==> k.i <= MAX_THREADS)
  }

  /** The slot the scheduler is working on, or MAX_THREADS. */
  function Current(pc: Pc): nat {
    match pc
    case Probe(i) => i
    case CompleteReady(i, _) => i
    case CompleteDone(i, _) => i
    case CompleteOutput(i, _) => i
    case CompleteEnd(i, _) => i
    case CheckReady(i) => i
    case CheckDone(i) => i
    case Arm(i) => i
    case Fill(i) => i
    case SetReady(i) => i
    case StoreReady(i) => i
    case Count(i) => i
    case Wait(i) => i
    case DirectStart => 0
    case Direct => 0
    case _ => MAX_THREADS
  }

  /** What holds of the slot the scheduler is working on. */
  ghost predicate PcInv(s: State)
    requires |s.slots| == MAX_THREADS
  {
    match s.pc
    case Find(i) => i <= MAX_THREADS
    case Probe(i) => i < MAX_THREADS && s.slots[i].created
    case CompleteReady(i, k) => i < MAX_THREADS && Done(s.slots[i]) && ContOk(s, k)
    case CompleteDone(i, k) => i < MAX_THREADS && Done(s.slots[i]) && ContOk(s, k)
    case CompleteOutput(i, k) => i < MAX_THREADS && Done(s.slots[i]) && ContOk(s, k)
    case CompleteEnd(i, k) => i < MAX_THREADS && Done(s.slots[i]) && ContOk(s, k)
    case CheckReady(i) => i < MAX_THREADS && Idle(s.slots[i])
    case CheckDone(i) => i < MAX_THREADS && Idle(s.slots[i])
    case Arm(i) => i < MAX_THREADS && Idle(s.slots[i])
    case Fill(i) => i < MAX_THREADS
    case SetReady(i) => i < MAX_THREADS
    case StoreReady(i) => i < MAX_THREADS
    case Count(i) => i < MAX_THREADS && s.slots[i].executing
    case Wait(i) => i < MAX_THREADS && s.threaded && s.slots[i].executing
    case Scan(i) => i <= MAX_THREADS && s.threaded
    case DirectStart => !s.threaded && Scheduled(s.slots[0])
    case Direct => !s.threaded && (Running(s.slots[0]) || (Scheduled(s.slots[0]) && s.slots[0].pc == WReset))
    case FinalScan(i) => i <= MAX_THREADS
    case FinalWrite(i) => i <= MAX_THREADS
    case Failed => false
    case _ => true
  }

  /** `running` lags behind by one between Fill and Count. */
  ghost predicate RunningInv(s: State) {
    s.running + One(s.pc.SetReady? || s.pc.StoreReady? || s.pc.Count?) == NumExecuting(s.slots)
  }

  /** The call whose instruction is being handled has not been given to a slot yet. */
  predicate CallPending(pc: Pc) {
    || pc.Find? || pc.Probe? || pc.CheckReady? || pc.CheckDone? || pc.Arm? || pc.Fill?
    || (Completing(pc) && pc.k == ToSchedule)
  }

  /** Without worker threads only slot 0 is ever used and it is free between calls. */
  ghost predicate DirectInv(s: State)
    requires |s.slots| == MAX_THREADS
  {
    !s.threaded ==>
      && (forall i :: 1 <= i < MAX_THREADS ==> Absent(s.slots[i]))
      && (s.pc.Find? ==> s.pc.i == 0)
      && (Current(s.pc) == 0 || Current(s.pc) == MAX_THREADS)
      && (s.slots[0].executing ==>
            Completing(s.pc) || s.pc.SetReady? || s.pc.StoreReady? || s.pc.Count? || s.pc.DirectStart? || s.pc.Direct?)
      && (s.pc.Count? ==> Scheduled(s.slots[0]) && s.slots[0].pc == WWait)
  }

  predicate Final(pc: Pc) {
    pc.FinalWait? || pc.FinalScan? || pc.FinalWrite? || (Completing(pc) && pc.k.ToFinal?)
  }

  predicate Over(s: State) { s.collide || s.pc.PassEnd? || s.pc.Finished? }

  /** Conservation: during the first pass each call given out so far is recorded once or
      held by one slot; afterwards each call of the program has exactly one record. */
  ghost predicate Balanced(s: State) {
    if Over(s) then forall j: nat :: NumRecords(s.records, j) == One(j < s.ncalls)
    else forall j: nat :: NumRecords(s.records, j) + NumHolding(s.slots, j) == One(j < s.nextCall)
  }

  ghost predicate RecordInv(s: State)
    requires |s.slots| == MAX_THREADS
  {
    && s.nextCall <= s.ncalls
    && (CallPending(s.pc) ==> s.nextCall < s.ncalls)
    && (Final(s.pc) ==> !s.collide && s.nextCall == s.ncalls)
    && Balanced(s)
    && (!Over(s) ==> forall i :: 0 <= i < MAX_THREADS && s.slots[i].executing ==> !s.slots[i].colliding)
    && (!Over(s) && !s.pc.FinalWrite? ==> forall i :: 0 <= i < MAX_THREADS && s.slots[i].executing ==>
          (s.slots[i].recorded <==> s.pc.CompleteEnd? && s.pc.i == i))
    && (!Over(s) && s.pc.FinalWrite? ==> forall i :: 0 <= i < MAX_THREADS && s.slots[i].executing ==>
          (s.slots[i].recorded <==> i < s.pc.i))
    && (s.pc.Fill? && !Over(s) ==> !s.slots[Current(s.pc) % MAX_THREADS].colliding)
  }

  /** Events, flags and counters. */
  ghost predicate Protocol(s: State) {
    && |s.slots| == MAX_THREADS
    && (s.flagCollide ==> s.threaded)
    && (s.collide ==> s.flagCollide)
    && (forall i :: 0 <= i < MAX_THREADS ==> SlotInv(s, i))
    && PcInv(s)
    && RunningInv(s)
    && DirectInv(s)
  }

  ghost predicate Inv(s: State) {
    Protocol(s) && RecordInv(s)
  }

  lemma {:induction false} InitInv(threaded: bool, flagCollide: bool, ncalls: nat)
    requires flagCollide ==> threaded
    ensures Inv(Init(threaded, flagCollide, ncalls))
  {
    var s := Init(threaded, flagCollide, ncalls);
    forall j: nat ensures NumRecords(s.records, j) + NumHolding(s.slots, j) == One(j < s.nextCall) {
      BlankCounts(MAX_THREADS, j);
    }
    BlankCounts(MAX_THREADS, 0);
  }

  /** Counts do not change when a slot keeps executing flag, job and record mark. */
  lemma {:induction false} SameCounts(ss: seq<Slot>, i: nat, t: Slot)
    requires i < |ss| && t.executing == ss[i].executing
    requires (t.executing ==> t.recorded == ss[i].recorded && t.job == ss[i].job)
    ensures NumExecuting(ss[i := t]) == NumExecuting(ss)
    ensures forall j: nat :: NumHolding(ss[i := t], j) == NumHolding(ss, j)
  {
    NumExecutingUpdate(ss, i, t);
    forall j: nat ensures NumHolding(ss[i := t], j) == NumHolding(ss, j) {
      NumHoldingUpdate(ss, i, t, j);
    }
  }

  // ----- workers -----

  lemma {:induction false} WorkerSlot(s: State, i: nat)
    requires Inv(s) && i < MAX_THREADS && s.slots[i].created
    ensures var r := WorkerBody(s.slots[i]);
            && r.0
            && SlotInv(s.(slots := s.slots[i := r.1]), i)
            && r.1.executing == s.slots[i].executing && r.1.job == s.slots[i].job
            && r.1.recorded == s.slots[i].recorded && r.1.colliding == s.slots[i].colliding && r.1.created
            && (Idle(s.slots[i]) || Done(s.slots[i]) ==> r.1 == s.slots[i])
  {
    assert SlotInv(s, i);
  }

  lemma {:induction false} WorkerKeeps(s: State, i: nat)
    requires Inv(s)
    ensures Inv(WorkerNext(s, i))
  {
    if i < |s.slots| && s.threaded && s.slots[i].created {
      WorkerSlot(s, i);
      var t := WorkerBody(s.slots[i]).1;
      SameCounts(s.slots, i, t);
      var s' := s.(slots := s.slots[i := t]);
      assert forall k :: 0 <= k < MAX_THREADS ==> SlotInv(s', k) by {
        forall k | 0 <= k < MAX_THREADS ensures SlotInv(s', k) { assert SlotInv(s, k); }
      }
      WorkerRecords(s, i, t);
      assert PcInv(s');
    }
  }

  /** A slot change that keeps what the records depend on. */
  lemma {:induction false} WorkerRecords(s: State, i: nat, t: Slot)
    requires Inv(s) && i < MAX_THREADS && t.executing == s.slots[i].executing && t.job == s.slots[i].job
    requires t.recorded == s.slots[i].recorded && t.colliding == s.slots[i].colliding
    ensures RecordInv(s.(slots := s.slots[i := t]))
  {
    SameCounts(s.slots, i, t);
  }

  // ----- the scheduler: schedule_call -----

  lemma {:induction false} FindKeeps(s: State, ch: Choice)
    requires Protocol(s) && (s.pc.Find?)
    ensures Protocol(ScheduleNext(s, ch))
  {
    var s' := ScheduleNext(s, ch);
    var i := s.pc.i;
    if i < MAX_THREADS {
      assert SlotInv(s, i);
      if !s.slots[i].created { SameCounts(s.slots, i, s'.slots[i]); }
    }
    forall k | 0 <= k < MAX_THREADS ensures SlotInv(s', k) { assert SlotInv(s, k); }
  }

  lemma {:induction false} FindKeepsRecords(s: State, ch: Choice)
    requires Inv(s) && (s.pc.Find?)
    ensures RecordInv(ScheduleNext(s, ch))
  {
    var s' := ScheduleNext(s, ch);
    var i := s.pc.i;
    if i < MAX_THREADS {
      assert SlotInv(s, i);
      if !s.slots[i].created { SameCounts(s.slots, i, s'.slots[i]); }
    }
  }

  lemma {:induction false} ProbeKeeps(s: State, ch: Choice)
    requires Protocol(s) && (s.pc.Probe?)
    ensures Protocol(ScheduleNext(s, ch))
  {
    var s' := ScheduleNext(s, ch);
    assert SlotInv(s, s.pc.i);
    forall k | 0 <= k < MAX_THREADS ensures SlotInv(s', k) { assert SlotInv(s, k); }
  }

  lemma {:induction false} ProbeKeepsRecords(s: State, ch: Choice)
    requires |s.slots| == MAX_THREADS && PcInv(s) && RunningInv(s) && RecordInv(s) && (s.pc.Probe?)
    ensures RecordInv(ScheduleNext(s, ch))
  {
    var s' := ScheduleNext(s, ch);
    assert s' == Go(s, s'.pc) && (Over(s') <==> Over(s)) && !s'.pc.FinalWrite? && !s'.pc.CompleteEnd? && !s'.pc.Fill?;
  }

  lemma {:induction false} CheckKeeps(s: State, ch: Choice)
    requires Protocol(s) && (s.pc.CheckReady? || s.pc.CheckDone?)
    ensures Protocol(ScheduleNext(s, ch))
  {
    var s' := ScheduleNext(s, ch);
    forall k | 0 <= k < MAX_THREADS ensures SlotInv(s', k) { assert SlotInv(s, k); }
  }

  lemma {:induction false} CheckKeepsRecords(s: State, ch: Choice)
    requires |s.slots| == MAX_THREADS && PcInv(s) && RunningInv(s) && RecordInv(s)
    requires (s.pc.CheckReady? || s.pc.CheckDone?)
    ensures RecordInv(ScheduleNext(s, ch))
  {
    var s' := ScheduleNext(s, ch);
  }

  lemma {:induction false} ArmKeeps(s: State, ch: Choice)
    requires Protocol(s) && (s.pc.Arm?)
    ensures Protocol(ScheduleNext(s, ch))
  {
    var s' := ScheduleNext(s, ch);
    SameCounts(s.slots, s.pc.i, s'.slots[s.pc.i]);
    forall k | 0 <= k < MAX_THREADS ensures SlotInv(s', k) { assert SlotInv(s, k); }
  }

  lemma {:induction false} ArmKeepsRecords(s: State, ch: Choice)
    requires |s.slots| == MAX_THREADS && PcInv(s) && RunningInv(s) && RecordInv(s) && (s.pc.Arm?)
    ensures RecordInv(ScheduleNext(s, ch))
  {
    var s' := ScheduleNext(s, ch);
    SameCounts(s.slots, s.pc.i, s'.slots[s.pc.i]);
  }

  lemma {:induction false} FillKeeps(s: State, ch: Choice)
    requires Protocol(s) && (s.pc.Fill?)
    ensures Protocol(ScheduleNext(s, ch))
  {
    var s' := ScheduleNext(s, ch);
    var i := s.pc.i;
    assert SlotInv(s, i);
    NumExecutingUpdate(s.slots, i, s'.slots[i]);
    forall k | 0 <= k < MAX_THREADS ensures SlotInv(s', k) { assert SlotInv(s, k); }
  }

  lemma {:induction false} FillKeepsRecords(s: State, ch: Choice)
    requires Inv(s) && (s.pc.Fill?)
    ensures RecordInv(ScheduleNext(s, ch))
  {
    var s' := ScheduleNext(s, ch);
    var i := s.pc.i;
    assert SlotInv(s, i);
    if !Over(s) {
      forall j: nat ensures NumRecords(s'.records, j) + NumHolding(s'.slots, j) == One(j < s'.nextCall) {
        NumHoldingUpdate(s.slots, i, s'.slots[i], j);
        assert NumRecords(s.records, j) + NumHolding(s.slots, j) == One(j < s.nextCall);
      }
    }
  }

  lemma {:induction false} ReadyKeeps(s: State, ch: Choice)
    requires Protocol(s) && (s.pc.SetReady? || s.pc.StoreReady?)
    ensures Protocol(ScheduleNext(s, ch))
  {
    var s' := ScheduleNext(s, ch);
    var i := s.pc.i;
    assert SlotInv(s, i);
    assert s'.slots == s.slots[i := s'.slots[i]];
    SameCounts(s.slots, i, s'.slots[i]);
    forall k | 0 <= k < MAX_THREADS ensures SlotInv(s', k) { assert SlotInv(s, k); }
  }

  lemma {:induction false} ReadyKeepsRecords(s: State, ch: Choice)
    requires |s.slots| == MAX_THREADS && PcInv(s) && RunningInv(s) && RecordInv(s)
    requires (s.pc.SetReady? || s.pc.StoreReady?)
    ensures RecordInv(ScheduleNext(s, ch))
  {
    var s' := ScheduleNext(s, ch);
    var i := s.pc.i;
    assert s'.slots == s.slots[i := s'.slots[i]];
    SameCounts(s.slots, i, s'.slots[i]);
  }

  lemma {:induction false} CountKeeps(s: State, ch: Choice)
    requires Protocol(s) && (s.pc.Count?)
    ensures Protocol(ScheduleNext(s, ch))
  {
    var s' := ScheduleNext(s, ch);
    forall k | 0 <= k < MAX_THREADS ensures SlotInv(s', k) { assert SlotInv(s, k); }
  }

  lemma {:induction false} CountKeepsRecords(s: State, ch: Choice)
    requires |s.slots| == MAX_THREADS && PcInv(s) && RunningInv(s) && RecordInv(s) && (s.pc.Count?)
    ensures RecordInv(ScheduleNext(s, ch))
  {
    var s' := ScheduleNext(s, ch);
  }

  // ----- the scheduler: handle_completion -----

  lemma {:induction false} CompleteCheckKeeps(s: State, ch: Choice)
    requires Protocol(s) && (s.pc.CompleteReady? || s.pc.CompleteDone?)
    ensures Protocol(CompleteNext(s, ch))
  {
    var s' := CompleteNext(s, ch);
    forall k | 0 <= k < MAX_THREADS ensures SlotInv(s', k) { assert SlotInv(s, k); }
  }

  lemma {:induction false} CompleteCheckKeepsRecords(s: State, ch: Choice)
    requires |s.slots| == MAX_THREADS && PcInv(s) && RunningInv(s) && RecordInv(s)
    requires (s.pc.CompleteReady? || s.pc.CompleteDone?)
    ensures RecordInv(CompleteNext(s, ch))
  {
    var s' := CompleteNext(s, ch);
  }

  lemma {:induction false} CompleteOutputKeeps(s: State, ch: Choice)
    requires Protocol(s) && (s.pc.CompleteOutput?)
    ensures Protocol(CompleteNext(s, ch))
  {
    var s' := CompleteNext(s, ch);
    var i := s.pc.i;
    NumExecutingUpdate(s.slots, i, s'.slots[i]);
    assert s'.slots == s.slots[i := s'.slots[i]];
    forall k | 0 <= k < MAX_THREADS ensures SlotInv(s', k) { assert SlotInv(s, k); }
  }

  lemma {:induction false} CompleteOutputKeepsRecords(s: State, ch: Choice)
    requires |s.slots| == MAX_THREADS && PcInv(s) && RunningInv(s) && RecordInv(s) && (s.pc.CompleteOutput?)
    ensures RecordInv(CompleteNext(s, ch))
  {
    var s' := CompleteNext(s, ch);
    var i := s.pc.i;
    assert s'.slots == s.slots[i := s'.slots[i]];
    var rec := CallRecord(s.slots[i].job.callIndex, true);
    var more := if ch.extra then [ExtraRecord] else [];
    assert s.records + [rec] + more == s.records + ([rec] + more);
    if !Over(s) {
      forall j: nat ensures NumRecords(s'.records, j) + NumHolding(s'.slots, j) == One(j < s'.nextCall) {
        NumHoldingUpdate(s.slots, i, s'.slots[i], j);
        NumRecordsAppend(s.records, [rec] + more, j);
        NumRecordsAppend([rec], more, j);
        assert NumRecords(s.records, j) + NumHolding(s.slots, j) == One(j < s.nextCall);
      }
    }
  }

  lemma {:induction false} CompleteEndKeeps(s: State, ch: Choice)
    requires Protocol(s) && (s.pc.CompleteEnd?)
    ensures Protocol(CompleteNext(s, ch))
  {
    var s' := CompleteNext(s, ch);
    var i := s.pc.i;
    NumExecutingUpdate(s.slots, i, s'.slots[i]);
    NumExecutingPositive(s.slots, i);
    forall k | 0 <= k < MAX_THREADS ensures SlotInv(s', k) { assert SlotInv(s, k); }
  }

  lemma {:induction false} CompleteEndKeepsRecords(s: State, ch: Choice)
    requires |s.slots| == MAX_THREADS && PcInv(s) && RunningInv(s) && RecordInv(s) && (s.pc.CompleteEnd?)
    ensures RecordInv(CompleteNext(s, ch))
  {
    var s' := CompleteNext(s, ch);
    var i := s.pc.i;
    NumExecutingPositive(s.slots, i);
    if !Over(s) {
      forall j: nat ensures NumRecords(s'.records, j) + NumHolding(s'.slots, j) == One(j < s'.nextCall) {
        NumHoldingUpdate(s.slots, i, s'.slots[i], j);
        assert NumRecords(s.records, j) + NumHolding(s.slots, j) == One(j < s.nextCall);
      }
    }
  }

  // ----- the scheduler: execute_one -----

  /** When the first pass ends nothing is held any more. */
  lemma {:induction false} PassIsOver(s: State)
    requires |s.slots| == MAX_THREADS && Balanced(s) && !Over(s) && s.nextCall == s.ncalls
    requires forall i :: 0 <= i < MAX_THREADS ==> !s.slots[i].executing || s.slots[i].recorded
    ensures forall j: nat :: NumRecords(s.records, j) == One(j < s.ncalls)
  {
    forall j: nat ensures NumRecords(s.records, j) == One(j < s.ncalls) {
      NothingHeld(s.slots, j);
      assert NumRecords(s.records, j) + NumHolding(s.slots, j) == One(j < s.nextCall);
    }
  }

  lemma {:induction false} ExtraCounts(rs: seq<Record>, j: nat)
    ensures NumRecords(rs + [ExtraRecord], j) == NumRecords(rs, j)
  {
    NumRecordsAppend(rs, [ExtraRecord], j);
  }

  lemma {:induction false} NextKeeps(s: State, ch: Choice)
    requires Protocol(s) && (s.pc.Next?)
    ensures Protocol(MainNext(s, ch))
  {
    var s' := MainNext(s, ch);
    forall k | 0 <= k < MAX_THREADS ensures SlotInv(s', k) { assert SlotInv(s, k); }
  }

  lemma {:induction false} NextKeepsRecords(s: State, ch: Choice)
    requires |s.slots| == MAX_THREADS && PcInv(s) && RunningInv(s) && RecordInv(s) && (s.pc.Next?)
    ensures RecordInv(MainNext(s, ch))
  {
    var s' := MainNext(s, ch);
    if s'.pc.PassEnd? && !s.collide {
      NoneExecuting(s.slots);
      PassIsOver(s);
    }
  }

  lemma {:induction false} WaitKeeps(s: State, ch: Choice)
    requires Protocol(s) && (s.pc.Wait?)
    ensures Protocol(MainNext(s, ch))
  {
    var s' := MainNext(s, ch);
    assert SlotInv(s, s.pc.i);
    forall k | 0 <= k < MAX_THREADS ensures SlotInv(s', k) { assert SlotInv(s, k); }
  }

  lemma {:induction false} WaitKeepsRecords(s: State, ch: Choice)
    requires |s.slots| == MAX_THREADS && PcInv(s) && RunningInv(s) && RecordInv(s) && (s.pc.Wait?)
    ensures RecordInv(MainNext(s, ch))
  {
    var s' := MainNext(s, ch);
  }

  lemma {:induction false} ScanKeeps(s: State, ch: Choice)
    requires Protocol(s) && (s.pc.Scan? || s.pc.FinalScan?)
    ensures Protocol(MainNext(s, ch))
  {
    var s' := MainNext(s, ch);
    if s.pc.i < MAX_THREADS { assert SlotInv(s, s.pc.i); }
    forall k | 0 <= k < MAX_THREADS ensures SlotInv(s', k) { assert SlotInv(s, k); }
  }

  lemma {:induction false} ScanKeepsRecords(s: State, ch: Choice)
    requires |s.slots| == MAX_THREADS && PcInv(s) && RunningInv(s) && RecordInv(s) && (s.pc.Scan? || s.pc.FinalScan?)
    ensures RecordInv(MainNext(s, ch))
  {
    var s' := MainNext(s, ch);
  }

  lemma {:induction false} DirectKeeps(s: State, ch: Choice)
    requires Protocol(s) && (s.pc.DirectStart? || s.pc.Direct?)
    ensures Protocol(MainNext(s, ch))
  {
    var s' := MainNext(s, ch);
    assert SlotInv(s, 0);
    SameCounts(s.slots, 0, s'.slots[0]);
    forall k | 0 <= k < MAX_THREADS ensures SlotInv(s', k) { assert SlotInv(s, k); }
  }

  lemma {:induction false} DirectKeepsRecords(s: State, ch: Choice)
    requires |s.slots| == MAX_THREADS && PcInv(s) && RunningInv(s) && RecordInv(s)
    requires (s.pc.DirectStart? || s.pc.Direct?)
    ensures RecordInv(MainNext(s, ch))
  {
    if s.pc.DirectStart? {
      DirectStartKeepsRecords(s, ch);
    } else {
      DirectRunKeepsRecords(s, ch);
    }
  }

  lemma {:induction false} DirectStartKeepsRecords(s: State, ch: Choice)
    requires |s.slots| == MAX_THREADS && PcInv(s) && RunningInv(s) && RecordInv(s) && s.pc.DirectStart?
    ensures RecordInv(MainNext(s, ch))
  {
    var s' := MainNext(s, ch);
    SameCounts(s.slots, 0, s'.slots[0]);
  }

  lemma {:induction false} DirectRunKeepsRecords(s: State, ch: Choice)
    requires |s.slots| == MAX_THREADS && PcInv(s) && RunningInv(s) && RecordInv(s) && s.pc.Direct?
    ensures RecordInv(MainNext(s, ch))
  {
    var s' := MainNext(s, ch);
    SameCounts(s.slots, 0, s'.slots[0]);
  }

  lemma {:induction false} FinalWaitKeeps(s: State, ch: Choice)
    requires Protocol(s) && (s.pc.FinalWait?)
    ensures Protocol(MainNext(s, ch))
  {
    var s' := MainNext(s, ch);
    forall k | 0 <= k < MAX_THREADS ensures SlotInv(s', k) { assert SlotInv(s, k); }
  }

  lemma {:induction false} FinalWaitKeepsRecords(s: State, ch: Choice)
    requires |s.slots| == MAX_THREADS && PcInv(s) && RunningInv(s) && RecordInv(s) && (s.pc.FinalWait?)
    ensures RecordInv(MainNext(s, ch))
  {
    var s' := MainNext(s, ch);
    if s'.pc.PassEnd? {
      NoneExecuting(s.slots);
      PassIsOver(s);
    }
  }

  lemma {:induction false} FinalWriteKeeps(s: State, ch: Choice)
    requires Protocol(s) && (s.pc.FinalWrite?)
    ensures Protocol(MainNext(s, ch))
  {
    var s' := MainNext(s, ch);
    var i := s.pc.i;
    if i < MAX_THREADS && s.slots[i].executing { NumExecutingUpdate(s.slots, i, s'.slots[i]); }
    forall k | 0 <= k < MAX_THREADS ensures SlotInv(s', k) { assert SlotInv(s, k); }
  }

  lemma {:induction false} FinalWriteBalance(s: State, i: nat, t: Slot)
    requires |s.slots| == MAX_THREADS && i < MAX_THREADS && s.slots[i].executing && !s.slots[i].recorded
    requires !Over(s) && Balanced(s) && t == s.slots[i].(recorded := true)
    ensures var rs := s.records + [CallRecord(s.slots[i].job.callIndex, false)];
            forall j: nat :: NumRecords(rs, j) + NumHolding(s.slots[i := t], j) == One(j < s.nextCall)
  {
    var rec := CallRecord(s.slots[i].job.callIndex, false);
    forall j: nat ensures NumRecords(s.records + [rec], j) + NumHolding(s.slots[i := t], j) == One(j < s.nextCall) {
      NumHoldingUpdate(s.slots, i, t, j);
      NumRecordsAppend(s.records, [rec], j);
      assert NumRecords(s.records, j) + NumHolding(s.slots, j) == One(j < s.nextCall);
    }
  }

  lemma {:induction false} FinalWriteKeepsRecords(s: State, ch: Choice)
    requires |s.slots| == MAX_THREADS && PcInv(s) && RecordInv(s) && s.pc.FinalWrite?
    ensures RecordInv(MainNext(s, ch))
  {
    var s' := MainNext(s, ch);
    var i := s.pc.i;
    if i >= MAX_THREADS {
      PassIsOver(s);
      forall j: nat ensures NumRecords(s'.records, j) == One(j < s'.ncalls) {
        ExtraCounts(s.records, j);
        assert NumRecords(s.records, j) == One(j < s.ncalls);
      }
    } else if s.slots[i].executing {
      FinalWriteBalance(s, i, s'.slots[i]);
    }
  }

  lemma {:induction false} PassEndKeeps(s: State, ch: Choice)
    requires Protocol(s) && (s.pc.PassEnd?)
    ensures Protocol(MainNext(s, ch))
  {
    var s' := MainNext(s, ch);
    forall k | 0 <= k < MAX_THREADS ensures SlotInv(s', k) { assert SlotInv(s, k); }
  }

  lemma {:induction false} PassEndKeepsRecords(s: State, ch: Choice)
    requires |s.slots| == MAX_THREADS && PcInv(s) && RunningInv(s) && RecordInv(s) && (s.pc.PassEnd?)
    ensures RecordInv(MainNext(s, ch))
  {
    var s' := MainNext(s, ch);
    forall j: nat ensures NumRecords(s'.records, j) == One(j < s'.ncalls) {
      ExtraCounts(s.records, j);
      assert NumRecords(s.records, j) == One(j < s.ncalls);
    }
  }

  lemma {:induction false} ScheduleKeeps(s: State, ch: Choice)
    requires Inv(s) && Scheduling(s.pc)
    ensures Inv(ScheduleNext(s, ch))
  {
    match s.pc
    case Find(_) => FindKeeps(s, ch); FindKeepsRecords(s, ch);
    case Probe(_) => ProbeKeeps(s, ch); ProbeKeepsRecords(s, ch);
    case CheckReady(_) => CheckKeeps(s, ch); CheckKeepsRecords(s, ch);
    case CheckDone(_) => CheckKeeps(s, ch); CheckKeepsRecords(s, ch);
    case Arm(_) => ArmKeeps(s, ch); ArmKeepsRecords(s, ch);
    case Fill(_) => FillKeeps(s, ch); FillKeepsRecords(s, ch);
    case SetReady(_) => ReadyKeeps(s, ch); ReadyKeepsRecords(s, ch);
    case StoreReady(_) => ReadyKeeps(s, ch); ReadyKeepsRecords(s, ch);
    case Count(_) => CountKeeps(s, ch); CountKeepsRecords(s, ch);
  }

  lemma {:induction false} CompleteKeeps(s: State, ch: Choice)
    requires Inv(s) && Completing(s.pc)
    ensures Inv(CompleteNext(s, ch))
  {
    match s.pc
    case CompleteReady(_, _) => CompleteCheckKeeps(s, ch); CompleteCheckKeepsRecords(s, ch);
    case CompleteDone(_, _) => CompleteCheckKeeps(s, ch); CompleteCheckKeepsRecords(s, ch);
    case CompleteOutput(_, _) => CompleteOutputKeeps(s, ch); CompleteOutputKeepsRecords(s, ch);
    case CompleteEnd(_, _) => CompleteEndKeeps(s, ch); CompleteEndKeepsRecords(s, ch);
  }

  lemma {:induction false} MainKeeps(s: State, ch: Choice)
    requires Inv(s) && !Scheduling(s.pc) && !Completing(s.pc)
    ensures Inv(MainNext(s, ch))
  {
    match s.pc
    case Next => NextKeeps(s, ch); NextKeepsRecords(s, ch);
    case Wait(_) => WaitKeeps(s, ch); WaitKeepsRecords(s, ch);
    case Scan(_) => ScanKeeps(s, ch); ScanKeepsRecords(s, ch);
    case DirectStart => DirectKeeps(s, ch); DirectKeepsRecords(s, ch);
    case Direct => DirectKeeps(s, ch); DirectKeepsRecords(s, ch);
    case FinalWait => FinalWaitKeeps(s, ch); FinalWaitKeepsRecords(s, ch);
    case FinalScan(_) => ScanKeeps(s, ch); ScanKeepsRecords(s, ch);
    case FinalWrite(_) => FinalWriteKeeps(s, ch); FinalWriteKeepsRecords(s, ch);
    case PassEnd => PassEndKeeps(s, ch); PassEndKeepsRecords(s, ch);
    case Finished =>
    case Exit =>
  }

  lemma {:induction false} StepKeeps(s: State, a: Action)
    requires Inv(s)
    ensures Inv(Step(s, a))
  {
    match a
    case WorkerStep(i) => WorkerKeeps(s, i);
    case SchedulerStep(ch) =>
      if Scheduling(s.pc) {
        ScheduleKeeps(s, ch);
      } else if Completing(s.pc) {
        CompleteKeeps(s, ch);
      } else {
        MainKeeps(s, ch);
      }
  }

  // ----- main results -----

  /** Every state of every interleaving satisfies the invariant. */
  lemma {:induction false} RunKeeps(s: State, actions: seq<Action>)
    requires Inv(s)
    ensures Inv(Run(s, actions))
    decreases |actions|
  {
    if actions != [] {
      StepKeeps(s, actions[0]);
      RunKeeps(Step(s, actions[0]), actions[1..]);
    }
  }

  /** No run fails: no "bad thread state", no "event already set", no negative `running`,
      no worker slot other than 0 without threads. */
  lemma {:induction false} Safety(threaded: bool, flagCollide: bool, ncalls: nat, actions: seq<Action>)
    requires flagCollide ==> threaded
    ensures var s := Run(Init(threaded, flagCollide, ncalls), actions);
            && !s.pc.Failed? && |s.slots| == MAX_THREADS
            && (s.pc.Next? ==> s.running == NumExecuting(s.slots))
            && forall i :: 0 <= i < MAX_THREADS ==> SlotInv(s, i)
  {
    InitInv(threaded, flagCollide, ncalls);
    RunKeeps(Init(threaded, flagCollide, ncalls), actions);
  }

  lemma {:induction false} WorkerLeavesJobs(s: State, k: nat, i: nat)
    requires i < |s.slots|
    ensures |WorkerNext(s, k).slots| == |s.slots| && WorkerNext(s, k).slots[i].job == s.slots[i].job
  {
  }

  lemma {:induction false} ScheduleLeavesJobs(s: State, ch: Choice, i: nat)
    requires i < |s.slots| && s.pc != Fill(i)
    ensures |ScheduleNext(s, ch).slots| == |s.slots| && ScheduleNext(s, ch).slots[i].job == s.slots[i].job
  {
  }

  lemma {:induction false} CompleteLeavesJobs(s: State, ch: Choice, i: nat)
    requires i < |s.slots|
    ensures |CompleteNext(s, ch).slots| == |s.slots| && CompleteNext(s, ch).slots[i].job == s.slots[i].job
  {
  }

  lemma {:induction false} MainLeavesJobs(s: State, ch: Choice, i: nat)
    requires i < |s.slots|
    ensures |MainNext(s, ch).slots| == |s.slots| && MainNext(s, ch).slots[i].job == s.slots[i].job
  {
    if s.pc.Direct? {
      assert WorkerBody(s.slots[0]).1.job == s.slots[0].job;
    } else if s.pc.FinalWrite? {
    } else if s.pc.DirectStart? {
    } else {
      assert MainNext(s, ch).slots == s.slots;
    }
  }

  /** A slot's job changes only while the slot is idle for its worker: the worker waits for
      `ready`, which is down, so it cannot be reading the job. */
  lemma {:induction false} JobsChangeOnlyWhileIdle(s: State, a: Action, i: nat)
    requires Inv(s) && i < MAX_THREADS && i < |Step(s, a).slots| && Step(s, a).slots[i].job != s.slots[i].job
    ensures s.slots[i].pc == WWait && !s.slots[i].ready && !s.slots[i].executing
    ensures a.SchedulerStep? && s.pc == Fill(i)
  {
    assert a.SchedulerStep? && s.pc == Fill(i) by {
      match a
      case WorkerStep(k) => WorkerLeavesJobs(s, k, i);
      case SchedulerStep(ch) =>
        if s.pc != Fill(i) { ScheduleLeavesJobs(s, ch, i); }
        CompleteLeavesJobs(s, ch, i);
        MainLeavesJobs(s, ch, i);
    }
    assert SlotInv(s, i);
  }

  /** A completed call is the call that was scheduled. */
  lemma {:induction false} CompletedCallWasScheduled(s: State)
    requires Inv(s) && Completing(s.pc)
    ensures s.slots[s.pc.i].ran == s.slots[s.pc.i].job
  {
  }

  /** A run that completes the first pass has exactly one record per call, finished or not,
      and no record for anything else. */
  lemma {:induction false} OneRecordPerCall(threaded: bool, flagCollide: bool, ncalls: nat, actions: seq<Action>,
      j: nat)
    requires flagCollide ==> threaded
    ensures var s := Run(Init(threaded, flagCollide, ncalls), actions);
            Over(s) ==> NumRecords(s.records, j) == One(j < ncalls)
  {
    InitInv(threaded, flagCollide, ncalls);
    RunKeeps(Init(threaded, flagCollide, ncalls), actions);
    RunConstants(Init(threaded, flagCollide, ncalls), actions);
  }

  lemma {:induction false} StepConstants(s: State, a: Action)
    ensures Step(s, a).ncalls == s.ncalls
  {
  }

  lemma {:induction false} RunConstants(s: State, actions: seq<Action>)
    ensures Run(s, actions).ncalls == s.ncalls
    decreases |actions|
  {
    if actions != [] {
      StepConstants(s, actions[0]);
      RunConstants(Step(s, actions[0]), actions[1..]);
    }
  }

  /** The collide pass adds no record. */
  lemma {:induction false} CollideAddsNothing(s: State, a: Action)
    requires Inv(s) && s.collide
    ensures Step(s, a).records == s.records && Step(s, a).collide
  {
  }
}
