/**
  The registry protocol winds down: every step but a new call uses up some of a finite rank, and until
  all is done some thread can take one. So guards come free, idle workers retire, calls return and
  accepted messages are executed, whatever the interleaving.
*/
module WorkerRegistryProgress {
  import opened Wrappers
  import opened Playbook
  import opened Sequences
  import opened WorkerRegistry
  import opened WorkerRegistryProof
  import opened WorkerRegistrySafety

  // ---------------------------------------------------------------- the rank

  /** More than what one step of a call can add to the rank of a worker. */
  const CALL_STEP := 6

  /** What a queued message can still cost. */
  const MESSAGE := 5

  /** How many steps a call has yet to take at most. */
  function StepsLeft(pc: CallPc): nat {
    match pc
    case WantRead => 7
    case Lookup => 6
    case FastSend(_) => 5
    case FastDone(_) => 4
    case Missed => 5
    case WantWrite => 4
    case Recheck => 3
    case SlowSend(_, _) => 2
    case SlowDone(_, _) => 1
    case Returned(_, _) => 0
  }

  function WorkerPcRank(pc: WorkerPc): nat {
    match pc
    case Rescued(_) => 7
    case Running(_) => 6
    case Receiving => 5
    case Expired => 4
    case LastLook => 3
    case Removing => 2
    case Removed => 1
    case Gone => 0
  }

  function CallRank(c: Call): nat {
    CALL_STEP * StepsLeft(c.pc)
  }

  function WorkerRank(w: Worker): nat {
    MESSAGE * |w.queue| + WorkerPcRank(w.pc)
  }

  function Rank(s: State): nat {
    Sum(s.calls, CallRank) + Sum(s.workers, WorkerRank)
  }

  // ---------------------------------------------------------------- every step uses up rank

  lemma {:induction false} QuietCallStepRank(s: State, step: Step)
    requires Enabled(s, step) && StepsCall(step) && !step.SendFast? && !step.SendSlow? && !step.CheckAgain?
    ensures var t, k := Apply(s, step), step.k;
      t.workers == s.workers && t.calls == s.calls[k := t.calls[k]] && CallRank(t.calls[k]) < CallRank(s.calls[k])
  {
  }

  lemma {:induction false} SendRank(s: State, k: nat, w: nat, pc: CallPc)
    requires CallAt(s, k) && WorkerAt(s, w) && StepsLeft(pc) < StepsLeft(s.calls[k].pc)
    ensures Rank(Sent(s, k, w, pc)) < Rank(s)
  {
    var t := Sent(s, k, w, pc);
    SumUpdate(s.calls, k, t.calls[k], CallRank);
    if TrySend(s, w).Accepted? {
      SumUpdate(s.workers, w, t.workers[w], WorkerRank);
    }
  }

  lemma {:induction false} CheckMoves(s: State, k: nat)
    requires Enabled(s, CheckAgain(k))
    ensures var t := Checked(s, k);
      && t.calls == s.calls[k := t.calls[k]] && CallRank(t.calls[k]) + CALL_STEP <= CallRank(s.calls[k])
      && (t.workers == s.workers || t.workers == s.workers + [Worker(s.calls[k].id, [], Receiving)])
  {
  }

  lemma {:induction false} CheckRank(s: State, t: State, k: nat)
    requires Enabled(s, CheckAgain(k)) && t == Checked(s, k)
    ensures Rank(t) < Rank(s)
  {
    CheckMoves(s, k);
    SumUpdate(s.calls, k, t.calls[k], CallRank);
    if t.workers != s.workers {
      SumMore(s.workers, Worker(s.calls[k].id, [], Receiving), WorkerRank);
    }
  }

  lemma {:induction false} WorkerStepRank(s: State, step: Step)
    requires Enabled(s, step) && !step.Offer? && !StepsCall(step)
    ensures var t, w := Apply(s, step), step.w;
      && t.calls == s.calls && w < |t.workers| && t.workers == s.workers[w := t.workers[w]]
      && WorkerRank(t.workers[w]) < WorkerRank(s.workers[w])
  {
    match step
    case Receive(w) =>
    case Finish(w) =>
    case TimeOut(w) =>
    case TakeWriteToRetire(w) =>
    case TryReceive(w) =>
    case DropWriteAndRun(w) =>
    case RemoveEntry(w) =>
    case Exit(w) =>
  }

  /** Every step but a new call, a timeout included, brings the protocol nearer to its end. */
  lemma {:induction false} EveryStepCounts(s: State, step: Step)
    requires Enabled(s, step) && !step.Offer?
    ensures Rank(Apply(s, step)) < Rank(s)
  {
    var t := Apply(s, step);
    if step.SendFast? || step.SendSlow? {
      SendRank(s, step.k, s.calls[step.k].pc.worker, t.calls[step.k].pc);
    } else if step.CheckAgain? {
      CheckRank(s, t, step.k);
    } else if StepsCall(step) {
      QuietCallStepRank(s, step);
      SumUpdate(s.calls, step.k, t.calls[step.k], CallRank);
    } else {
      WorkerStepRank(s, step);
      SumUpdate(s.workers, step.w, t.workers[step.w], WorkerRank);
    }
  }

  // ---------------------------------------------------------------- until all is done, some step is enabled

  predicate Quiet(s: State) {
    && (forall k :: 0 <= k < |s.calls| ==> s.calls[k].pc.Returned?)
    && (forall w :: 0 <= w < |s.workers| ==> s.workers[w].pc.Gone?)
  }

  lemma {:induction false} SomethingMoves(s: State) returns (step: Step)
    requires Inv(s) && !Quiet(s)
    ensures Enabled(s, step) && !step.Offer?
  {
    if k :| 0 <= k < |s.calls| && !s.calls[k].pc.Returned? {
      step := SomeStep(s, k);
    } else {
      var w :| 0 <= w < |s.workers| && !s.workers[w].pc.Gone?;
      step := match s.workers[w].pc
        case Receiving => TimeOut(w)
        case Running(_) => Finish(w)
        case LastLook => TryReceive(w)
        case Rescued(_) => DropWriteAndRun(w)
        case Removing => RemoveEntry(w)
        case Removed => Exit(w)
        case _ => TakeWriteToRetire(w);
      if s.workers[w].pc.Expired? && !Free(s) {
        step := GuardHolderStep(s);
      }
    }
  }

  /** Without new calls a run is over after as many steps as its rank. */
  lemma {:induction false} RunsEnd(maxWorkers: nat, steps: seq<Step>, states: seq<State>, i: nat, j: nat)
    requires IsRun(maxWorkers, steps, states) && i <= j < |states|
    requires forall k :: i <= k < j ==> !steps[k].Offer?
    ensures j - i + Rank(states[j]) <= Rank(states[i])
    decreases j - i
  {
    if i < j {
      RunsEnd(maxWorkers, steps, states, i, j - 1);
      assert StepAt(steps, states, j - 1);
      EveryStepCounts(states[j - 1], steps[j - 1]);
    }
  }

  /**
    Where a run ends, that is, where no step but a new call is enabled: every call has returned, every
    accepted message has been executed, every worker is gone, the registry is empty, no guard is held.
  */
  lemma {:induction false} WhereRunsEnd(maxWorkers: nat, steps: seq<Step>, states: seq<State>, i: nat)
    requires IsRun(maxWorkers, steps, states) && i < |states|
    requires forall step :: Enabled(states[i], step) ==> step.Offer?
    ensures var s := states[i];
      && (forall k :: 0 <= k < |s.calls| ==> s.calls[k].pc.Returned?)
      && (forall id :: Log(s.executed, id) == Log(s.accepted, id))
      && s.registry == map[] && Free(s)
      && (forall w :: 0 <= w < |s.workers| ==> s.workers[w].pc.Gone?)
  {
    RunInv(maxWorkers, steps, states, i);
    var s := states[i];
    if !Quiet(s) {
      var step := SomethingMoves(s);
    }
    assert forall id :: id !in s.registry;
    forall id ensures Log(s.executed, id) == Log(s.accepted, id) {
      assert Log(s.accepted, id) == Log(s.executed, id) + Pending(s, id);
    }
  }

  // ---------------------------------------------------------------- guards come free

  /** How many steps the holder of a guard takes before it drops it, at most. */
  function CallHold(c: Call): nat {
    match c.pc
    case Lookup => 3
    case FastSend(_) => 2
    case FastDone(_) => 1
    case Missed => 1
    case Recheck => 3
    case SlowSend(_, _) => 2
    case SlowDone(_, _) => 1
    case _ => 0
  }

  function WorkerHold(w: Worker): nat {
    match w.pc
    case LastLook => 3
    case Rescued(_) => 1
    case Removing => 2
    case Removed => 1
    case _ => 0
  }

  /** A step of a thread that holds a guard. */
  predicate ByHolder(s: State, step: Step)
    requires Enabled(s, step)
  {
    || (StepsCall(step) && CallHold(s.calls[step.k]) > 0)
    || (!step.Offer? && !StepsCall(step) && WorkerHold(s.workers[step.w]) > 0)
  }

  /** How many steps the holders of guards have left between them, at most: three each. */
  function Hold(s: State): nat {
    Sum(s.calls, CallHold) + Sum(s.workers, WorkerHold)
  }

  lemma {:induction false} CallLetsGo(s: State, step: Step)
    requires Enabled(s, step) && ByHolder(s, step) && StepsCall(step) && !step.SendFast? && !step.SendSlow?
    requires !step.CheckAgain?
    ensures var t, k := Apply(s, step), step.k;
      t.workers == s.workers && t.calls == s.calls[k := t.calls[k]] && CallHold(t.calls[k]) < CallHold(s.calls[k])
  {
  }

  lemma {:induction false} SendLetsGo(s: State, k: nat, w: nat, pc: CallPc)
    requires CallAt(s, k) && WorkerAt(s, w) && CallHold(s.calls[k].(pc := pc)) < CallHold(s.calls[k])
    ensures Hold(Sent(s, k, w, pc)) < Hold(s)
  {
    var t := Sent(s, k, w, pc);
    SumUpdate(s.calls, k, t.calls[k], CallHold);
    if TrySend(s, w).Accepted? {
      SumUpdate(s.workers, w, t.workers[w], WorkerHold);
    }
  }

  lemma {:induction false} CheckLetsGo(s: State, t: State, k: nat)
    requires Enabled(s, CheckAgain(k)) && t == Checked(s, k)
    ensures Hold(t) < Hold(s)
  {
    CheckMoves(s, k);
    SumUpdate(s.calls, k, t.calls[k], CallHold);
    if t.workers != s.workers {
      SumMore(s.workers, Worker(s.calls[k].id, [], Receiving), WorkerHold);
    }
  }

  lemma {:induction false} WorkerLetsGo(s: State, step: Step)
    requires Enabled(s, step) && ByHolder(s, step) && !StepsCall(step)
    ensures var t, w := Apply(s, step), step.w;
      && t.calls == s.calls && w < |t.workers| && t.workers == s.workers[w := t.workers[w]]
      && WorkerHold(t.workers[w]) < WorkerHold(s.workers[w])
  {
  }

  /** Each step of a holder is one nearer to dropping its guard. */
  lemma {:induction false} HoldersLetGo(s: State, step: Step)
    requires Enabled(s, step) && ByHolder(s, step)
    ensures Hold(Apply(s, step)) < Hold(s)
  {
    var t := Apply(s, step);
    if step.SendFast? || step.SendSlow? {
      SendLetsGo(s, step.k, s.calls[step.k].pc.worker, t.calls[step.k].pc);
    } else if step.CheckAgain? {
      CheckLetsGo(s, t, step.k);
    } else if StepsCall(step) {
      CallLetsGo(s, step);
      SumUpdate(s.calls, step.k, t.calls[step.k], CallHold);
    } else {
      WorkerLetsGo(s, step);
      SumUpdate(s.workers, step.w, t.workers[step.w], WorkerHold);
    }
  }

  /** The steps, taken in turn from `s`, are enabled and lead to `t`. */
  ghost predicate Leads(s: State, steps: seq<Step>, t: State)
    decreases |steps|
  {
    if steps == [] then s == t else Enabled(s, steps[0]) && Leads(Apply(s, steps[0]), steps[1..], t)
  }

  /** The same, each step being one of a thread that holds a guard. */
  ghost predicate LeadsByHolders(s: State, steps: seq<Step>, t: State)
    decreases |steps|
  {
    if steps == [] then s == t
    else Enabled(s, steps[0]) && ByHolder(s, steps[0]) && LeadsByHolders(Apply(s, steps[0]), steps[1..], t)
  }

  lemma {:induction false} HolderStep(s: State) returns (step: Step)
    requires LockInv(s) && CallInv(s) && !Free(s)
    requires forall id :: id in s.registry ==> WorkerAt(s, s.registry[id])
    ensures Enabled(s, step) && ByHolder(s, step)
  {
    step := GuardHolderStep(s);
    assert !step.TakeWrite? && !step.TakeWriteToRetire?;
  }

  /**
    From any state of a run the holders of guards free them by their own steps, at most three each,
    without new calls, timeouts, pipelines or other guards taken.
  */
  lemma {:induction false} GuardsComeFree(s: State) returns (steps: seq<Step>, t: State)
    requires Inv(s)
    ensures LeadsByHolders(s, steps, t) && |steps| <= Hold(s) && Free(t) && Inv(t)
    decreases Hold(s)
  {
    if Free(s) {
      steps, t := [], s;
    } else {
      var step := HolderStep(s);
      var next := Apply(s, step);
      assert Inv(next) && Hold(next) < Hold(s) by {
        KeepsInv(s, step);
        HoldersLetGo(s, step);
      }
      var later;
      later, t := GuardsComeFree(next);
      steps := [step] + later;
    }
  }

  // ---------------------------------------------------------------- retiring, and taking the place

  lemma {:induction false} LeadsMore(s: State, step: Step, steps: seq<Step>, t: State)
    requires Enabled(s, step) && Leads(Apply(s, step), steps, t)
    ensures Leads(s, [step] + steps, t)
  {
    assert ([step] + steps)[1..] == steps;
  }

  lemma {:induction false} LeadsOn(s: State, a: seq<Step>, t: State, b: seq<Step>, u: State)
    requires Leads(s, a, t) && Leads(t, b, u)
    ensures Leads(s, a + b, u)
    decreases |a|
  {
    if a == [] {
      assert a + b == b;
    } else {
      LeadsOn(Apply(s, a[0]), a[1..], t, b, u);
      assert (a + b)[1..] == a[1..] + b;
    }
  }

  /** A last look that finds nothing removes the worker's entry and gives the write guard back. */
  lemma {:induction false} LastLookRetires(s: State, w: nat) returns (t: State)
    requires LockInv(s) && WorkerAt(s, w) && s.workers[w].pc.LastLook? && s.workers[w].queue == []
    ensures Leads(s, [TryReceive(w), RemoveEntry(w), Exit(w)], t)
    ensures Free(t) && t.workers == s.workers[w := s.workers[w].(pc := Gone)]
    ensures t.registry == s.registry - {s.workers[w].id} && t.maxWorkers == s.maxWorkers
    ensures t.calls == s.calls && t.accepted == s.accepted && t.executed == s.executed
  {
    var a := Apply(s, TryReceive(w));
    var b := Apply(a, RemoveEntry(w));
    t := Apply(b, Exit(w));
    LeadsMore(b, Exit(w), [], t);
    LeadsMore(a, RemoveEntry(w), [Exit(w)], t);
    LeadsMore(s, TryReceive(w), [RemoveEntry(w)] + [Exit(w)], t);
    assert [TryReceive(w)] + ([RemoveEntry(w)] + [Exit(w)]) == [TryReceive(w), RemoveEntry(w), Exit(w)];
    assert [Exit(w)] + [] == [Exit(w)];
  }

  /** An idle worker whose timeout fires gives its place back. */
  lemma {:induction false} IdleWorkerRetires(s: State, w: nat) returns (steps: seq<Step>, t: State)
    requires LockInv(s) && Free(s) && WorkerAt(s, w) && s.workers[w].pc.Receiving? && s.workers[w].queue == []
    ensures steps == [TimeOut(w), TakeWriteToRetire(w), TryReceive(w), RemoveEntry(w), Exit(w)] && Leads(s, steps, t)
    ensures Free(t) && t.workers == s.workers[w := s.workers[w].(pc := Gone)]
    ensures t.registry == s.registry - {s.workers[w].id} && t.maxWorkers == s.maxWorkers
    ensures t.calls == s.calls && t.accepted == s.accepted && t.executed == s.executed
  {
    var a := Apply(s, TimeOut(w));
    var b := Apply(a, TakeWriteToRetire(w));
    MoveWorkerLocks(s, a, w, [], Expired);
    MoveWorkerLocks(a, b, w, [], LastLook);
    t := LastLookRetires(b, w);
    var rest := [TryReceive(w), RemoveEntry(w), Exit(w)];
    LeadsMore(a, TakeWriteToRetire(w), rest, t);
    LeadsMore(s, TimeOut(w), [TakeWriteToRetire(w)] + rest, t);
    steps := [TimeOut(w)] + ([TakeWriteToRetire(w)] + rest);
  }

  /** The steps of one call that goes the slow path, and of one that stays on the fast path. */
  function SlowPath(k: nat): seq<Step> {
    [TakeRead(k), LookUp(k), DropRead(k), TakeWrite(k), CheckAgain(k), SendSlow(k), DropWrite(k)]
  }

  function FastPath(k: nat): seq<Step> {
    [TakeRead(k), LookUp(k), SendFast(k), DropRead(k)]
  }

  lemma {:induction false} GoesForWriteGuard(s: State, k: nat) returns (t: State)
    requires Free(s) && CallAt(s, k) && s.calls[k].pc.WantRead? && s.calls[k].id !in s.registry
    ensures Leads(s, [TakeRead(k), LookUp(k), DropRead(k)], t) && t == SetCall(s, k, WantWrite)
  {
    var a := Apply(s, TakeRead(k));
    var b := Apply(a, LookUp(k));
    t := Apply(b, DropRead(k));
    LeadsMore(b, DropRead(k), [], t);
    LeadsMore(a, LookUp(k), [DropRead(k)], t);
    LeadsMore(s, TakeRead(k), [LookUp(k), DropRead(k)], t);
    assert [DropRead(k)] + [] == [DropRead(k)];
    assert [LookUp(k)] + [DropRead(k)] == [LookUp(k), DropRead(k)];
    assert [TakeRead(k)] + [LookUp(k), DropRead(k)] == [TakeRead(k), LookUp(k), DropRead(k)];
  }

  lemma {:induction false} SpawnsUnderGuard(s: State, k: nat) returns (t: State)
    requires Free(s) && CallAt(s, k) && s.calls[k].pc.WantWrite?
    requires s.calls[k].id !in s.registry && |s.registry| < s.maxWorkers
    ensures Leads(s, [TakeWrite(k), CheckAgain(k)], t) && CallAt(t, k)
    ensures t.calls[k] == s.calls[k].(pc := SlowSend(|s.workers|, true)) && t.accepted == s.accepted
    ensures |t.workers| == |s.workers| + 1 && t.workers[|s.workers|] == Worker(s.calls[k].id, [], Receiving)
    ensures s.calls[k].id in t.registry
  {
    var a := Apply(s, TakeWrite(k));
    t := Apply(a, CheckAgain(k));
    LeadsMore(a, CheckAgain(k), [], t);
    LeadsMore(s, TakeWrite(k), [CheckAgain(k)], t);
    assert [CheckAgain(k)] + [] == [CheckAgain(k)];
    assert [TakeWrite(k)] + [CheckAgain(k)] == [TakeWrite(k), CheckAgain(k)];
  }

  lemma {:induction false} SendsUnderGuard(s: State, k: nat, w: nat) returns (t: State)
    requires CallAt(s, k) && s.calls[k].pc == SlowSend(w, true)
    requires WorkerAt(s, w) && s.workers[w].queue == [] && s.workers[w].pc.Receiving?
    ensures Leads(s, [SendSlow(k), DropWrite(k)], t) && CallAt(t, k) && t.calls[k].pc == Returned(Accepted, true)
    ensures t.accepted == Append(s.accepted, s.calls[k].id, s.calls[k].message) && t.registry == s.registry
  {
    var a := Apply(s, SendSlow(k));
    t := Apply(a, DropWrite(k));
    LeadsMore(a, DropWrite(k), [], t);
    LeadsMore(s, SendSlow(k), [DropWrite(k)], t);
    assert [DropWrite(k)] + [] == [DropWrite(k)];
    assert [SendSlow(k)] + [DropWrite(k)] == [SendSlow(k), DropWrite(k)];
  }

  /** A call for an id without a worker, below the ceiling, gets one and is accepted. */
  lemma {:induction false} NewIdIsAccepted(s: State, k: nat) returns (t: State)
    requires Free(s) && CallAt(s, k) && s.calls[k].pc.WantRead?
    requires s.calls[k].id !in s.registry && |s.registry| < s.maxWorkers
    ensures Leads(s, SlowPath(k), t) && CallAt(t, k) && t.calls[k].pc == Returned(Accepted, true)
    ensures t.accepted == Append(s.accepted, s.calls[k].id, s.calls[k].message) && s.calls[k].id in t.registry
  {
    var a := GoesForWriteGuard(s, k);
    var b := SpawnsUnderGuard(a, k);
    t := SendsUnderGuard(b, k, |a.workers|);
    LeadsOn(a, [TakeWrite(k), CheckAgain(k)], b, [SendSlow(k), DropWrite(k)], t);
    LeadsOn(s, [TakeRead(k), LookUp(k), DropRead(k)], a,
            [TakeWrite(k), CheckAgain(k)] + [SendSlow(k), DropWrite(k)], t);
    assert [TakeRead(k), LookUp(k), DropRead(k)] + ([TakeWrite(k), CheckAgain(k)] + [SendSlow(k), DropWrite(k)])
        == SlowPath(k);
  }

  lemma {:induction false} FindsWorker(s: State, k: nat) returns (t: State)
    requires Free(s) && CallAt(s, k) && s.calls[k].pc.WantRead? && s.calls[k].id in s.registry
    ensures Leads(s, [TakeRead(k), LookUp(k)], t)
    ensures t == SetCall(s, k, FastSend(s.registry[s.calls[k].id])).(readers := {k})
  {
    var a := Apply(s, TakeRead(k));
    t := Apply(a, LookUp(k));
    LeadsMore(a, LookUp(k), [], t);
    LeadsMore(s, TakeRead(k), [LookUp(k)], t);
    assert [LookUp(k)] + [] == [LookUp(k)] && [TakeRead(k)] + [LookUp(k)] == [TakeRead(k), LookUp(k)];
  }

  lemma {:induction false} SendsAndReturns(s: State, k: nat, w: nat) returns (t: State)
    requires CallAt(s, k) && s.calls[k].pc == FastSend(w)
    requires WorkerAt(s, w) && |s.workers[w].queue| < CHANNEL_CAPACITY && !s.workers[w].pc.Gone?
    ensures Leads(s, [SendFast(k), DropRead(k)], t) && CallAt(t, k) && t.calls[k].pc == Returned(Accepted, false)
    ensures t.accepted == Append(s.accepted, s.calls[k].id, s.calls[k].message) && t.registry == s.registry
  {
    var a := Apply(s, SendFast(k));
    t := Apply(a, DropRead(k));
    LeadsMore(a, DropRead(k), [], t);
    LeadsMore(s, SendFast(k), [DropRead(k)], t);
    assert [DropRead(k)] + [] == [DropRead(k)] && [SendFast(k)] + [DropRead(k)] == [SendFast(k), DropRead(k)];
  }

  /** A call for a registered id with room in its queue is accepted without the write guard. */
  lemma {:induction false} FastPathSuffices(s: State, k: nat) returns (t: State)
    requires Free(s) && RegistryInv(s) && CallAt(s, k) && s.calls[k].pc.WantRead? && s.calls[k].id in s.registry
    requires |s.workers[s.registry[s.calls[k].id]].queue| < CHANNEL_CAPACITY
    ensures Leads(s, FastPath(k), t) && CallAt(t, k) && t.calls[k].pc == Returned(Accepted, false)
    ensures t.accepted == Append(s.accepted, s.calls[k].id, s.calls[k].message) && t.registry == s.registry
  {
    var a := FindsWorker(s, k);
    t := SendsAndReturns(a, k, s.registry[s.calls[k].id]);
    LeadsOn(s, [TakeRead(k), LookUp(k)], a, [SendFast(k), DropRead(k)], t);
    assert [TakeRead(k), LookUp(k)] + [SendFast(k), DropRead(k)] == FastPath(k);
  }

  /**
    At the ceiling, a call that is refused now can be accepted later: once an idle worker of another id
    has timed out, its place is free for the call's id.
  */
  lemma {:induction false} CeilingGivesWay(s: State, w: nat, k: nat) returns (steps: seq<Step>, t: State)
    requires LockInv(s) && RegistryInv(s) && Free(s) && |s.registry| == s.maxWorkers
    requires WorkerAt(s, w) && s.workers[w].pc.Receiving? && s.workers[w].queue == []
    requires CallAt(s, k) && s.calls[k].pc.WantRead? && s.calls[k].id !in s.registry
    ensures Leads(s, steps, t) && CallAt(t, k) && t.calls[k].pc == Returned(Accepted, true)
  {
    var retire, r := IdleWorkerRetires(s, w);
    assert |r.registry| < s.maxWorkers by {
      assert s.workers[w].id in s.registry;
      assert r.registry.Keys == s.registry.Keys - {s.workers[w].id};
    }
    t := NewIdIsAccepted(r, k);
    LeadsOn(s, retire, r, SlowPath(k), t);
    steps := retire + SlowPath(k);
  }
}
