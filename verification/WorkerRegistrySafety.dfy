/**
  What every run of the registry protocol guarantees, whatever the interleaving.

  A run starts with no calls, no workers and an empty registry; the threads of the daemon and their
  timeouts choose the steps. Pipelines are assumed to return.
*/
module WorkerRegistrySafety {
  import opened Wrappers
  import opened Playbook
  import opened WorkerRegistry
  import opened WorkerRegistryProof

  ghost predicate IsRun(maxWorkers: nat, steps: seq<Step>, states: seq<State>) {
    && |states| == |steps| + 1
    && states[0] == Init(maxWorkers)
    && forall i :: 0 <= i < |steps| ==> StepAt(steps, states, i)
  }

  ghost predicate StepAt(steps: seq<Step>, states: seq<State>, i: nat)
    requires i < |steps| == |states| - 1
  {
    Enabled(states[i], steps[i]) && states[i + 1] == Apply(states[i], steps[i])
  }

  lemma InitInv(maxWorkers: nat)
    ensures Inv(Init(maxWorkers))
  {
  }

  lemma {:induction false} RunInv(maxWorkers: nat, steps: seq<Step>, states: seq<State>, i: nat)
    requires IsRun(maxWorkers, steps, states) && i < |states|
    ensures Inv(states[i]) && states[i].maxWorkers == maxWorkers
  {
    if i == 0 {
      InitInv(maxWorkers);
    } else {
      RunInv(maxWorkers, steps, states, i - 1);
      assert StepAt(steps, states, i - 1);
      StepInv(states[i - 1], steps[i - 1], states[i]);
    }
  }

  lemma StepInv(s: State, step: Step, t: State)
    requires Inv(s) && Enabled(s, step) && t == Apply(s, step)
    ensures Inv(t) && t.maxWorkers == s.maxWorkers
  {
    KeepsInv(s, step);
    KeepsMaxWorkers(s, step);
  }

  lemma KeepsMaxWorkers(s: State, step: Step)
    requires Enabled(s, step)
    ensures Apply(s, step).maxWorkers == s.maxWorkers
  {
  }

  // ---------------------------------------------------------------- loss-freedom and order

  /**
    For every container id the messages accepted so far are the messages executed, then the one in
    flight, then the queue, in this order, across every worker the id ever had. An id without a
    worker has nothing outstanding: retiring loses no accepted message.
  */
  lemma NothingLost(maxWorkers: nat, steps: seq<Step>, states: seq<State>, i: nat, id: string)
    requires IsRun(maxWorkers, steps, states) && i < |states|
    ensures var s := states[i];
      if id in s.registry then
        && WorkerAt(s, s.registry[id])
        && var w := s.workers[s.registry[id]];
        && w.id == id
        && Log(s.accepted, id) == Log(s.executed, id) + InFlight(w.pc) + w.queue
        && |InFlight(w.pc)| <= 1 && |w.queue| <= CHANNEL_CAPACITY
      else Log(s.accepted, id) == Log(s.executed, id)
  {
    RunInv(maxWorkers, steps, states, i);
    var s := states[i];
    assert Log(s.accepted, id) == Log(s.executed, id) + Pending(s, id);
  }

  ghost predicate LogsGrow(s: State, t: State) {
    forall id :: Log(s.accepted, id) <= Log(t.accepted, id) && Log(s.executed, id) <= Log(t.executed, id)
  }

  lemma SendGrowsLogs(s: State, k: nat, w: nat, pc: CallPc)
    requires CallAt(s, k) && WorkerAt(s, w)
    ensures LogsGrow(s, Sent(s, k, w, pc))
  {
  }

  lemma FinishGrowsLogs(s: State, w: nat)
    requires Enabled(s, Finish(w))
    ensures LogsGrow(s, Apply(s, Finish(w)))
  {
  }

  lemma QuietStepKeepsLogs(s: State, step: Step)
    requires Enabled(s, step) && !step.SendFast? && !step.SendSlow? && !step.Finish?
    ensures Apply(s, step).accepted == s.accepted && Apply(s, step).executed == s.executed
  {
    match step
    case Offer(id, m) =>
    case TakeRead(k) =>
    case LookUp(k) =>
    case DropRead(k) =>
    case TakeWrite(k) =>
    case CheckAgain(k) =>
    case DropWrite(k) =>
    case Receive(w) =>
    case TimeOut(w) =>
    case TakeWriteToRetire(w) =>
    case TryReceive(w) =>
    case DropWriteAndRun(w) =>
    case RemoveEntry(w) =>
    case Exit(w) =>
  }

  lemma StepGrowsLogs(s: State, step: Step, t: State)
    requires Enabled(s, step) && t == Apply(s, step)
    ensures LogsGrow(s, t)
  {
    match step
    case SendFast(k) => SendGrowsLogs(s, k, s.calls[k].pc.worker, t.calls[k].pc);
    case SendSlow(k) => SendGrowsLogs(s, k, s.calls[k].pc.worker, t.calls[k].pc);
    case Finish(w) => FinishGrowsLogs(s, w);
    case _ => QuietStepKeepsLogs(s, step);
  }

  lemma GrowthAddsUp(r: State, s: State, t: State)
    requires LogsGrow(r, s) && LogsGrow(s, t)
    ensures LogsGrow(r, t)
  {
  }

  /** What was accepted or executed stays so, in the same order. */
  lemma {:induction false} HistoriesOnlyGrow(maxWorkers: nat, steps: seq<Step>, states: seq<State>, i: nat, j: nat)
    requires IsRun(maxWorkers, steps, states) && i <= j < |states|
    ensures LogsGrow(states[i], states[j])
    decreases j - i
  {
    if i < j {
      HistoriesOnlyGrow(maxWorkers, steps, states, i, j - 1);
      assert StepAt(steps, states, j - 1);
      StepGrowsLogs(states[j - 1], steps[j - 1], states[j]);
      GrowthAddsUp(states[i], states[j - 1], states[j]);
    }
  }

  // ---------------------------------------------------------------- one worker per id

  /** Whether worker `w` is registered, that is, named by the registry entry of its own id. */
  predicate Registered(s: State, w: nat)
    requires WorkerAt(s, w)
  {
    s.workers[w].id in s.registry && s.registry[s.workers[w].id] == w
  }

  /**
    The registry names exactly the workers that can still run a pipeline, so an id has at most one of
    them and two pipelines of one id never overlap.
  */
  lemma OneWorkerPerId(maxWorkers: nat, steps: seq<Step>, states: seq<State>, i: nat, v: nat, w: nat)
    requires IsRun(maxWorkers, steps, states) && i < |states|
    requires WorkerAt(states[i], v) && WorkerAt(states[i], w)
    ensures Live(states[i].workers[w].pc) <==> Registered(states[i], w)
    ensures forall id :: id in states[i].registry ==>
      WorkerAt(states[i], states[i].registry[id]) && states[i].workers[states[i].registry[id]].id == id
    ensures Live(states[i].workers[v].pc) && Live(states[i].workers[w].pc) && v != w ==>
      states[i].workers[v].id != states[i].workers[w].id
  {
    RunInv(maxWorkers, steps, states, i);
  }

  function RunningWorkers(s: State): set<nat> {
    set w | 0 <= w < |s.workers| && InFlight(s.workers[w].pc) != []
  }

  lemma {:induction false} DistinctValuesFit(m: map<string, nat>, values: set<nat>)
    requires forall v :: v in values ==> exists id :: id in m && m[id] == v
    ensures |values| <= |m|
    decreases |values|
  {
    if values != {} {
      var v :| v in values;
      var id :| id in m && m[id] == v;
      var rest := m - {id};
      assert rest.Keys == m.Keys - {id};
      forall u | u in values - {v} ensures exists k :: k in rest && rest[k] == u {
        var k :| k in m && m[k] == u;
        assert k in rest;
      }
      DistinctValuesFit(rest, values - {v});
    }
  }

  /** The ceiling bounds registered workers and pipelines in flight alike. */
  lemma CeilingHolds(maxWorkers: nat, steps: seq<Step>, states: seq<State>, i: nat)
    requires IsRun(maxWorkers, steps, states) && i < |states|
    ensures |RunningWorkers(states[i])| <= |states[i].registry| <= maxWorkers
  {
    RunInv(maxWorkers, steps, states, i);
    var s := states[i];
    forall w | w in RunningWorkers(s) ensures exists id :: id in s.registry && s.registry[id] == w {
      assert s.workers[w].id in s.registry;
    }
    DistinctValuesFit(s.registry, RunningWorkers(s));
  }

  // ---------------------------------------------------------------- outcomes of a call

  predicate Decided(pc: CallPc) {
    pc.FastDone? || pc.SlowDone? || pc.Returned?
  }

  /** A call's outcome never changes once it is decided. */
  lemma {:induction false} OneOutcome(maxWorkers: nat, steps: seq<Step>, states: seq<State>, i: nat, j: nat, k: nat)
    requires IsRun(maxWorkers, steps, states) && i <= j < |states|
    requires CallAt(states[i], k) && Decided(states[i].calls[k].pc)
    ensures CallAt(states[j], k) && Decided(states[j].calls[k].pc)
    ensures states[j].calls[k].pc.outcome == states[i].calls[k].pc.outcome
    ensures states[j].calls[k].id == states[i].calls[k].id && states[j].calls[k].message == states[i].calls[k].message
    decreases j - i
  {
    if i < j {
      OneOutcome(maxWorkers, steps, states, i, j - 1, k);
      assert StepAt(steps, states, j - 1);
      DecisionStands(states[j - 1], steps[j - 1], k);
    }
  }

  lemma DecisionStands(s: State, step: Step, k: nat)
    requires Enabled(s, step) && CallAt(s, k) && Decided(s.calls[k].pc)
    ensures var t := Apply(s, step);
      && CallAt(t, k) && Decided(t.calls[k].pc) && t.calls[k].pc.outcome == s.calls[k].pc.outcome
      && t.calls[k].id == s.calls[k].id && t.calls[k].message == s.calls[k].message
  {
    if step.DropRead? || step.DropWrite? {
    } else {
      UndecidedElsewhere(s, step, k);
    }
  }

  lemma UndecidedElsewhere(s: State, step: Step, k: nat)
    requires Enabled(s, step) && CallAt(s, k) && Decided(s.calls[k].pc) && !step.DropRead? && !step.DropWrite?
    ensures CallAt(Apply(s, step), k) && Apply(s, step).calls[k] == s.calls[k]
  {
  }

  /**
    Neither disconnected branch is ever taken, and the call that creates a worker has its message
    accepted.
  */
  lemma OutcomesReached(maxWorkers: nat, steps: seq<Step>, states: seq<State>, i: nat, k: nat)
    requires IsRun(maxWorkers, steps, states) && i < |states| && CallAt(states[i], k)
    ensures Decided(states[i].calls[k].pc) ==> !states[i].calls[k].pc.outcome.BrokenPipe?
    ensures states[i].calls[k].pc.Returned? && states[i].calls[k].pc.created ==>
      states[i].calls[k].pc.outcome.Accepted?
  {
    RunInv(maxWorkers, steps, states, i);
    assert CallOk(states[i], states[i].calls[k]);
  }

  /** Why call `k`, undecided in `s`, has the outcome it has in `t`. */
  ghost predicate Explained(s: State, t: State, k: nat)
    requires CallAt(s, k) && CallAt(t, k) && Decided(t.calls[k].pc)
  {
    var c := s.calls[k];
    match t.calls[k].pc.outcome
    case Accepted =>
      && Log(t.accepted, c.id) == Log(s.accepted, c.id) + [c.message]
      && (forall id :: id != c.id ==> Log(t.accepted, id) == Log(s.accepted, id))
    case DroppedFull =>
      && t.accepted == s.accepted && c.id in s.registry && WorkerAt(s, s.registry[c.id])
      && Live(s.workers[s.registry[c.id]].pc) && |s.workers[s.registry[c.id]].queue| == CHANNEL_CAPACITY
    case DroppedAtCeiling =>
      && t.accepted == s.accepted && c.id !in s.registry && |s.registry| == s.maxWorkers
    case BrokenPipe => false
  }

  lemma StepExplains(s: State, step: Step, t: State, k: nat)
    requires RegistryInv(s) && CallInv(s) && QueueInv(s) && Enabled(s, step) && t == Apply(s, step)
    requires CallAt(s, k) && !Decided(s.calls[k].pc) && CallAt(t, k) && Decided(t.calls[k].pc)
    ensures Explained(s, t, k)
  {
    DecidingStep(s, step, k);
    assert CallOk(s, s.calls[k]);
    if step.CheckAgain? {
      CeilingExplains(s, k);
    } else {
      SendExplains(s, step, k);
    }
  }

  lemma CeilingExplains(s: State, k: nat)
    requires |s.registry| <= s.maxWorkers && Enabled(s, CheckAgain(k)) && Decided(Apply(s, CheckAgain(k)).calls[k].pc)
    ensures Explained(s, Apply(s, CheckAgain(k)), k)
  {
  }

  lemma SendExplains(s: State, step: Step, k: nat)
    requires RegistryInv(s) && QueueInv(s) && Enabled(s, step) && (step == SendFast(k) || step == SendSlow(k))
    requires CallOk(s, s.calls[k])
    ensures Explained(s, Apply(s, step), k)
  {
  }

  /**
    Why a call was decided the way it was, in the step that decided it. A message is dropped as
    full only if the one live worker of its id has 64 messages queued; it is dropped at the ceiling
    only if its id has no worker and exactly `maxWorkers` ids have one.
  */
  lemma WhyDecided(maxWorkers: nat, steps: seq<Step>, states: seq<State>, i: nat, k: nat)
    requires IsRun(maxWorkers, steps, states) && i < |steps|
    requires CallAt(states[i], k) && !Decided(states[i].calls[k].pc)
    requires CallAt(states[i + 1], k) && Decided(states[i + 1].calls[k].pc)
    ensures Explained(states[i], states[i + 1], k) && states[i].maxWorkers == maxWorkers
  {
    RunInv(maxWorkers, steps, states, i);
    assert StepAt(steps, states, i);
    StepExplains(states[i], steps[i], states[i + 1], k);
  }

  lemma DecidingStep(s: State, step: Step, k: nat)
    requires Enabled(s, step) && CallAt(s, k) && !Decided(s.calls[k].pc) && Decided(Apply(s, step).calls[k].pc)
    ensures (step.SendFast? || step.SendSlow? || step.CheckAgain?) && step.k == k
  {
  }

  // ---------------------------------------------------------------- each accepted call, exactly once

  predicate Counts(c: Call, id: string) {
    c.id == id && Decided(c.pc) && c.pc.outcome.Accepted?
  }

  function Share(c: Call, id: string): multiset<Message> {
    if Counts(c, id) then multiset{c.message} else multiset{}
  }

  /** The messages of the calls told "accepted" for `id`. */
  function AcceptedOf(calls: seq<Call>, id: string): multiset<Message> {
    if calls == [] then multiset{}
    else AcceptedOf(calls[..|calls| - 1], id) + Share(calls[|calls| - 1], id)
  }

  lemma Exchange(a: multiset<Message>, b: multiset<Message>, x: multiset<Message>, y: multiset<Message>,
                 z: multiset<Message>)
    requires a + x == b + y
    ensures (a + z) + x == (b + z) + y
  {
    assert (a + z) + x == (a + x) + z;
  }

  lemma {:induction false} AcceptedOfUpdate(calls: seq<Call>, k: nat, c: Call, id: string)
    requires k < |calls|
    ensures AcceptedOf(calls[k := c], id) + Share(calls[k], id) == AcceptedOf(calls, id) + Share(c, id)
    decreases |calls|
  {
    var n := |calls| - 1;
    var after := calls[k := c];
    if k == n {
      assert after[..n] == calls[..n];
    } else {
      AcceptedOfUpdate(calls[..n], k, c, id);
      assert after[..n] == calls[..n][k := c];
      Exchange(AcceptedOf(after[..n], id), AcceptedOf(calls[..n], id),
               Share(calls[k], id), Share(c, id), Share(calls[n], id));
    }
  }

  predicate StepsCall(step: Step) {
    || step.TakeRead? || step.LookUp? || step.SendFast? || step.DropRead?
    || step.TakeWrite? || step.CheckAgain? || step.SendSlow? || step.DropWrite?
  }

  /** One call changes: it goes on, or it is accepted and its message joins the log. */
  ghost predicate CountedOnce(c: Call, d: Call, before: seq<Message>, after: seq<Message>, id: string) {
    if Counts(c, id) then Counts(d, id) && d.message == c.message && after == before
    else after == before + if Counts(d, id) then [d.message] else []
  }

  lemma QuietStepCounts(s: State, step: Step, id: string)
    requires Enabled(s, step) && StepsCall(step) && !step.SendFast? && !step.SendSlow?
    ensures var t, k := Apply(s, step), step.k;
      && CallAt(t, k) && t.calls == s.calls[k := t.calls[k]]
      && CountedOnce(s.calls[k], t.calls[k], Log(s.accepted, id), Log(t.accepted, id), id)
  {
  }

  lemma SendStepCounts(s: State, step: Step, id: string)
    requires Enabled(s, step) && (step.SendFast? || step.SendSlow?)
    ensures var t, k := Apply(s, step), step.k;
      && CallAt(t, k) && t.calls == s.calls[k := t.calls[k]]
      && CountedOnce(s.calls[k], t.calls[k], Log(s.accepted, id), Log(t.accepted, id), id)
  {
  }

  lemma CountedOnceConserves(calls: seq<Call>, k: nat, d: Call, before: seq<Message>, after: seq<Message>, id: string)
    requires k < |calls| && CountedOnce(calls[k], d, before, after, id)
    requires multiset(before) == AcceptedOf(calls, id)
    ensures multiset(after) == AcceptedOf(calls[k := d], id)
  {
    AcceptedOfUpdate(calls, k, d, id);
    if Counts(calls[k], id) {
      Cancel(AcceptedOf(calls[k := d], id), AcceptedOf(calls, id), Share(d, id));
    } else {
      assert AcceptedOf(calls[k := d], id) == AcceptedOf(calls, id) + Share(d, id);
    }
  }

  lemma Cancel(a: multiset<Message>, b: multiset<Message>, x: multiset<Message>)
    requires a + x == b + x
    ensures a == b
  {
    assert a == (a + x) - x && b == (b + x) - x;
  }

  lemma StepConserves(s: State, step: Step, t: State, id: string)
    requires Enabled(s, step) && t == Apply(s, step)
    requires multiset(Log(s.accepted, id)) == AcceptedOf(s.calls, id)
    ensures multiset(Log(t.accepted, id)) == AcceptedOf(t.calls, id)
  {
    if step.Offer? {
      assert t.calls[..|t.calls| - 1] == s.calls;
    } else if StepsCall(step) {
      if step.SendFast? || step.SendSlow? {
        SendStepCounts(s, step, id);
      } else {
        QuietStepCounts(s, step, id);
      }
      CountedOnceConserves(s.calls, step.k, t.calls[step.k], Log(s.accepted, id), Log(t.accepted, id), id);
    }
  }

  /**
    The log of an id holds the messages of the calls told "accepted" for it, each exactly once; with
    `NothingLost`, so do its executed, in-flight and queued messages together.
  */
  lemma {:induction false} ExactlyOnce(maxWorkers: nat, steps: seq<Step>, states: seq<State>, i: nat, id: string)
    requires IsRun(maxWorkers, steps, states) && i < |states|
    ensures multiset(Log(states[i].accepted, id)) == AcceptedOf(states[i].calls, id)
  {
    if i > 0 {
      ExactlyOnce(maxWorkers, steps, states, i - 1, id);
      assert StepAt(steps, states, i - 1);
      StepConserves(states[i - 1], steps[i - 1], states[i], id);
    }
  }

  // ---------------------------------------------------------------- no deadlock

  /**
    A step that takes, uses or drops a guard. New calls and timeouts do not count, nor do the steps of a
    worker that holds no guard: taking the next message and finishing a pipeline.
  */
  predicate MovesGuards(step: Step) {
    !step.Offer? && !step.TimeOut? && !step.Receive? && !step.Finish?
  }

  /** While some call has not returned, some guard can move on, whatever the pipelines do: the guards never deadlock. */
  lemma NeverStuck(maxWorkers: nat, steps: seq<Step>, states: seq<State>, i: nat, k: nat)
    requires IsRun(maxWorkers, steps, states) && i < |states|
    requires CallAt(states[i], k) && !states[i].calls[k].pc.Returned?
    ensures exists step :: Enabled(states[i], step) && MovesGuards(step)
  {
    RunInv(maxWorkers, steps, states, i);
    var step := SomeStep(states[i], k);
  }

  /** A step of worker `w` itself. */
  predicate IsOf(step: Step, w: nat) {
    step == Receive(w) || step == Finish(w) || step == TryReceive(w) || step == DropWriteAndRun(w)
  }

  /**
    While a worker has messages outstanding, some thread can move without a new call or a timeout: the
    worker itself or, if it waits for the write guard, the guards.
  */
  lemma WorkerNeverStuck(maxWorkers: nat, steps: seq<Step>, states: seq<State>, i: nat, w: nat)
    requires IsRun(maxWorkers, steps, states) && i < |states|
    requires WorkerAt(states[i], w) && Outstanding(states[i].workers[w]) != []
    ensures exists step ::
      Enabled(states[i], step) && if states[i].workers[w].pc.Expired? then MovesGuards(step) else IsOf(step, w)
  {
    RunInv(maxWorkers, steps, states, i);
    var s := states[i];
    var pc := s.workers[w].pc;
    if pc.Receiving? {
      assert Enabled(s, Receive(w));
    } else if pc.Running? {
      assert Enabled(s, Finish(w));
    } else if pc.LastLook? {
      assert Enabled(s, TryReceive(w));
    } else if pc.Rescued? {
      assert Enabled(s, DropWriteAndRun(w));
    } else if Free(s) {
      assert pc.Expired?;
      assert Enabled(s, TakeWriteToRetire(w));
    } else {
      assert pc.Expired?;
      var step := GuardHolderStep(s);
    }
  }

  /** Whoever holds a guard can go on. */
  lemma GuardHolderStep(s: State) returns (step: Step)
    requires LockInv(s) && CallInv(s) && !Free(s)
    requires forall id :: id in s.registry ==> WorkerAt(s, s.registry[id])
    ensures Enabled(s, step) && MovesGuards(step) && !step.TakeRead?
  {
    if s.writer.Some? && s.writer.value.ByWorker? {
      var w := s.writer.value.worker;
      step := match s.workers[w].pc
        case LastLook => TryReceive(w)
        case Rescued(_) => DropWriteAndRun(w)
        case Removing => RemoveEntry(w)
        case _ => Exit(w);
    } else {
      var j: nat;
      if s.writer.Some? {
        j := s.writer.value.call;
      } else {
        j :| j in s.readers;
      }
      assert CallOk(s, s.calls[j]);
      step := match s.calls[j].pc
        case Lookup => LookUp(j)
        case FastSend(_) => SendFast(j)
        case FastDone(_) => DropRead(j)
        case Missed => DropRead(j)
        case Recheck => CheckAgain(j)
        case SlowSend(_, _) => SendSlow(j)
        case _ => DropWrite(j);
    }
  }

  lemma SomeStep(s: State, k: nat) returns (step: Step)
    requires LockInv(s) && CallInv(s) && CallAt(s, k) && !s.calls[k].pc.Returned?
    requires forall id :: id in s.registry ==> WorkerAt(s, s.registry[id])
    ensures Enabled(s, step) && MovesGuards(step)
  {
    if Free(s) {
      step := if s.calls[k].pc.WantRead? then TakeRead(k) else TakeWrite(k);
    } else {
      step := GuardHolderStep(s);
    }
  }
}
