/**
  The registry protocol refines a much simpler system: one serial, bounded, first-in-first-out lane
  per container id, with no workers, locks, registry or retirement.

  This is the promise of per-container serialization with parallelism across containers
  (docs/TECHNICAL_SPECIFICATION.md, section 2.1).
*/
module WorkerRegistryLanes {
  import opened Wrappers
  import opened Playbook
  import opened WorkerRegistry
  import opened WorkerRegistryProof
  import opened WorkerRegistrySafety

  datatype Lane = Lane(executed: seq<Message>, inFlight: Option<Message>, waiting: seq<Message>)

  /** The three things that can happen to a lane. */
  ghost predicate Enqueues(a: Lane, b: Lane) {
    |a.waiting| < CHANNEL_CAPACITY && |b.waiting| > 0 && b == a.(waiting := a.waiting + [b.waiting[|b.waiting| - 1]])
  }

  ghost predicate Starts(a: Lane, b: Lane) {
    a.inFlight.None? && a.waiting != [] && b == a.(inFlight := Some(a.waiting[0]), waiting := a.waiting[1..])
  }

  ghost predicate Finishes(a: Lane, b: Lane) {
    a.inFlight.Some? && b == a.(executed := a.executed + [a.inFlight.value], inFlight := None)
  }

  ghost predicate LaneStep(a: Lane, b: Lane) {
    Enqueues(a, b) || Starts(a, b) || Finishes(a, b)
  }

  /** The lane of an id, read off the registry, the worker it names and the execution log. */
  function LaneOf(s: State, id: string): Lane {
    var done := Log(s.executed, id);
    if id in s.registry && WorkerAt(s, s.registry[id]) then
      var w := s.workers[s.registry[id]];
      Lane(done, if InFlight(w.pc) == [] then None else Some(w.pc.message), w.queue)
    else Lane(done, None, [])
  }

  ghost predicate OnlyLane(s: State, t: State, id: string) {
    && (LaneOf(t, id) == LaneOf(s, id) || LaneStep(LaneOf(s, id), LaneOf(t, id)))
    && forall other :: other != id ==> LaneOf(t, other) == LaneOf(s, other)
  }

  /** The id a step is about. */
  function Subject(s: State, step: Step): string
    requires Enabled(s, step)
  {
    if step.Offer? then step.id
    else if StepsCall(step) then s.calls[step.k].id
    else s.workers[step.w].id
  }

  /** A step that changes, of registry, workers and executions, only what belongs to `id`. */
  ghost predicate Touches(s: State, t: State, id: string) {
    && |s.workers| <= |t.workers|
    && (forall w :: 0 <= w < |s.workers| && s.workers[w].id != id ==> t.workers[w] == s.workers[w])
    && (forall other :: other != id && other in t.registry ==>
          other in s.registry && s.registry[other] == t.registry[other])
    && (forall other :: other != id && other in s.registry ==> other in t.registry)
    && (forall other :: other != id ==> Log(t.executed, other) == Log(s.executed, other))
  }

  lemma OtherLanes(s: State, t: State, id: string)
    requires RegistryInv(s) && Touches(s, t, id)
    ensures forall other :: other != id ==> LaneOf(t, other) == LaneOf(s, other)
  {
  }

  lemma SendTouches(s: State, k: nat, w: nat, pc: CallPc)
    requires CallAt(s, k) && WorkerAt(s, w) && s.workers[w].id == s.calls[k].id
    ensures Touches(s, Sent(s, k, w, pc), s.calls[k].id)
  {
  }

  lemma CheckTouches(s: State, k: nat)
    requires Enabled(s, CheckAgain(k))
    ensures Touches(s, Apply(s, CheckAgain(k)), s.calls[k].id)
  {
  }

  lemma CallStepTouches(s: State, step: Step)
    requires RegistryInv(s) && Enabled(s, step) && StepsCall(step) && CallOk(s, s.calls[step.k])
    ensures Touches(s, Apply(s, step), s.calls[step.k].id)
  {
    match step
    case SendFast(k) => SendTouches(s, k, s.calls[k].pc.worker, Apply(s, step).calls[k].pc);
    case SendSlow(k) => SendTouches(s, k, s.calls[k].pc.worker, Apply(s, step).calls[k].pc);
    case CheckAgain(k) => CheckTouches(s, k);
    case _ =>
  }

  lemma WorkerStepTouches(s: State, step: Step)
    requires Enabled(s, step) && !step.Offer? && !StepsCall(step)
    ensures Touches(s, Apply(s, step), s.workers[step.w].id)
  {
  }

  lemma CallStepIsLaneStep(s: State, step: Step)
    requires RegistryInv(s) && QueueInv(s) && Enabled(s, step) && StepsCall(step)
    requires CallOk(s, s.calls[step.k])
    ensures OnlyLane(s, Apply(s, step), s.calls[step.k].id)
  {
    CallStepTouches(s, step);
    OtherLanes(s, Apply(s, step), s.calls[step.k].id);
    if step.SendFast? || step.SendSlow? {
      SendLane(s, step);
    } else {
      QuietLane(s, step);
    }
  }

  lemma SendLane(s: State, step: Step)
    requires RegistryInv(s) && Enabled(s, step) && (step.SendFast? || step.SendSlow?)
    requires CallOk(s, s.calls[step.k])
    ensures var a, b := LaneOf(s, s.calls[step.k].id), LaneOf(Apply(s, step), s.calls[step.k].id);
      a == b || Enqueues(a, b)
  {
  }

  lemma QuietLane(s: State, step: Step)
    requires RegistryInv(s) && Enabled(s, step) && StepsCall(step) && !step.SendFast? && !step.SendSlow?
    ensures var id := s.calls[step.k].id; LaneOf(Apply(s, step), id) == LaneOf(s, id)
  {
  }

  lemma WorkerStepIsLaneStep(s: State, step: Step)
    requires RegistryInv(s) && QueueInv(s) && Enabled(s, step) && !step.Offer? && !StepsCall(step)
    ensures OnlyLane(s, Apply(s, step), s.workers[step.w].id)
  {
    WorkerStepTouches(s, step);
    OtherLanes(s, Apply(s, step), s.workers[step.w].id);
    OwnLane(s, step);
  }

  lemma OwnLane(s: State, step: Step)
    requires RegistryInv(s) && QueueInv(s) && Enabled(s, step) && !step.Offer? && !StepsCall(step)
    ensures var a, b := LaneOf(s, s.workers[step.w].id), LaneOf(Apply(s, step), s.workers[step.w].id);
      a == b || LaneStep(a, b)
  {
    var t, id := Apply(s, step), s.workers[step.w].id;
    var a, b := LaneOf(s, id), LaneOf(t, id);
    if Live(s.workers[step.w].pc) {
      assert s.registry[id] == step.w;
    }
    match step
    case Receive(w) => assert Starts(a, b);
    case TryReceive(w) => assert a == b || Starts(a, b);
    case Finish(w) => assert Finishes(a, b);
    case _ =>
  }

  /**
    Every step of a run changes the lane of at most one id, and changes it the way a lane moves: so
    each id is served by one bounded queue that executes its messages one at a time and in order.
  */
  lemma RefinesLanes(maxWorkers: nat, steps: seq<Step>, states: seq<State>, i: nat)
    requires IsRun(maxWorkers, steps, states) && i < |steps|
    ensures StepAt(steps, states, i) && OnlyLane(states[i], states[i + 1], Subject(states[i], steps[i]))
  {
    RunInv(maxWorkers, steps, states, i);
    assert StepAt(steps, states, i);
    var s, step := states[i], steps[i];
    if step.Offer? {
    } else if StepsCall(step) {
      assert CallOk(s, s.calls[step.k]);
      CallStepIsLaneStep(s, step);
    } else {
      WorkerStepIsLaneStep(s, step);
    }
  }
}
