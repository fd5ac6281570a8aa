/**
  Every step of the registry protocol keeps the invariant.

  A step moves one call, moves one worker, or does one of four things to shared state: insert a
  worker, deliver a message, record an execution, remove an entry. One lemma for each.
*/
module WorkerRegistryProof {
  import opened Wrappers
  import opened Playbook
  import opened WorkerRegistry

  lemma SameOutstanding(s: State, t: State)
    requires s.registry == t.registry && |s.workers| == |t.workers|
    requires forall w :: 0 <= w < |s.workers| ==> Outstanding(t.workers[w]) == Outstanding(s.workers[w])
    ensures forall id :: Pending(t, id) == Pending(s, id)
  {
  }

  // ---------------------------------------------------------------- moving a call

  /** Call `k` goes to `pc`; the guards are those its new position holds. */
  ghost predicate CallMoved(s: State, t: State, k: nat, pc: CallPc) {
    && CallAt(s, k)
    && t == SetCall(s, k, pc).(readers := t.readers, writer := t.writer)
    && t.readers == (if HoldsRead(pc) then s.readers + {k} else s.readers - {k})
    && t.writer == (if HoldsWrite(pc) then Some(ByCall(k)) else if HoldsWrite(s.calls[k].pc) then None else s.writer)
    && (HoldsRead(pc) ==> t.writer.None?)
    && (HoldsWrite(pc) ==> s.readers == {} && (s.writer.None? || HoldsWrite(s.calls[k].pc)))
    && CallOk(t, t.calls[k])
  }

  lemma MoveCallLocks(s: State, t: State, k: nat, pc: CallPc)
    requires LockInv(s) && CallMoved(s, t, k, pc)
    ensures LockInv(t)
  {
  }

  lemma MoveCall(s: State, t: State, k: nat, pc: CallPc)
    requires Inv(s) && CallMoved(s, t, k, pc)
    ensures Inv(t)
  {
    MoveCallLocks(s, t, k, pc);
    assert CallInv(t);
    assert HistoryInv(t) by { SameOutstanding(s, t); }
  }

  // ---------------------------------------------------------------- moving a worker

  /** Worker `w` goes to `pc` with `queue`, keeping what it has yet to execute. */
  ghost predicate WorkerMoved(s: State, t: State, w: nat, queue: seq<Message>, pc: WorkerPc) {
    && WorkerAt(s, w)
    && t == SetWorker(s, w, queue, pc).(writer := t.writer)
    && t.writer == (if RetiringUnderLock(pc) then Some(ByWorker(w))
                    else if RetiringUnderLock(s.workers[w].pc) then None else s.writer)
    && (RetiringUnderLock(pc) ==> RetiringUnderLock(s.workers[w].pc) || Free(s))
    && (Live(pc) <==> Live(s.workers[w].pc))
    && InFlight(pc) + queue == InFlight(s.workers[w].pc) + s.workers[w].queue
    && |queue| <= |s.workers[w].queue|
    && (pc.Removing? ==> queue == [])
  }

  lemma MoveWorkerLocks(s: State, t: State, w: nat, queue: seq<Message>, pc: WorkerPc)
    requires LockInv(s) && WorkerMoved(s, t, w, queue, pc)
    ensures LockInv(t)
  {
  }

  lemma MoveWorker(s: State, t: State, w: nat, queue: seq<Message>, pc: WorkerPc)
    requires Inv(s) && WorkerMoved(s, t, w, queue, pc)
    ensures Inv(t)
  {
    MoveWorkerLocks(s, t, w, queue, pc);
    MoveWorkerRegistry(s, t, w, queue, pc);
    MoveWorkerCalls(s, t, w, queue, pc);
    MoveWorkerHistory(s, t, w, queue, pc);
  }

  lemma MoveWorkerRegistry(s: State, t: State, w: nat, queue: seq<Message>, pc: WorkerPc)
    requires RegistryInv(s) && QueueInv(s) && WorkerMoved(s, t, w, queue, pc)
    ensures RegistryInv(t) && QueueInv(t)
  {
  }

  lemma MoveWorkerCalls(s: State, t: State, w: nat, queue: seq<Message>, pc: WorkerPc)
    requires CallInv(s) && WorkerMoved(s, t, w, queue, pc)
    ensures CallInv(t)
  {
  }

  lemma MoveWorkerHistory(s: State, t: State, w: nat, queue: seq<Message>, pc: WorkerPc)
    requires HistoryInv(s) && WorkerMoved(s, t, w, queue, pc)
    ensures HistoryInv(t)
  {
    SameOutstanding(s, t);
  }

  // ---------------------------------------------------------------- shared state

  lemma AddCall(s: State, id: string, m: Message)
    requires Inv(s)
    ensures Inv(s.(calls := s.calls + [Call(id, m, WantRead)]))
  {
    var t := s.(calls := s.calls + [Call(id, m, WantRead)]);
    assert LockInv(t);
    assert HistoryInv(t) by { SameOutstanding(s, t); }
  }

  /** What is outstanding changes for `id` alone, so the histories of every other id still add up. */
  lemma HistoryFor(s: State, t: State, id: string)
    requires HistoryInv(s)
    requires forall other :: other != id ==>
      && Log(t.accepted, other) == Log(s.accepted, other)
      && Log(t.executed, other) == Log(s.executed, other)
    requires forall other :: other != id ==> Pending(t, other) == Pending(s, other)
    requires Log(t.accepted, id) == Log(t.executed, id) + Pending(t, id)
    ensures HistoryInv(t)
  {
  }

  /** Changing one worker leaves what is pending for every other id alone. */
  lemma PendingElsewhere(s: State, t: State, w: nat)
    requires RegistryInv(s) && WorkerAt(s, w)
    requires t.registry == s.registry || t.registry == s.registry - {s.workers[w].id}
    requires |t.workers| == |s.workers| && t.workers == s.workers[w := t.workers[w]]
    ensures forall other :: other != s.workers[w].id ==> Pending(t, other) == Pending(s, other)
  {
    forall other | other != s.workers[w].id ensures Pending(t, other) == Pending(s, other) {
      if other in s.registry {
        assert s.registry[other] != w;
      }
    }
  }

  /** A guard held by the sender keeps its worker from retiring under it. */
  lemma Deliver(s: State, k: nat, w: nat)
    requires Inv(s) && CallAt(s, k)
    requires s.calls[k].pc.FastDone? || s.calls[k].pc.SlowDone?
    requires s.calls[k].id in s.registry && s.registry[s.calls[k].id] == w
    requires |s.workers[w].queue| < CHANNEL_CAPACITY
    ensures Inv(Delivered(s, k, w))
  {
    var t := Delivered(s, k, w);
    assert !RetiringUnderLock(s.workers[w].pc);
    DeliverLocks(s, k, w);
    DeliverHistory(s, k, w);
    DeliverCalls(s, k, w);
  }

  lemma DeliverLocks(s: State, k: nat, w: nat)
    requires LockInv(s) && RegistryInv(s) && CallAt(s, k) && WorkerAt(s, w)
    ensures LockInv(Delivered(s, k, w)) && RegistryInv(Delivered(s, k, w))
  {
  }

  lemma DeliverCalls(s: State, k: nat, w: nat)
    requires LockInv(s) && CallInv(s) && CallAt(s, k) && WorkerAt(s, w)
    requires s.calls[k].pc.FastDone? || s.calls[k].pc.SlowDone?
    ensures CallInv(Delivered(s, k, w))
  {
  }

  lemma QueueAppend(w: Worker, m: Message)
    ensures Outstanding(w.(queue := w.queue + [m])) == Outstanding(w) + [m]
  {
  }

  lemma HistoryAppend(accepted: seq<Message>, executed: seq<Message>, pending: seq<Message>, m: Message)
    requires accepted == executed + pending
    ensures accepted + [m] == executed + (pending + [m])
  {
  }

  lemma DeliverHistory(s: State, k: nat, w: nat)
    requires RegistryInv(s) && HistoryInv(s) && CallAt(s, k)
    requires s.calls[k].id in s.registry && s.registry[s.calls[k].id] == w
    ensures HistoryInv(Delivered(s, k, w))
  {
    var t := Delivered(s, k, w);
    var c := s.calls[k];
    PendingElsewhere(s, t, w);
    QueueAppend(s.workers[w], c.message);
    assert Pending(t, c.id) == Pending(s, c.id) + [c.message];
    HistoryAppend(Log(s.accepted, c.id), Log(s.executed, c.id), Pending(s, c.id), c.message);
    HistoryFor(s, t, c.id);
  }

  lemma Send(s: State, k: nat, w: nat, pc: CallPc)
    requires Inv(s) && CallAt(s, k) && WorkerAt(s, w)
    requires s.calls[k].pc == FastSend(w) || (s.calls[k].pc.SlowSend? && s.calls[k].pc.worker == w)
    requires pc == if s.calls[k].pc.FastSend? then FastDone(TrySend(s, w))
                   else SlowDone(TrySend(s, w), s.calls[k].pc.created)
    ensures Inv(Sent(s, k, w, pc))
    ensures !TrySend(s, w).BrokenPipe?
  {
    assert CallOk(s, s.calls[k]);
    var t := SetCall(s, k, pc);
    MoveCall(s, t, k, pc);
    if TrySend(s, w).Accepted? {
      Deliver(t, k, w);
      assert Delivered(t, k, w) == Sent(s, k, w, pc);
    }
  }

  /** The state after the slow path inserted a worker for `id`. */
  function Spawned(s: State, id: string): State {
    s.(registry := s.registry[id := |s.workers|], workers := s.workers + [Worker(id, [], Receiving)])
  }

  lemma Spawn(s: State, id: string)
    requires Inv(s) && id !in s.registry && |s.registry| < s.maxWorkers
    ensures Inv(Spawned(s, id))
  {
    var t := Spawned(s, id);
    assert LockInv(t);
    SpawnRegistry(s, id);
    SpawnHistory(s, id);
  }

  lemma SpawnRegistry(s: State, id: string)
    requires RegistryInv(s) && CallInv(s) && id !in s.registry && |s.registry| < s.maxWorkers
    ensures RegistryInv(Spawned(s, id)) && CallInv(Spawned(s, id))
  {
  }

  lemma SpawnHistory(s: State, id: string)
    requires RegistryInv(s) && HistoryInv(s) && id !in s.registry
    ensures HistoryInv(Spawned(s, id))
  {
    var t := Spawned(s, id);
    assert forall other :: other != id ==> Pending(t, other) == Pending(s, other);
    assert Pending(t, id) == Pending(s, id);
    HistoryFor(s, t, id);
  }

  lemma Record(s: State, w: nat)
    requires Inv(s) && Enabled(s, Finish(w))
    ensures Inv(Apply(s, Finish(w)))
  {
    RecordLocks(s, w);
    RecordRegistry(s, w);
    RecordHistory(s, w);
  }

  lemma RecordLocks(s: State, w: nat)
    requires LockInv(s) && Enabled(s, Finish(w))
    ensures LockInv(Apply(s, Finish(w)))
  {
  }

  lemma RecordRegistry(s: State, w: nat)
    requires RegistryInv(s) && CallInv(s) && QueueInv(s) && Enabled(s, Finish(w))
    ensures RegistryInv(Apply(s, Finish(w))) && CallInv(Apply(s, Finish(w))) && QueueInv(Apply(s, Finish(w)))
  {
  }

  lemma RecordHistory(s: State, w: nat)
    requires RegistryInv(s) && HistoryInv(s) && Enabled(s, Finish(w))
    ensures HistoryInv(Apply(s, Finish(w)))
  {
    var t := Apply(s, Finish(w));
    var id := s.workers[w].id;
    PendingElsewhere(s, t, w);
    assert Pending(s, id) == [s.workers[w].pc.message] + Pending(t, id);
    HistoryFor(s, t, id);
  }

  lemma Remove(s: State, w: nat)
    requires Inv(s) && Enabled(s, RemoveEntry(w))
    ensures Inv(Apply(s, RemoveEntry(w)))
  {
    RemoveLocks(s, w);
    RemoveRegistry(s, w);
    RemoveHistory(s, w);
  }

  lemma RemoveLocks(s: State, w: nat)
    requires LockInv(s) && RegistryInv(s) && CallInv(s) && QueueInv(s) && Enabled(s, RemoveEntry(w))
    ensures LockInv(Apply(s, RemoveEntry(w))) && CallInv(Apply(s, RemoveEntry(w)))
    ensures QueueInv(Apply(s, RemoveEntry(w)))
  {
  }

  lemma RemoveRegistry(s: State, w: nat)
    requires RegistryInv(s) && Enabled(s, RemoveEntry(w))
    ensures RegistryInv(Apply(s, RemoveEntry(w)))
  {
    var t := Apply(s, RemoveEntry(w));
    var id := s.workers[w].id;
    RemoveShrinks(s.registry, id);
    forall v | 0 <= v < |t.workers| && Live(t.workers[v].pc)
      ensures t.workers[v].id in t.registry && t.registry[t.workers[v].id] == v
    {
      assert v != w && t.workers[v] == s.workers[v];
    }
  }

  lemma RemoveShrinks(registry: map<string, nat>, id: string)
    ensures |registry - {id}| <= |registry|
  {
    assert (registry - {id}).Keys == registry.Keys - {id};
  }

  lemma RemoveHistory(s: State, w: nat)
    requires RegistryInv(s) && QueueInv(s) && HistoryInv(s) && Enabled(s, RemoveEntry(w))
    ensures HistoryInv(Apply(s, RemoveEntry(w)))
  {
    var t := Apply(s, RemoveEntry(w));
    var id := s.workers[w].id;
    PendingElsewhere(s, t, w);
    assert Pending(s, id) == [] == Pending(t, id);
    HistoryFor(s, t, id);
  }

  // ---------------------------------------------------------------- one step, and any run

  predicate MovesCall(s: State, step: Step)
    requires Enabled(s, step)
  {
    || step.TakeRead? || step.LookUp? || step.DropRead? || step.TakeWrite? || step.DropWrite?
    || (step.CheckAgain? && !Spawns(s, step))
  }

  predicate Spawns(s: State, step: Step)
    requires Enabled(s, step)
  {
    step.CheckAgain? && s.calls[step.k].id !in s.registry && |s.registry| < s.maxWorkers
  }

  predicate MovesWorker(step: Step) {
    || step.Receive? || step.TimeOut? || step.TakeWriteToRetire?
    || step.TryReceive? || step.DropWriteAndRun? || step.Exit?
  }

  lemma GuardStepMoves(s: State, step: Step)
    requires LockInv(s) && CallInv(s) && Enabled(s, step)
    requires step.TakeRead? || step.DropRead? || step.TakeWrite? || step.DropWrite?
    ensures CallMoved(s, Apply(s, step), step.k, Apply(s, step).calls[step.k].pc)
  {
    assert CallOk(s, s.calls[step.k]);
  }

  lemma LookUpMoves(s: State, k: nat)
    requires LockInv(s) && Enabled(s, LookUp(k))
    ensures CallMoved(s, Apply(s, LookUp(k)), k, Apply(s, LookUp(k)).calls[k].pc)
  {
  }

  lemma CheckAgainMoves(s: State, k: nat)
    requires LockInv(s) && Enabled(s, CheckAgain(k)) && !Spawns(s, CheckAgain(k))
    requires forall id :: id in s.registry ==> WorkerAt(s, s.registry[id])
    ensures CallMoved(s, Apply(s, CheckAgain(k)), k, Apply(s, CheckAgain(k)).calls[k].pc)
  {
  }

  lemma SpawnStep(s: State, step: Step)
    requires Inv(s) && Enabled(s, step) && Spawns(s, step)
    ensures Inv(Apply(s, step))
  {
    var id := s.calls[step.k].id;
    var t := Apply(s, step);
    Spawn(s, id);
    MoveCall(Spawned(s, id), t, step.k, t.calls[step.k].pc);
  }

  lemma WorkerStepMoves(s: State, step: Step)
    requires Enabled(s, step) && MovesWorker(step)
    requires LockInv(s)
    ensures var t := Apply(s, step);
      WorkerMoved(s, t, step.w, t.workers[step.w].queue, t.workers[step.w].pc)
  {
    match step
    case Receive(w) =>
    case TimeOut(w) =>
    case TakeWriteToRetire(w) =>
    case TryReceive(w) =>
    case DropWriteAndRun(w) =>
    case Exit(w) =>
  }

  lemma CallStepKeepsInv(s: State, step: Step)
    requires Inv(s) && Enabled(s, step) && MovesCall(s, step)
    ensures Inv(Apply(s, step))
  {
    if step.LookUp? {
      LookUpMoves(s, step.k);
    } else if step.CheckAgain? {
      CheckAgainMoves(s, step.k);
    } else {
      GuardStepMoves(s, step);
    }
    MoveCall(s, Apply(s, step), step.k, Apply(s, step).calls[step.k].pc);
  }

  lemma SendStepKeepsInv(s: State, step: Step)
    requires Inv(s) && Enabled(s, step) && (step.SendFast? || step.SendSlow?)
    ensures Inv(Apply(s, step))
  {
    Send(s, step.k, s.calls[step.k].pc.worker, Apply(s, step).calls[step.k].pc);
  }

  lemma WorkerStepKeepsInv(s: State, step: Step)
    requires Inv(s) && Enabled(s, step) && MovesWorker(step)
    ensures Inv(Apply(s, step))
  {
    WorkerStepMoves(s, step);
    MoveWorker(s, Apply(s, step), step.w, Apply(s, step).workers[step.w].queue, Apply(s, step).workers[step.w].pc);
  }

  lemma KeepsInv(s: State, step: Step)
    requires Inv(s) && Enabled(s, step)
    ensures Inv(Apply(s, step))
  {
    if step.Offer? {
      AddCall(s, step.id, step.message);
    } else if step.SendFast? || step.SendSlow? {
      SendStepKeepsInv(s, step);
    } else if step.Finish? {
      Record(s, step.w);
    } else if step.RemoveEntry? {
      Remove(s, step.w);
    } else if MovesWorker(step) {
      WorkerStepKeepsInv(s, step);
    } else if Spawns(s, step) {
      SpawnStep(s, step);
    } else {
      CallStepKeepsInv(s, step);
    }
  }
}
