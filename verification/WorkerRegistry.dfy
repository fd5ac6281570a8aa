/**
  The worker registry protocol (src/ingestion.rs, `dispatch_to_worker` and `run_worker_lifecycle`).

  Any number of dispatch calls and any number of workers run concurrently. Each step below is one
  action a thread takes between two points where another thread may run: taking or dropping a guard
  of the registry's read-write lock, one map access, one channel operation. A guard is held from the
  step that takes it to the step that drops it, so what a lock protects is proved, not assumed.

  A timeout of `recv_timeout` may fire at any moment, whatever the queue holds: nothing below
  depends on the clock.
*/
module WorkerRegistry {
  import opened Wrappers
  import opened Playbook

  const CHANNEL_CAPACITY := 64

  datatype Outcome = Accepted | DroppedFull | DroppedAtCeiling | BrokenPipe

  /** Where one call of `dispatch_to_worker` stands. */
  datatype CallPc =
    | WantRead                                // about to take the read guard
    | Lookup                                  // read guard held, about to look the id up
    | FastSend(worker: nat)                   // read guard held, sender found
    | FastDone(outcome: Outcome)              // read guard held, about to drop it and return
    | Missed                                  // read guard held, id absent, about to drop it
    | WantWrite                               // no guard held, about to take the write guard
    | Recheck                                 // write guard held, about to re-check the registry
    | SlowSend(worker: nat, created: bool)    // write guard held, entry found or just inserted
    | SlowDone(outcome: Outcome, created: bool)
    | Returned(outcome: Outcome, created: bool)

  datatype Call = Call(id: string, message: Message, pc: CallPc)

  /** Where one worker thread stands in `run_worker_lifecycle`. */
  datatype WorkerPc =
    | Receiving                 // inside recv_timeout
    | Running(message: Message) // pipeline in flight, no guard held
    | Expired                   // recv_timeout failed, about to take the write guard
    | LastLook                  // write guard held, about to try_recv
    | Rescued(message: Message) // write guard held, try_recv found a message
    | Removing                  // write guard held, try_recv found nothing
    | Removed                   // write guard held, entry removed
    | Gone                      // thread ended, receiver dropped

  datatype Worker = Worker(id: string, queue: seq<Message>, pc: WorkerPc)

  datatype Holder = ByCall(call: nat) | ByWorker(worker: nat)

  datatype State = State(
    maxWorkers: nat,
    registry: map<string, nat>,
    readers: set<nat>,
    writer: Option<Holder>,
    calls: seq<Call>,
    workers: seq<Worker>,
    accepted: map<string, seq<Message>>,
    executed: map<string, seq<Message>>)

  datatype Step =
    | Offer(id: string, message: Message)
    | TakeRead(k: nat)
    | LookUp(k: nat)
    | SendFast(k: nat)
    | DropRead(k: nat)
    | TakeWrite(k: nat)
    | CheckAgain(k: nat)
    | SendSlow(k: nat)
    | DropWrite(k: nat)
    | Receive(w: nat)
    | Finish(w: nat)
    | TimeOut(w: nat)
    | TakeWriteToRetire(w: nat)
    | TryReceive(w: nat)
    | DropWriteAndRun(w: nat)
    | RemoveEntry(w: nat)
    | Exit(w: nat)

  function Init(maxWorkers: nat): State {
    State(maxWorkers, map[], {}, None, [], [], map[], map[])
  }

  // ---------------------------------------------------------------- histories

  function Log(logs: map<string, seq<Message>>, id: string): seq<Message> {
    if id in logs then logs[id] else []
  }

  function Append(logs: map<string, seq<Message>>, id: string, m: Message): map<string, seq<Message>> {
    logs[id := Log(logs, id) + [m]]
  }

  // ---------------------------------------------------------------- the steps

  predicate Free(s: State) {
    s.writer.None? && s.readers == {}
  }

  predicate CallAt(s: State, k: nat) {
    k < |s.calls|
  }

  predicate WorkerAt(s: State, w: nat) {
    w < |s.workers|
  }

  predicate Enabled(s: State, step: Step) {
    match step
    case Offer(_, _) => true
    case TakeRead(k) => CallAt(s, k) && s.calls[k].pc.WantRead? && s.writer.None?
    case LookUp(k) => CallAt(s, k) && s.calls[k].pc.Lookup?
    case SendFast(k) => CallAt(s, k) && s.calls[k].pc.FastSend? && WorkerAt(s, s.calls[k].pc.worker)
    case DropRead(k) => CallAt(s, k) && (s.calls[k].pc.FastDone? || s.calls[k].pc.Missed?)
    case TakeWrite(k) => CallAt(s, k) && s.calls[k].pc.WantWrite? && Free(s)
    case CheckAgain(k) => CallAt(s, k) && s.calls[k].pc.Recheck?
    case SendSlow(k) => CallAt(s, k) && s.calls[k].pc.SlowSend? && WorkerAt(s, s.calls[k].pc.worker)
    case DropWrite(k) => CallAt(s, k) && s.calls[k].pc.SlowDone?
    case Receive(w) => WorkerAt(s, w) && s.workers[w].pc.Receiving? && s.workers[w].queue != []
    case Finish(w) => WorkerAt(s, w) && s.workers[w].pc.Running?
    case TimeOut(w) => WorkerAt(s, w) && s.workers[w].pc.Receiving?
    case TakeWriteToRetire(w) => WorkerAt(s, w) && s.workers[w].pc.Expired? && Free(s)
    case TryReceive(w) => WorkerAt(s, w) && s.workers[w].pc.LastLook?
    case DropWriteAndRun(w) => WorkerAt(s, w) && s.workers[w].pc.Rescued?
    case RemoveEntry(w) => WorkerAt(s, w) && s.workers[w].pc.Removing?
    case Exit(w) => WorkerAt(s, w) && s.workers[w].pc.Removed?
  }

  function SetCall(s: State, k: nat, pc: CallPc): State
    requires CallAt(s, k)
  {
    s.(calls := s.calls[k := s.calls[k].(pc := pc)])
  }

  function SetWorker(s: State, w: nat, queue: seq<Message>, pc: WorkerPc): State
    requires WorkerAt(s, w)
  {
    s.(workers := s.workers[w := s.workers[w].(queue := queue, pc := pc)])
  }

  /** What `try_send` reports on the channel of worker `w`. */
  function TrySend(s: State, w: nat): Outcome
    requires WorkerAt(s, w)
  {
    if s.workers[w].pc.Gone? then BrokenPipe
    else if |s.workers[w].queue| >= CHANNEL_CAPACITY then DroppedFull
    else Accepted
  }

  /** The message of call `k` joins the queue of worker `w`. */
  function Delivered(s: State, k: nat, w: nat): State
    requires CallAt(s, k) && WorkerAt(s, w)
  {
    var c := s.calls[k];
    SetWorker(s, w, s.workers[w].queue + [c.message], s.workers[w].pc)
      .(accepted := Append(s.accepted, c.id, c.message))
  }

  /** Call `k` tries to send to worker `w` and goes to `pc`. */
  function Sent(s: State, k: nat, w: nat, pc: CallPc): State
    requires CallAt(s, k) && WorkerAt(s, w)
  {
    SetCall(if TrySend(s, w).Accepted? then Delivered(s, k, w) else s, k, pc)
  }

  function Checked(s: State, k: nat): State
    requires CallAt(s, k)
  {
    var id := s.calls[k].id;
    if id !in s.registry && |s.registry| >= s.maxWorkers then
      SetCall(s, k, SlowDone(DroppedAtCeiling, false))
    else if id in s.registry then
      SetCall(s, k, SlowSend(s.registry[id], false))
    else
      SetCall(s, k, SlowSend(|s.workers|, true))
        .(registry := s.registry[id := |s.workers|], workers := s.workers + [Worker(id, [], Receiving)])
  }

  function Apply(s: State, step: Step): State
    requires Enabled(s, step)
  {
    match step
    case Offer(id, m) => s.(calls := s.calls + [Call(id, m, WantRead)])
    case TakeRead(k) => SetCall(s, k, Lookup).(readers := s.readers + {k})
    case LookUp(k) =>
      var id := s.calls[k].id;
      SetCall(s, k, if id in s.registry then FastSend(s.registry[id]) else Missed)
    case SendFast(k) =>
      var w := s.calls[k].pc.worker;
      Sent(s, k, w, FastDone(TrySend(s, w)))
    case DropRead(k) =>
      SetCall(s, k, if s.calls[k].pc.Missed? then WantWrite else Returned(s.calls[k].pc.outcome, false))
        .(readers := s.readers - {k})
    case TakeWrite(k) => SetCall(s, k, Recheck).(writer := Some(ByCall(k)))
    case CheckAgain(k) => Checked(s, k)
    case SendSlow(k) =>
      var w := s.calls[k].pc.worker;
      Sent(s, k, w, SlowDone(TrySend(s, w), s.calls[k].pc.created))
    case DropWrite(k) =>
      SetCall(s, k, Returned(s.calls[k].pc.outcome, s.calls[k].pc.created)).(writer := None)
    case Receive(w) => SetWorker(s, w, s.workers[w].queue[1..], Running(s.workers[w].queue[0]))
    case Finish(w) =>
      SetWorker(s, w, s.workers[w].queue, Receiving)
        .(executed := Append(s.executed, s.workers[w].id, s.workers[w].pc.message))
    case TimeOut(w) => SetWorker(s, w, s.workers[w].queue, Expired)
    case TakeWriteToRetire(w) => SetWorker(s, w, s.workers[w].queue, LastLook).(writer := Some(ByWorker(w)))
    case TryReceive(w) =>
      var q := s.workers[w].queue;
      if q == [] then SetWorker(s, w, q, Removing) else SetWorker(s, w, q[1..], Rescued(q[0]))
    case DropWriteAndRun(w) =>
      SetWorker(s, w, s.workers[w].queue, Running(s.workers[w].pc.message)).(writer := None)
    case RemoveEntry(w) =>
      SetWorker(s, w, s.workers[w].queue, Removed).(registry := s.registry - {s.workers[w].id})
    case Exit(w) => SetWorker(s, w, s.workers[w].queue, Gone).(writer := None)
  }

  // ---------------------------------------------------------------- the invariant

  predicate HoldsRead(pc: CallPc) {
    pc.Lookup? || pc.FastSend? || pc.FastDone? || pc.Missed?
  }

  predicate HoldsWrite(pc: CallPc) {
    pc.Recheck? || pc.SlowSend? || pc.SlowDone?
  }

  predicate RetiringUnderLock(pc: WorkerPc) {
    pc.LastLook? || pc.Rescued? || pc.Removing? || pc.Removed?
  }

  /** A worker that can still run a pipeline. */
  predicate Live(pc: WorkerPc) {
    !pc.Removed? && !pc.Gone?
  }

  ghost predicate LockInv(s: State) {
    && (s.writer.Some? ==> s.readers == {})
    && (forall k :: k in s.readers ==> CallAt(s, k))
    && (forall k :: 0 <= k < |s.calls| ==> (HoldsRead(s.calls[k].pc) <==> k in s.readers))
    && (forall k :: 0 <= k < |s.calls| ==> (HoldsWrite(s.calls[k].pc) <==> s.writer == Some(ByCall(k))))
    && (forall w :: 0 <= w < |s.workers| ==> (RetiringUnderLock(s.workers[w].pc) <==> s.writer == Some(ByWorker(w))))
    && (s.writer.Some? && s.writer.value.ByCall? ==> CallAt(s, s.writer.value.call))
    && (s.writer.Some? && s.writer.value.ByWorker? ==> WorkerAt(s, s.writer.value.worker))
  }

  /** The registry's entries are exactly the workers that can still run a pipeline. */
  ghost predicate RegistryInv(s: State) {
    && (forall id :: id in s.registry ==>
          && WorkerAt(s, s.registry[id])
          && s.workers[s.registry[id]].id == id
          && Live(s.workers[s.registry[id]].pc))
    && (forall w :: 0 <= w < |s.workers| && Live(s.workers[w].pc) ==>
          s.workers[w].id in s.registry && s.registry[s.workers[w].id] == w)
    && |s.registry| <= s.maxWorkers
  }

  predicate CallOk(s: State, c: Call) {
    match c.pc
    case FastSend(w) => c.id in s.registry && s.registry[c.id] == w
    case SlowSend(w, created) =>
      c.id in s.registry && s.registry[c.id] == w && WorkerAt(s, w) && (created ==> s.workers[w].queue == [])
    case FastDone(o) => !o.BrokenPipe? && !o.DroppedAtCeiling?
    case SlowDone(o, created) => !o.BrokenPipe? && (created ==> o.Accepted?)
    case Returned(o, created) => !o.BrokenPipe? && (created ==> o.Accepted?)
    case _ => true
  }

  ghost predicate CallInv(s: State) {
    forall k :: 0 <= k < |s.calls| ==> CallOk(s, s.calls[k])
  }

  ghost predicate QueueInv(s: State) {
    forall w :: 0 <= w < |s.workers| ==>
      && |s.workers[w].queue| <= CHANNEL_CAPACITY
      && (s.workers[w].pc.Removing? || !Live(s.workers[w].pc) ==> s.workers[w].queue == [])
  }

  function InFlight(pc: WorkerPc): seq<Message> {
    if pc.Running? || pc.Rescued? then [pc.message] else []
  }

  /** What a worker has yet to finish: the message in flight, then its queue. */
  function Outstanding(w: Worker): seq<Message> {
    InFlight(w.pc) + w.queue
  }

  /** Accepted for `id` but not yet executed. */
  function Pending(s: State, id: string): seq<Message> {
    if id in s.registry && WorkerAt(s, s.registry[id]) then Outstanding(s.workers[s.registry[id]]) else []
  }

  ghost predicate HistoryInv(s: State) {
    forall id :: Log(s.accepted, id) == Log(s.executed, id) + Pending(s, id)
  }

  ghost predicate Inv(s: State) {
    LockInv(s) && RegistryInv(s) && CallInv(s) && QueueInv(s) && HistoryInv(s)
  }
}
