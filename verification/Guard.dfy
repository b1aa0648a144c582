/** Deadline and failure isolation for block devices: many callers share one
    worker per device through a bounded queue. Every lock-protected access and
    every channel operation is one step, and steps of callers and workers
    interleave freely. */
module Guard {
  import opened Wrappers

  const MAX_QUEUED_OPERATIONS := 64

  type Device = string

  /** How an operation ends when it does not panic. */
  datatype OpResult =
    | Value(value: int)
    | MissingDevice
    | FatalError(message: string)
    | OtherError(message: string)

  /** What a worker sends back to the caller. */
  datatype JobResult = FromOp(result: OpResult) | AlreadyFailed(reason: Reason)

  /** Why a device was fenced. */
  datatype Reason = OpFailed(message: string) | Expired | Disconnected

  /** What a call returns. */
  datatype Reply =
    | Success(value: int)
    | OpError(result: OpResult)
    | DeviceFailed(reason: Reason)
    | DeviceTimeout
    | DeviceBusy
    | SpawnFailed

  datatype JobState = Pending | Running | Cancelled

  datatype CallPhase =
    | Admitted
    | AwaitingStart
    | StartExpired
    | Cancelling
    | AwaitingResult
    | Returned(reply: Reply)

  /** A call and its job. `slot` is the worker and the position in its queue the
      job was sent to; `runs` counts executions of the operation. */
  datatype Call = Call(
    device: Device,
    phase: CallPhase,
    state: JobState,
    started: bool,
    result: Option<JobResult>,
    slot: Option<(nat, nat)>,
    runs: nat)

  datatype WorkerPhase =
    | Idle
    | Received(call: nat)
    | Began(call: nat)
    | Signalled(call: nat)
    | Cleared(call: nat)
    | Executing(call: nat)
    | Finishing(call: nat, result: JobResult)

  /** `sent` lists every job ever queued, `taken` of which were received;
      `executed` lists the positions whose operations were started. */
  datatype Worker = Worker(
    device: Device,
    alive: bool,
    sent: seq<nat>,
    taken: nat,
    executed: seq<nat>,
    phase: WorkerPhase)

  datatype System = System(
    failed: map<Device, Reason>,
    senders: map<Device, nat>,
    workers: seq<Worker>,
    calls: map<nat, Call>)

  const START := System(map[], map[], [], map[])

  datatype Action =
    // callers
    | Admit(c: nat, device: Device)
    | Send(c: nat, spawned: bool)
    | SeeStart(c: nat)
    | ExpireStart(c: nat)
    | Resolve(c: nat)
    | ReportCancelled(c: nat)
    | LoseStart(c: nat)
    | SeeResult(c: nat)
    | ExpireResult(c: nat)
    | LoseResult(c: nat)
    // workers
    | Receive(w: nat)
    | Begin(w: nat)
    | Signal(w: nat)
    | Check(w: nat)
    | Execute(w: nat)
    | Complete(w: nat, result: OpResult)
    | Panic(w: nat)
    | Deliver(w: nat)

  // ---------------------------------------------------------------------------
  // Steps
  // ---------------------------------------------------------------------------

  /** The first reason stays. */
  function Fence(failed: map<Device, Reason>, device: Device, reason: Reason): map<Device, Reason> {
    if device in failed then failed else failed[device := reason]
  }

  function SetCall(s: System, c: nat, call: Call): System {
    s.(calls := s.calls[c := call])
  }

  function Answer(s: System, c: nat, reply: Reply): System
    requires c in s.calls
  {
    SetCall(s, c, s.calls[c].(phase := Returned(reply)))
  }

  /** Fences the device of the call and returns. */
  function FenceAndReply(s: System, c: nat, reason: Reason, reply: Reply): System
    requires c in s.calls
  {
    Answer(s.(failed := Fence(s.failed, s.calls[c].device, reason)), c, reply)
  }

  function SetWorker(s: System, w: nat, worker: Worker): System
    requires w < |s.workers|
  {
    s.(workers := s.workers[w := worker])
  }

  /** The job was destroyed with its worker before sending anything more. */
  predicate Dropped(s: System, call: Call) {
    && call.slot.Some? && call.slot.value.0 < |s.workers|
    && !s.workers[call.slot.value.0].alive
    && call.slot.value.1 + 1 >= s.workers[call.slot.value.0].taken
  }

  predicate ByCaller(a: Action) {
    || a.Admit? || a.Send? || a.SeeStart? || a.ExpireStart? || a.Resolve? || a.ReportCancelled?
    || a.LoseStart? || a.SeeResult? || a.ExpireResult? || a.LoseResult?
  }

  predicate CallEnabled(s: System, a: Action)
    requires ByCaller(a)
  {
    if a.Admit? then a.c !in s.calls
    else
      && a.c in s.calls
      && var call := s.calls[a.c];
         match a
         case Send(_, _) =>
           && call.phase.Admitted?
           && (call.device in s.senders ==> s.senders[call.device] < |s.workers|)
         case SeeStart(_) => call.phase.AwaitingStart? && call.started
         case ExpireStart(_) => call.phase.AwaitingStart?
         case Resolve(_) => call.phase.StartExpired?
         case ReportCancelled(_) => call.phase.Cancelling?
         case LoseStart(_) => call.phase.AwaitingStart? && !call.started && Dropped(s, call)
         case SeeResult(_) => call.phase.AwaitingResult? && call.result.Some?
         case ExpireResult(_) => call.phase.AwaitingResult? && call.result.None?
         case LoseResult(_) => call.phase.AwaitingResult? && call.result.None? && Dropped(s, call)
  }

  predicate WorkerEnabled(s: System, a: Action)
    requires !ByCaller(a)
  {
    && a.w < |s.workers| && s.workers[a.w].alive
    && var worker := s.workers[a.w];
       && (!worker.phase.Idle? ==> worker.phase.call in s.calls)
       && match a
          case Receive(_) => worker.phase.Idle? && worker.taken < |worker.sent|
          case Begin(_) => worker.phase.Received?
          case Signal(_) => worker.phase.Began?
          case Check(_) => worker.phase.Signalled?
          case Execute(_) => worker.phase.Cleared? && worker.taken > 0
          case Complete(_, _) => worker.phase.Executing?
          case Panic(_) => worker.phase.Executing?
          case Deliver(_) => worker.phase.Finishing?
  }

  predicate Enabled(s: System, a: Action) {
    if ByCaller(a) then CallEnabled(s, a) else WorkerEnabled(s, a)
  }

  function AfterAdmit(s: System, c: nat, device: Device): System {
    var phase := if device in s.failed then Returned(DeviceFailed(s.failed[device])) else Admitted;
    SetCall(s, c, Call(device, phase, Pending, false, None, None, 0))
  }

  /** The worker of a device is created at the first send and kept. */
  function AfterSend(s: System, c: nat, spawned: bool): System
    requires c in s.calls
    requires s.calls[c].device in s.senders ==> s.senders[s.calls[c].device] < |s.workers|
  {
    var device := s.calls[c].device;
    if device !in s.senders && !spawned then Answer(s, c, SpawnFailed)
    else
      var w := if device in s.senders then s.senders[device] else |s.workers|;
      var s := if device in s.senders then s
               else s.(senders := s.senders[device := w],
                       workers := s.workers + [Worker(device, true, [], 0, [], Idle)]);
      Enqueue(s, c, w)
  }

  function Enqueue(s: System, c: nat, w: nat): System
    requires c in s.calls && w < |s.workers|
  {
    var worker := s.workers[w];
    if !worker.alive then FenceAndReply(s, c, Disconnected, DeviceFailed(Disconnected))
    else if |worker.sent| - worker.taken >= MAX_QUEUED_OPERATIONS then Answer(s, c, DeviceBusy)
    else
      SetCall(SetWorker(s, w, worker.(sent := worker.sent + [c])), c,
              s.calls[c].(phase := AwaitingStart, slot := Some((w, |worker.sent|))))
  }

  /** The queue deadline passed: a job not yet begun is cancelled for good. */
  function AfterResolve(s: System, c: nat): System
    requires c in s.calls
  {
    var call := s.calls[c];
    SetCall(s, c, if call.state.Pending? then call.(state := Cancelled, phase := Cancelling)
                  else call.(phase := AwaitingResult))
  }

  function AfterReportCancelled(s: System, c: nat): System
    requires c in s.calls
  {
    var device := s.calls[c].device;
    Answer(s, c, if device in s.failed then DeviceFailed(s.failed[device]) else DeviceBusy)
  }

  function AfterSeeResult(s: System, c: nat): System
    requires c in s.calls && s.calls[c].result.Some?
  {
    match s.calls[c].result.value
    case FromOp(Value(v)) => Answer(s, c, Success(v))
    case FromOp(FatalError(m)) => FenceAndReply(s, c, OpFailed(m), DeviceFailed(OpFailed(m)))
    case FromOp(r) => Answer(s, c, OpError(r))
    case AlreadyFailed(reason) => FenceAndReply(s, c, reason, DeviceFailed(reason))
  }

  function AfterCallStep(s: System, a: Action): System
    requires ByCaller(a) && CallEnabled(s, a)
  {
    match a
    case Admit(c, device) => AfterAdmit(s, c, device)
    case Send(c, spawned) => AfterSend(s, c, spawned)
    case SeeStart(c) => SetCall(s, c, s.calls[c].(phase := AwaitingResult))
    case ExpireStart(c) => SetCall(s, c, s.calls[c].(phase := StartExpired))
    case Resolve(c) => AfterResolve(s, c)
    case ReportCancelled(c) => AfterReportCancelled(s, c)
    case LoseStart(c) => FenceAndReply(s, c, Disconnected, DeviceFailed(Disconnected))
    case SeeResult(c) => AfterSeeResult(s, c)
    case ExpireResult(c) => FenceAndReply(s, c, Expired, DeviceTimeout)
    case LoseResult(c) => FenceAndReply(s, c, Disconnected, DeviceFailed(Disconnected))
  }

  /** The check for an earlier fence and the operation are separate steps. */
  function AfterWorkerStep(s: System, a: Action): System
    requires !ByCaller(a) && WorkerEnabled(s, a)
  {
    var worker := s.workers[a.w];
    match a
    case Receive(w) =>
      SetWorker(s, w, worker.(taken := worker.taken + 1, phase := Received(worker.sent[worker.taken])))
    case Begin(w) =>
      var c := worker.phase.call;
      if s.calls[c].state.Cancelled? then SetWorker(s, w, worker.(phase := Idle))
      else SetCall(SetWorker(s, w, worker.(phase := Began(c))), c, s.calls[c].(state := Running))
    case Signal(w) =>
      var c := worker.phase.call;
      SetCall(SetWorker(s, w, worker.(phase := Signalled(c))), c, s.calls[c].(started := true))
    case Check(w) =>
      var c := worker.phase.call;
      SetWorker(s, w, worker.(phase := if worker.device in s.failed
                                       then Finishing(c, AlreadyFailed(s.failed[worker.device])) else Cleared(c)))
    case Execute(w) =>
      var c := worker.phase.call;
      SetCall(SetWorker(s, w, worker.(phase := Executing(c), executed := worker.executed + [worker.taken - 1])), c,
              s.calls[c].(runs := s.calls[c].runs + 1))
    case Complete(w, result) => SetWorker(s, w, worker.(phase := Finishing(worker.phase.call, FromOp(result))))
    case Panic(w) => SetWorker(s, w, worker.(alive := false, phase := Idle))
    case Deliver(w) =>
      var c := worker.phase.call;
      SetCall(SetWorker(s, w, worker.(phase := Idle)), c, s.calls[c].(result := Some(worker.phase.result)))
  }

  function Next(s: System, a: Action): System
    requires Enabled(s, a)
  {
    if ByCaller(a) then AfterCallStep(s, a) else AfterWorkerStep(s, a)
  }

  ghost predicate Runs(s: System, actions: seq<Action>)
    decreases |actions|
  {
    actions == [] || (Enabled(s, actions[0]) && Runs(Next(s, actions[0]), actions[1..]))
  }

  ghost function Run(s: System, actions: seq<Action>): System
    requires Runs(s, actions)
    decreases |actions|
  {
    if actions == [] then s else Run(Next(s, actions[0]), actions[1..])
  }

  // ---------------------------------------------------------------------------
  // The invariant
  // ---------------------------------------------------------------------------

  /** Positions are executed in the order they were sent, each at most once. */
  ghost predicate InOrder(worker: Worker) {
    && (forall i, j | 0 <= i < j < |worker.executed| :: worker.executed[i] < worker.executed[j])
    && (forall i | 0 <= i < |worker.executed| :: worker.executed[i] < worker.taken)
    && (worker.phase.Received? || worker.phase.Began? || worker.phase.Signalled? || worker.phase.Cleared? ==>
          forall i | 0 <= i < |worker.executed| :: worker.executed[i] < worker.taken - 1)
  }

  ghost predicate WorkerGood(s: System, w: nat)
    requires w < |s.workers|
  {
    var worker := s.workers[w];
    && worker.device in s.senders && s.senders[worker.device] == w
    && worker.taken <= |worker.sent|
    && (!worker.phase.Idle? ==> worker.taken > 0 && worker.phase.call == worker.sent[worker.taken - 1])
    && (forall k | 0 <= k < |worker.sent| ::
          && worker.sent[k] in s.calls
          && s.calls[worker.sent[k]].slot == Some((w, k))
          && s.calls[worker.sent[k]].device == worker.device
          && (k >= worker.taken ==> Untouched(s.calls[worker.sent[k]])))
    && InOrder(worker)
    && (!worker.phase.Idle? ==> HandGood(worker.phase, s.calls[worker.phase.call]))
    && (worker.phase.Finishing? && worker.phase.result.AlreadyFailed? ==> worker.device in s.failed)
  }

  /** A queued job has not run, signalled or answered. */
  ghost predicate Untouched(call: Call) {
    call.runs == 0 && !call.state.Running? && !call.started && call.result.None?
  }

  /** The job in a worker's hand. */
  ghost predicate HandGood(phase: WorkerPhase, call: Call)
    requires !phase.Idle?
  {
    match phase
    case Received(_) => Untouched(call)
    case Began(_) => call.state.Running? && call.runs == 0 && call.result.None?
    case Signalled(_) => call.state.Running? && call.started && call.runs == 0 && call.result.None?
    case Cleared(_) => call.state.Running? && call.started && call.runs == 0 && call.result.None?
    case Executing(_) => call.state.Running? && call.started && call.runs == 1 && call.result.None?
    case Finishing(_, FromOp(_)) => call.state.Running? && call.started && call.runs == 1 && call.result.None?
    case Finishing(_, AlreadyFailed(_)) => call.state.Running? && call.started && call.runs == 0 && call.result.None?
  }

  ghost predicate SlotHolds(workers: seq<Worker>, w: nat, k: nat, c: nat) {
    w < |workers| && k < |workers[w].sent| && workers[w].sent[k] == c
  }

  /** Queues only grow. */
  ghost predicate QueuesExtend(workers: seq<Worker>, workers': seq<Worker>) {
    |workers| <= |workers'| && forall v | 0 <= v < |workers| :: workers[v].sent <= workers'[v].sent
  }

  ghost predicate CallGood(s: System, c: nat)
    requires c in s.calls
  {
    var call := s.calls[c];
    && (call.slot.Some? ==> SlotHolds(s.workers, call.slot.value.0, call.slot.value.1, c))
    && call.runs <= 1
    && (call.slot.None? ==> Untouched(call))
    && (!call.state.Running? ==> call.runs == 0 && call.result.None? && !call.started)
    && (call.result.Some? ==> call.started)
    && (call.result.Some? && call.result.value.FromOp? ==> call.runs == 1)
    && (call.result.Some? && call.result.value.AlreadyFailed? ==> call.device in s.failed && call.runs == 0)
    && (match call.phase
        case Admitted => call.slot.None? && call.state.Pending?
        case AwaitingStart => call.slot.Some? && !call.state.Cancelled?
        case StartExpired => call.slot.Some? && !call.state.Cancelled?
        case Cancelling => call.state.Cancelled?
        case AwaitingResult => call.state.Running?
        case Returned(reply) => ReplyGood(s.failed, call, reply))
  }

  /** What a reply says about the operation and the device. */
  ghost predicate ReplyGood(failed: map<Device, Reason>, call: Call, reply: Reply) {
    match reply
    case Success(v) => call.result == Some(FromOp(Value(v))) && call.runs == 1
    case OpError(r) => call.result == Some(FromOp(r)) && !r.Value? && !r.FatalError? && call.runs == 1
    case DeviceBusy => call.runs == 0 && (call.slot.None? || call.state.Cancelled?)
    case SpawnFailed => call.runs == 0 && call.slot.None?
    case DeviceTimeout => call.device in failed && call.state.Running?
    case DeviceFailed(_) => call.device in failed
  }

  ghost predicate Inv(s: System) {
    && (forall d | d in s.senders :: s.senders[d] < |s.workers| && s.workers[s.senders[d]].device == d)
    && (forall w | 0 <= w < |s.workers| :: WorkerGood(s, w))
    && (forall c | c in s.calls :: CallGood(s, c))
  }

  lemma StartInv()
    ensures Inv(START)
  {
  }

  /** A step that changes one call and the failed map only. */
  lemma CallOnly(s: System, s': System, c: nat)
    requires Inv(s) && c in s.calls && c in s'.calls
    requires s'.senders == s.senders && s'.workers == s.workers && s'.calls == s.calls[c := s'.calls[c]]
    requires forall d | d in s.failed :: d in s'.failed
    requires s'.calls[c].device == s.calls[c].device && s'.calls[c].slot == s.calls[c].slot
    requires s'.calls[c].runs == s.calls[c].runs && s'.calls[c].started == s.calls[c].started
    requires s'.calls[c].result == s.calls[c].result
    requires s'.calls[c].state == s.calls[c].state || (s.calls[c].state.Pending? && s'.calls[c].state.Cancelled?)
    requires CallGood(s', c)
    ensures Inv(s')
  {
    hide InOrder;
    forall w | 0 <= w < |s'.workers| ensures WorkerGood(s', w) {
      assert WorkerGood(s, w);
    }
    forall d | d in s'.calls ensures CallGood(s', d) {
      if d != c { OtherCall(s, s', d); }
    }
  }

  lemma AdmitStep(s: System, c: nat, device: Device)
    requires Inv(s) && c !in s.calls
    ensures Inv(AfterAdmit(s, c, device))
  {
    var s' := AfterAdmit(s, c, device);
    forall w | 0 <= w < |s'.workers| ensures WorkerGood(s', w) {
      assert WorkerGood(s, w);
    }
    forall d | d in s'.calls ensures CallGood(s', d) {
      assert d != c ==> CallGood(s, d);
    }
  }

  ghost function Spawned(s: System, device: Device): System {
    s.(senders := s.senders[device := |s.workers|], workers := s.workers + [Worker(device, true, [], 0, [], Idle)])
  }

  lemma SpawnInv(s: System, device: Device)
    requires Inv(s) && device !in s.senders
    ensures Inv(Spawned(s, device))
  {
    var s' := Spawned(s, device);
    forall w | 0 <= w < |s'.workers| ensures WorkerGood(s', w) {
      assert w < |s.workers| ==> WorkerGood(s, w);
    }
    forall c | c in s'.calls ensures CallGood(s', c) {
      assert CallGood(s, c);
    }
  }

  /** A call not touched by a step stays good while queues and fences grow. */
  lemma OtherCall(s: System, s': System, c: nat)
    requires c in s.calls && CallGood(s, c) && c in s'.calls && s'.calls[c] == s.calls[c]
    requires QueuesExtend(s.workers, s'.workers)
    requires forall d | d in s.failed :: d in s'.failed
    ensures CallGood(s', c)
  {
    var call := s.calls[c];
    if call.slot.Some? {
      assert s.workers[call.slot.value.0].sent <= s'.workers[call.slot.value.0].sent;
    }
  }

  ghost function Queued(s: System, c: nat, w: nat): System
    requires c in s.calls && w < |s.workers|
  {
    var worker := s.workers[w];
    SetCall(SetWorker(s, w, worker.(sent := worker.sent + [c])), c,
            s.calls[c].(phase := AwaitingStart, slot := Some((w, |worker.sent|))))
  }

  lemma QueuedWorker(s: System, c: nat, w: nat, v: nat)
    requires c in s.calls && w < |s.workers| && v < |s.workers| && WorkerGood(s, v)
    requires s.calls[c].slot.None? && Untouched(s.calls[c]) && s.workers[w].device == s.calls[c].device
    ensures WorkerGood(Queued(s, c, w), v)
  {
    hide InOrder, HandGood;
    var worker, worker' := s.workers[v], Queued(s, c, w).workers[v];
    assert forall k | 0 <= k < |worker.sent| :: worker.sent[k] != c && worker'.sent[k] == worker.sent[k];
    assert InOrder(worker) ==> InOrder(worker') by { SameOrder(worker, worker'); }
  }

  lemma SameOrder(a: Worker, b: Worker)
    requires a.executed == b.executed && a.taken == b.taken && a.phase == b.phase
    ensures InOrder(a) <==> InOrder(b)
  {
  }

  lemma QueuedInv(s: System, c: nat, w: nat)
    requires Inv(s) && c in s.calls && s.calls[c].phase.Admitted?
    requires w < |s.workers| && s.workers[w].device == s.calls[c].device
    ensures Inv(Queued(s, c, w))
  {
    hide WorkerGood;
    assert CallGood(s, c);
    var s' := Queued(s, c, w);
    forall v | 0 <= v < |s'.workers| ensures WorkerGood(s', v) {
      QueuedWorker(s, c, w, v);
    }
    forall d | d in s'.calls ensures CallGood(s', d) {
      if d != c { OtherCall(s, s', d); }
    }
  }

  lemma EnqueueInv(s: System, c: nat, w: nat)
    requires Inv(s) && c in s.calls && s.calls[c].phase.Admitted?
    requires w < |s.workers| && s.workers[w].device == s.calls[c].device
    ensures Inv(Enqueue(s, c, w))
  {
    hide WorkerGood;
    var worker := s.workers[w];
    assert CallGood(s, c);
    if !worker.alive || |worker.sent| - worker.taken >= MAX_QUEUED_OPERATIONS {
      CallOnly(s, Enqueue(s, c, w), c);
    } else {
      QueuedInv(s, c, w);
    }
  }

  lemma SendStep(s: System, c: nat, spawned: bool)
    requires Inv(s) && c in s.calls && s.calls[c].phase.Admitted?
    requires s.calls[c].device in s.senders ==> s.senders[s.calls[c].device] < |s.workers|
    ensures Inv(AfterSend(s, c, spawned))
  {
    hide WorkerGood;
    var device := s.calls[c].device;
    assert CallGood(s, c);
    if device in s.senders {
      EnqueueInv(s, c, s.senders[device]);
    } else if spawned {
      SpawnInv(s, device);
      EnqueueInv(Spawned(s, device), c, |s.workers|);
    } else {
      CallOnly(s, AfterSend(s, c, spawned), c);
    }
  }

  lemma WaitStep(s: System, a: Action)
    requires Inv(s) && (a.SeeStart? || a.ExpireStart? || a.Resolve? || a.ReportCancelled? || a.LoseStart?)
    requires CallEnabled(s, a)
    ensures Inv(AfterCallStep(s, a))
  {
    hide WorkerGood;
    assert CallGood(s, a.c);
    CallOnly(s, AfterCallStep(s, a), a.c);
  }

  lemma SeeResultStep(s: System, c: nat)
    requires Inv(s) && c in s.calls && s.calls[c].phase.AwaitingResult? && s.calls[c].result.Some?
    ensures Inv(AfterSeeResult(s, c))
  {
    hide WorkerGood;
    assert CallGood(s, c);
    CallOnly(s, AfterSeeResult(s, c), c);
  }

  lemma GiveUpStep(s: System, c: nat, reason: Reason, reply: Reply)
    requires Inv(s) && c in s.calls && s.calls[c].phase.AwaitingResult?
    requires reply.DeviceTimeout? || reply.DeviceFailed?
    ensures Inv(FenceAndReply(s, c, reason, reply))
  {
    hide WorkerGood;
    assert CallGood(s, c);
    CallOnly(s, FenceAndReply(s, c, reason, reply), c);
  }

  lemma CallStep(s: System, a: Action)
    requires Inv(s) && ByCaller(a) && CallEnabled(s, a)
    ensures Inv(AfterCallStep(s, a))
  {
    hide Inv;
    match a
    case Admit(c, device) => AdmitStep(s, c, device);
    case Send(c, spawned) => SendStep(s, c, spawned);
    case SeeResult(c) => SeeResultStep(s, c);
    case ExpireResult(c) => GiveUpStep(s, c, Expired, DeviceTimeout);
    case LoseResult(c) => GiveUpStep(s, c, Disconnected, DeviceFailed(Disconnected));
    case _ => WaitStep(s, a);
  }

  // ---------------------------------------------------------------------------
  // Worker steps
  // ---------------------------------------------------------------------------

  /** A step that changes one worker and the job in its hand. */
  lemma WorkerOnly(s: System, s': System, w: nat, c: nat)
    requires Inv(s) && w < |s.workers| && c in s.calls && c in s'.calls
    requires s'.failed == s.failed && s'.senders == s.senders
    requires |s'.workers| == |s.workers| && s'.workers == s.workers[w := s'.workers[w]]
    requires s'.workers[w].device == s.workers[w].device && s'.workers[w].sent == s.workers[w].sent
    requires s'.calls == s.calls[c := s'.calls[c]]
    requires s.calls[c].slot.Some? && s.calls[c].slot.value.0 == w
    requires s'.calls[c].slot == s.calls[c].slot && s'.calls[c].device == s.calls[c].device
    requires WorkerGood(s', w) && CallGood(s', c)
    ensures Inv(s')
  {
    hide InOrder;
    forall v | 0 <= v < |s'.workers| ensures WorkerGood(s', v) {
      if v != w {
        assert WorkerGood(s, v);
      }
    }
    forall d | d in s'.calls ensures CallGood(s', d) {
      if d != c { OtherCall(s, s', d); }
    }
  }

  lemma ReceiveStep(s: System, w: nat)
    requires Inv(s) && WorkerEnabled(s, Receive(w))
    ensures Inv(AfterWorkerStep(s, Receive(w)))
  {
    assert WorkerGood(s, w);
    var c := s.workers[w].sent[s.workers[w].taken];
    assert CallGood(s, c);
    WorkerOnly(s, AfterWorkerStep(s, Receive(w)), w, c);
  }

  lemma BeginStep(s: System, w: nat)
    requires Inv(s) && WorkerEnabled(s, Begin(w))
    ensures Inv(AfterWorkerStep(s, Begin(w)))
  {
    assert WorkerGood(s, w);
    assert CallGood(s, s.workers[w].phase.call);
    WorkerOnly(s, AfterWorkerStep(s, Begin(w)), w, s.workers[w].phase.call);
  }

  lemma SignalStep(s: System, w: nat)
    requires Inv(s) && WorkerEnabled(s, Signal(w))
    ensures Inv(AfterWorkerStep(s, Signal(w)))
  {
    assert WorkerGood(s, w);
    assert CallGood(s, s.workers[w].phase.call);
    WorkerOnly(s, AfterWorkerStep(s, Signal(w)), w, s.workers[w].phase.call);
  }

  lemma CheckStep(s: System, w: nat)
    requires Inv(s) && WorkerEnabled(s, Check(w))
    ensures Inv(AfterWorkerStep(s, Check(w)))
  {
    hide ReplyGood;
    assert WorkerGood(s, w);
    assert CallGood(s, s.workers[w].phase.call);
    WorkerOnly(s, AfterWorkerStep(s, Check(w)), w, s.workers[w].phase.call);
  }

  lemma ExecuteStep(s: System, w: nat)
    requires Inv(s) && WorkerEnabled(s, Execute(w))
    ensures Inv(AfterWorkerStep(s, Execute(w)))
  {
    assert WorkerGood(s, w);
    assert CallGood(s, s.workers[w].phase.call);
    ExecuteKeepsCall(s, w);
    hide ReplyGood, CallGood;
    WorkerOnly(s, AfterWorkerStep(s, Execute(w)), w, s.workers[w].phase.call);
  }

  lemma ExecuteKeepsCall(s: System, w: nat)
    requires WorkerEnabled(s, Execute(w)) && WorkerGood(s, w)
    requires s.workers[w].phase.call in s.calls && CallGood(s, s.workers[w].phase.call)
    ensures var s' := AfterWorkerStep(s, Execute(w));
            s.workers[w].phase.call in s'.calls && CallGood(s', s.workers[w].phase.call)
  {
    hide InOrder;
  }

  lemma CompleteStep(s: System, w: nat, result: OpResult)
    requires Inv(s) && WorkerEnabled(s, Complete(w, result))
    ensures Inv(AfterWorkerStep(s, Complete(w, result)))
  {
    hide ReplyGood;
    assert WorkerGood(s, w);
    assert CallGood(s, s.workers[w].phase.call);
    WorkerOnly(s, AfterWorkerStep(s, Complete(w, result)), w, s.workers[w].phase.call);
  }

  lemma PanicStep(s: System, w: nat)
    requires Inv(s) && WorkerEnabled(s, Panic(w))
    ensures Inv(AfterWorkerStep(s, Panic(w)))
  {
    hide ReplyGood;
    assert WorkerGood(s, w);
    assert CallGood(s, s.workers[w].phase.call);
    WorkerOnly(s, AfterWorkerStep(s, Panic(w)), w, s.workers[w].phase.call);
  }

  lemma DeliverStep(s: System, w: nat)
    requires Inv(s) && WorkerEnabled(s, Deliver(w))
    ensures Inv(AfterWorkerStep(s, Deliver(w)))
  {
    assert WorkerGood(s, w);
    assert CallGood(s, s.workers[w].phase.call);
    WorkerOnly(s, AfterWorkerStep(s, Deliver(w)), w, s.workers[w].phase.call);
  }

  lemma WorkerStep(s: System, a: Action)
    requires Inv(s) && !ByCaller(a) && WorkerEnabled(s, a)
    ensures Inv(AfterWorkerStep(s, a))
  {
    hide Inv;
    match a
    case Receive(w) => ReceiveStep(s, w);
    case Begin(w) => BeginStep(s, w);
    case Signal(w) => SignalStep(s, w);
    case Check(w) => CheckStep(s, w);
    case Execute(w) => ExecuteStep(s, w);
    case Complete(w, result) => CompleteStep(s, w, result);
    case Panic(w) => PanicStep(s, w);
    case Deliver(w) => DeliverStep(s, w);
  }

  lemma StepInv(s: System, a: Action)
    requires Inv(s) && Enabled(s, a)
    ensures Inv(Next(s, a))
  {
    hide Inv, AfterCallStep, AfterWorkerStep, CallEnabled, WorkerEnabled;
    if ByCaller(a) {
      CallStep(s, a);
    } else {
      WorkerStep(s, a);
    }
  }

  lemma {:induction false} RunInv(s: System, actions: seq<Action>)
    requires Inv(s) && Runs(s, actions)
    ensures Inv(Run(s, actions))
    decreases |actions|
  {
    hide Inv, Enabled, Next;
    if actions != [] {
      StepInv(s, actions[0]);
      RunInv(Next(s, actions[0]), actions[1..]);
    }
  }

  // ---------------------------------------------------------------------------
  // Fencing
  // ---------------------------------------------------------------------------

  /** Per device at most one operation runs at a time, in the order the calls
      were queued, and none runs twice. */
  lemma OneAtATimeInOrder(actions: seq<Action>, v: nat, w: nat)
    requires Runs(START, actions)
    requires v < |Run(START, actions).workers| && w < |Run(START, actions).workers|
    ensures var s := Run(START, actions);
            && (s.workers[v].device == s.workers[w].device ==> v == w)
            && InOrder(s.workers[w])
            && |s.workers[w].sent| - s.workers[w].taken <= MAX_QUEUED_OPERATIONS
  {
    hide Runs, Run, Enabled, Next;
    StartInv();
    RunInv(START, actions);
    var s := Run(START, actions);
    assert WorkerGood(s, v) && WorkerGood(s, w);
    QueueBounded(START, actions);
  }

  ghost predicate Bounded(s: System) {
    forall w | 0 <= w < |s.workers| :: |s.workers[w].sent| - s.workers[w].taken <= MAX_QUEUED_OPERATIONS
  }

  lemma {:induction false} QueueBounded(s: System, actions: seq<Action>)
    requires Bounded(s) && Runs(s, actions)
    ensures Bounded(Run(s, actions))
    decreases |actions|
  {
    if actions != [] {
      BoundedStep(s, actions[0]);
      QueueBounded(Next(s, actions[0]), actions[1..]);
    }
  }

  lemma BoundedStepByCaller(s: System, a: Action)
    requires Bounded(s) && ByCaller(a) && CallEnabled(s, a)
    ensures Bounded(AfterCallStep(s, a))
  {
  }

  lemma BoundedStepByWorker(s: System, a: Action)
    requires Bounded(s) && !ByCaller(a) && WorkerEnabled(s, a)
    ensures Bounded(AfterWorkerStep(s, a))
  {
  }

  lemma BoundedStep(s: System, a: Action)
    requires Bounded(s) && Enabled(s, a)
    ensures Bounded(Next(s, a))
  {
    hide CallEnabled, WorkerEnabled, AfterCallStep, AfterWorkerStep;
    if ByCaller(a) {
      BoundedStepByCaller(s, a);
    } else {
      BoundedStepByWorker(s, a);
    }
  }

  ghost predicate FencesKept(failed: map<Device, Reason>, failed': map<Device, Reason>) {
    forall d | d in failed :: d in failed' && failed'[d] == failed[d]
  }

  lemma FenceStepByCaller(s: System, a: Action)
    requires ByCaller(a) && CallEnabled(s, a)
    ensures FencesKept(s.failed, AfterCallStep(s, a).failed)
  {
  }

  lemma FenceStepByWorker(s: System, a: Action)
    requires !ByCaller(a) && WorkerEnabled(s, a)
    ensures FencesKept(s.failed, AfterWorkerStep(s, a).failed)
  {
  }

  lemma FenceStep(s: System, a: Action)
    requires Enabled(s, a)
    ensures FencesKept(s.failed, Next(s, a).failed)
  {
    hide CallEnabled, WorkerEnabled, AfterCallStep, AfterWorkerStep;
    if ByCaller(a) {
      FenceStepByCaller(s, a);
    } else {
      FenceStepByWorker(s, a);
    }
  }

  /** A fence and its first reason never change. */
  lemma {:induction false} FenceForever(s: System, actions: seq<Action>)
    requires Runs(s, actions)
    ensures FencesKept(s.failed, Run(s, actions).failed)
    decreases |actions|
  {
    hide Enabled, Next;
    if actions != [] {
      FenceStep(s, actions[0]);
      FenceForever(Next(s, actions[0]), actions[1..]);
    }
  }

  /** Operations that a worker has cleared but not started. */
  ghost function Owed(worker: Worker): nat { if worker.phase.Cleared? then 1 else 0 }

  lemma FencedStepByCaller(s: System, a: Action, w: nat)
    requires ByCaller(a) && CallEnabled(s, a) && w < |s.workers| && s.workers[w].device in s.failed
    ensures w < |AfterCallStep(s, a).workers| && AfterCallStep(s, a).workers[w].device == s.workers[w].device
    ensures var worker, worker' := s.workers[w], AfterCallStep(s, a).workers[w];
            && worker.executed <= worker'.executed
            && |worker'.executed| + Owed(worker') <= |worker.executed| + Owed(worker)
  {
  }

  lemma FencedStepByWorker(s: System, a: Action, w: nat)
    requires !ByCaller(a) && WorkerEnabled(s, a) && w < |s.workers| && s.workers[w].device in s.failed
    ensures w < |AfterWorkerStep(s, a).workers| && AfterWorkerStep(s, a).workers[w].device == s.workers[w].device
    ensures var worker, worker' := s.workers[w], AfterWorkerStep(s, a).workers[w];
            && worker.executed <= worker'.executed
            && |worker'.executed| + Owed(worker') <= |worker.executed| + Owed(worker)
  {
  }

  lemma FencedStep(s: System, a: Action, w: nat)
    requires Enabled(s, a) && w < |s.workers| && s.workers[w].device in s.failed
    ensures w < |Next(s, a).workers| && Next(s, a).workers[w].device == s.workers[w].device
    ensures var worker, worker' := s.workers[w], Next(s, a).workers[w];
            && worker.executed <= worker'.executed
            && |worker'.executed| + Owed(worker') <= |worker.executed| + Owed(worker)
  {
    hide CallEnabled, WorkerEnabled, AfterCallStep, AfterWorkerStep;
    if ByCaller(a) {
      FencedStepByCaller(s, a, w);
    } else {
      FencedStepByWorker(s, a, w);
    }
  }

  /** After a fence at most one operation still starts on the device, and only
      one that had passed its check before. */
  lemma {:induction false} AtMostOneAfterFence(s: System, actions: seq<Action>, w: nat)
    requires Runs(s, actions) && w < |s.workers| && s.workers[w].device in s.failed
    ensures w < |Run(s, actions).workers|
    ensures var worker, worker' := s.workers[w], Run(s, actions).workers[w];
            && worker.executed <= worker'.executed
            && |worker'.executed| + Owed(worker') <= |worker.executed| + Owed(worker)
    decreases |actions|
  {
    hide Enabled, Next;
    if actions != [] {
      FencedStep(s, actions[0], w);
      FenceStep(s, actions[0]);
      AtMostOneAfterFence(Next(s, actions[0]), actions[1..], w);
    }
  }

  // ---------------------------------------------------------------------------
  // Outcomes
  // ---------------------------------------------------------------------------

  lemma ReplyStepByCaller(s: System, a: Action, c: nat)
    requires ByCaller(a) && CallEnabled(s, a) && c in s.calls && s.calls[c].phase.Returned?
    ensures c in AfterCallStep(s, a).calls && AfterCallStep(s, a).calls[c].phase == s.calls[c].phase
    ensures AfterCallStep(s, a).calls[c].device == s.calls[c].device
  {
  }

  lemma ReplyStepByWorker(s: System, a: Action, c: nat)
    requires !ByCaller(a) && WorkerEnabled(s, a) && c in s.calls && s.calls[c].phase.Returned?
    ensures c in AfterWorkerStep(s, a).calls && AfterWorkerStep(s, a).calls[c].phase == s.calls[c].phase
    ensures AfterWorkerStep(s, a).calls[c].device == s.calls[c].device
  {
  }

  lemma ReplyStep(s: System, a: Action, c: nat)
    requires Enabled(s, a) && c in s.calls && s.calls[c].phase.Returned?
    ensures c in Next(s, a).calls && Next(s, a).calls[c].phase == s.calls[c].phase
    ensures Next(s, a).calls[c].device == s.calls[c].device
  {
    hide CallEnabled, WorkerEnabled, AfterCallStep, AfterWorkerStep;
    if ByCaller(a) {
      ReplyStepByCaller(s, a, c);
    } else {
      ReplyStepByWorker(s, a, c);
    }
  }

  /** A reply is final. */
  lemma {:induction false} ReplyForever(s: System, actions: seq<Action>, c: nat)
    requires Runs(s, actions) && c in s.calls && s.calls[c].phase.Returned?
    ensures c in Run(s, actions).calls && Run(s, actions).calls[c].phase == s.calls[c].phase
    ensures Run(s, actions).calls[c].device == s.calls[c].device
    decreases |actions|
  {
    hide Enabled, Next;
    if actions != [] {
      ReplyStep(s, actions[0], c);
      ReplyForever(Next(s, actions[0]), actions[1..], c);
    }
  }

  /** Outcome honesty over every interleaving. A call that has returned keeps its
      reply for ever after, and at every later point: Busy means the operation
      has not run; Success means it has run exactly once and produced that value;
      a timeout or failure means the device is fenced. */
  lemma HonestReplies(before: seq<Action>, after: seq<Action>, c: nat)
    requires Runs(START, before) && Runs(Run(START, before), after)
    requires c in Run(START, before).calls && Run(START, before).calls[c].phase.Returned?
    ensures var s := Run(START, before);
            var later := Run(s, after);
            && c in later.calls && later.calls[c].phase == s.calls[c].phase
            && later.calls[c].runs <= 1
            && ReplyGood(later.failed, later.calls[c], s.calls[c].phase.reply)
  {
    hide Runs, Run, Enabled, Next, WorkerGood;
    StartInv();
    RunInv(START, before);
    var s := Run(START, before);
    RunInv(s, after);
    ReplyForever(s, after, c);
    assert CallGood(Run(s, after), c);
  }

  /** No operation runs twice, whatever its call returned. */
  lemma AtMostOneRun(actions: seq<Action>, c: nat)
    requires Runs(START, actions) && c in Run(START, actions).calls
    ensures Run(START, actions).calls[c].runs <= 1
  {
    hide Runs, Run, Enabled, Next, WorkerGood;
    StartInv();
    RunInv(START, actions);
    assert CallGood(Run(START, actions), c);
  }
}
