/** Why guarded calls answer as they do and why devices are fenced, over every
    run of the guard. */
module GuardCauses {
  import opened Guard
  import opened Wrappers

  // ---------------------------------------------------------------------------
  // The reply of each step
  // ---------------------------------------------------------------------------

  ghost predicate Replied(s: System, c: nat) { c in s.calls && s.calls[c].phase.Returned? }

  /** The worker of the call's device exists and has died. */
  ghost predicate WorkerGone(s: System, device: Device) {
    device in s.senders && s.senders[device] < |s.workers| && !s.workers[s.senders[device]].alive
  }

  ghost predicate QueueFull(s: System, device: Device) {
    && device in s.senders && s.senders[device] < |s.workers|
    && var worker := s.workers[s.senders[device]];
       worker.alive && |worker.sent| - worker.taken >= MAX_QUEUED_OPERATIONS
  }

  /** Call `c` has its reply from step `a`. */
  ghost predicate RepliesIn(s: System, a: Action, c: nat, reply: Reply)
    requires Enabled(s, a)
  {
    !Replied(s, c) && Replied(Next(s, a), c) && Next(s, a).calls[c].phase.reply == reply
  }

  /** What the caller of a step gets, in terms of what it finds. */
  ghost predicate ReplyCause(s: System, a: Action, c: nat, reply: Reply)
    requires Enabled(s, a)
  {
    match a
    case Admit(d, device) => d == c && device in s.failed && reply == DeviceFailed(s.failed[device])
    case Send(d, spawned) =>
      && d == c
      && var device := s.calls[c].device;
         || (device !in s.senders && !spawned && reply == SpawnFailed)
         || (WorkerGone(s, device) && reply == DeviceFailed(Disconnected))
         || (QueueFull(s, device) && reply == DeviceBusy)
    case ReportCancelled(d) =>
      && d == c
      && var device := s.calls[c].device;
         || (device in s.failed && reply == DeviceFailed(s.failed[device]))
         || (device !in s.failed && reply == DeviceBusy)
    case LoseStart(d) => d == c && reply == DeviceFailed(Disconnected)
    case LoseResult(d) => d == c && reply == DeviceFailed(Disconnected)
    case ExpireResult(d) => d == c && reply == DeviceTimeout
    case SeeResult(d) =>
      && d == c
      && var result := s.calls[c].result.value;
         || (exists v :: result == FromOp(Value(v)) && reply == Success(v))
         || (result == FromOp(MissingDevice) && reply == OpError(MissingDevice))
         || (exists m :: result == FromOp(OtherError(m)) && reply == OpError(OtherError(m)))
         || (exists m :: result == FromOp(FatalError(m)) && reply == DeviceFailed(OpFailed(m)))
         || (exists r :: result == AlreadyFailed(r) && reply == DeviceFailed(r))
    case _ => false
  }

  lemma WorkerStepRepliesNothing(s: System, a: Action, c: nat)
    requires !ByCaller(a) && WorkerEnabled(s, a)
    ensures Replied(AfterWorkerStep(s, a), c) <==> Replied(s, c)
  {
  }

  lemma OtherCallerStep(s: System, a: Action, c: nat)
    requires ByCaller(a) && CallEnabled(s, a) && a.c != c
    ensures Replied(AfterCallStep(s, a), c) <==> Replied(s, c)
  {
  }

  lemma SeeResultReply(s: System, c: nat, reply: Reply)
    requires Enabled(s, SeeResult(c))
    ensures RepliesIn(s, SeeResult(c), c, reply) <==> ReplyCause(s, SeeResult(c), c, reply)
  {
  }

  lemma SendReply(s: System, c: nat, spawned: bool, reply: Reply)
    requires Enabled(s, Send(c, spawned))
    ensures RepliesIn(s, Send(c, spawned), c, reply) <==> ReplyCause(s, Send(c, spawned), c, reply)
  {
  }

  lemma OwnStep(s: System, a: Action, reply: Reply)
    requires ByCaller(a) && Enabled(s, a) && !a.SeeResult? && !a.Send?
    ensures RepliesIn(s, a, a.c, reply) <==> ReplyCause(s, a, a.c, reply)
  {
  }

  /** In every step, a call gets a reply if and only if the step is its own and
      finds the cause of that reply. */
  lemma ReplyIffCause(s: System, a: Action, c: nat, reply: Reply)
    requires Enabled(s, a)
    ensures RepliesIn(s, a, c, reply) <==> ReplyCause(s, a, c, reply)
  {
    hide CallEnabled, WorkerEnabled, AfterCallStep, AfterWorkerStep, QueueFull, WorkerGone;
    if !ByCaller(a) {
      WorkerStepRepliesNothing(s, a, c);
    } else if a.c != c {
      OtherCallerStep(s, a, c);
    } else if a.SeeResult? {
      SeeResultReply(s, c, reply);
    } else if a.Send? {
      SendReply(s, c, a.spawned, reply);
    } else {
      OwnStep(s, a, reply);
    }
  }

  /** Over every run: the result a call sees decides its reply for good. */
  lemma SeenResultDecides(before: seq<Action>, c: nat, after: seq<Action>)
    requires Runs(START, before) && Enabled(Run(START, before), SeeResult(c))
    requires Runs(Next(Run(START, before), SeeResult(c)), after)
    ensures var s := Run(START, before);
            var later := Run(Next(s, SeeResult(c)), after);
            && c in later.calls && later.calls[c].phase.Returned?
            && var reply := later.calls[c].phase.reply;
               match s.calls[c].result.value
               case FromOp(Value(v)) => reply == Success(v)
               case FromOp(MissingDevice) => reply == OpError(MissingDevice)
               case FromOp(OtherError(m)) => reply == OpError(OtherError(m))
               case FromOp(FatalError(m)) => reply == DeviceFailed(OpFailed(m))
               case AlreadyFailed(r) => reply == DeviceFailed(r)
  {
    hide Runs, Run;
    ReplyForever(Next(Run(START, before), SeeResult(c)), after, c);
  }

  // ---------------------------------------------------------------------------
  // Fences
  // ---------------------------------------------------------------------------

  /** What makes a step fence the device `d`, and the reason it stores. */
  ghost predicate FenceCause(s: System, a: Action, d: Device, reason: Reason)
    requires Enabled(s, a)
  {
    && (a.SeeResult? || a.ExpireResult? || a.Send? || a.LoseStart? || a.LoseResult?)
    && s.calls[a.c].device == d
    && match a
       case SeeResult(c) => exists m :: s.calls[c].result == Some(FromOp(FatalError(m))) && reason == OpFailed(m)
       case ExpireResult(_) => reason == Expired
       case _ => WorkerGone(s, d) && reason == Disconnected
  }

  ghost predicate FencedIn(s: System, a: Action, d: Device, reason: Reason)
    requires Enabled(s, a)
  {
    d !in s.failed && d in Next(s, a).failed && Next(s, a).failed[d] == reason
  }

  /** A dropped job had the worker of its device. */
  lemma DroppedIsGone(s: System, c: nat)
    requires Inv(s) && c in s.calls && Dropped(s, s.calls[c])
    ensures WorkerGone(s, s.calls[c].device)
  {
    hide InOrder, HandGood, ReplyGood;
    assert CallGood(s, c);
    var (w, k) := s.calls[c].slot.value;
    assert WorkerGood(s, w);
    assert s.workers[w].sent[k] == c;
  }

  lemma FenceByResult(s: System, c: nat, d: Device, reason: Reason)
    requires Inv(s) && Enabled(s, SeeResult(c))
    ensures FencedIn(s, SeeResult(c), d, reason) <==> d !in s.failed && FenceCause(s, SeeResult(c), d, reason)
  {
    hide WorkerGood, ReplyGood;
    assert CallGood(s, c);
  }

  lemma FenceByLoss(s: System, a: Action, d: Device, reason: Reason)
    requires Inv(s) && Enabled(s, a) && (a.LoseStart? || a.LoseResult?)
    ensures FencedIn(s, a, d, reason) <==> d !in s.failed && FenceCause(s, a, d, reason)
  {
    hide Inv;
    DroppedIsGone(s, a.c);
  }

  lemma FenceByCaller(s: System, a: Action, d: Device, reason: Reason)
    requires ByCaller(a) && Enabled(s, a) && !a.SeeResult? && !a.LoseStart? && !a.LoseResult?
    ensures FencedIn(s, a, d, reason) <==> d !in s.failed && FenceCause(s, a, d, reason)
  {
  }

  lemma WorkersDoNotFence(s: System, a: Action)
    requires !ByCaller(a) && WorkerEnabled(s, a)
    ensures AfterWorkerStep(s, a).failed == s.failed
  {
  }

  /** In every step of a good state a device is newly fenced if and only if a call
      on it sees a fatal error, passes its result deadline, or finds its worker
      gone, and the reason stored is that cause. */
  lemma FenceIffCause(s: System, a: Action, d: Device, reason: Reason)
    requires Inv(s) && Enabled(s, a)
    ensures FencedIn(s, a, d, reason) <==> d !in s.failed && FenceCause(s, a, d, reason)
  {
    hide Inv, CallEnabled, WorkerEnabled, AfterCallStep, AfterWorkerStep, WorkerGone;
    if !ByCaller(a) {
      WorkersDoNotFence(s, a);
    } else if a.SeeResult? {
      FenceByResult(s, a.c, d, reason);
    } else if a.LoseStart? || a.LoseResult? {
      FenceByLoss(s, a, d, reason);
    } else {
      FenceByCaller(s, a, d, reason);
    }
  }

  // ---------------------------------------------------------------------------
  // What a caller leaves alone
  // ---------------------------------------------------------------------------

  /** Device, result and execution count of every call; the slot of a call sent;
      a cancelled state. */
  ghost predicate CallKept(call: Call, call': Call) {
    && call'.device == call.device && call'.result == call.result && call'.runs == call.runs
    && (call'.slot == call.slot || call.phase.Admitted?)
    && (call.state.Cancelled? ==> call'.state.Cancelled?)
  }

  lemma CallsKept(s: System, a: Action, c: nat)
    requires ByCaller(a) && CallEnabled(s, a) && c in s.calls
    ensures c in AfterCallStep(s, a).calls && CallKept(s.calls[c], AfterCallStep(s, a).calls[c])
  {
    if a.Send? {
      SendKeeps(s, a.c, a.spawned, c);
    } else if a.SeeResult? {
      SeeResultKeeps(s, a.c, c);
    }
  }

  lemma SendKeeps(s: System, d: nat, spawned: bool, c: nat)
    requires CallEnabled(s, Send(d, spawned)) && c in s.calls
    ensures c in AfterSend(s, d, spawned).calls && CallKept(s.calls[c], AfterSend(s, d, spawned).calls[c])
  {
  }

  lemma SeeResultKeeps(s: System, d: nat, c: nat)
    requires CallEnabled(s, SeeResult(d)) && c in s.calls
    ensures c in AfterSeeResult(s, d).calls && CallKept(s.calls[c], AfterSeeResult(s, d).calls[c])
  {
  }

  lemma NewCallEmpty(s: System, a: Action, c: nat)
    requires ByCaller(a) && CallEnabled(s, a) && c !in s.calls && c in AfterCallStep(s, a).calls
    ensures AfterCallStep(s, a).calls[c].result.None?
  {
  }

  lemma WorkersKept(s: System, a: Action, w: nat)
    requires ByCaller(a) && CallEnabled(s, a)
    ensures var s' := AfterCallStep(s, a);
            && |s.workers| <= |s'.workers|
            && (w < |s.workers| ==>
                  && s'.workers[w].phase == s.workers[w].phase && s'.workers[w].alive == s.workers[w].alive
                  && s'.workers[w].taken == s.workers[w].taken)
            && (|s.workers| <= w < |s'.workers| ==> s'.workers[w].phase.Idle?)
  {
  }

  // ---------------------------------------------------------------------------
  // No fence without a cause
  // ---------------------------------------------------------------------------

  /** The call that got a device fenced. */
  ghost predicate FenceWitness(s: System, d: Device, c: nat)
    requires d in s.failed
  {
    && Replied(s, c) && s.calls[c].device == d
    && var reply := s.calls[c].phase.reply;
       match s.failed[d]
       case OpFailed(m) => s.calls[c].result == Some(FromOp(FatalError(m))) && reply == DeviceFailed(OpFailed(m))
       case Expired => reply == DeviceTimeout
       case Disconnected => reply == DeviceFailed(Disconnected) && WorkerGone(s, d)
  }

  ghost predicate FencesCaused(s: System) {
    forall d | d in s.failed :: exists c :: FenceWitness(s, d, c)
  }

  lemma GoneStays(s: System, a: Action, d: Device)
    requires Enabled(s, a) && WorkerGone(s, d)
    ensures WorkerGone(Next(s, a), d)
  {
    hide CallEnabled, WorkerEnabled, AfterCallStep, AfterWorkerStep;
    if ByCaller(a) {
      GoneStaysByCaller(s, a, d);
    } else {
      GoneStaysByWorker(s, a, d);
    }
  }

  lemma GoneStaysByCaller(s: System, a: Action, d: Device)
    requires ByCaller(a) && CallEnabled(s, a) && WorkerGone(s, d)
    ensures WorkerGone(AfterCallStep(s, a), d)
  {
  }

  lemma GoneStaysByWorker(s: System, a: Action, d: Device)
    requires !ByCaller(a) && WorkerEnabled(s, a) && WorkerGone(s, d)
    ensures WorkerGone(AfterWorkerStep(s, a), d)
  {
  }

  lemma ResultStaysByWorker(s: System, a: Action, c: nat)
    requires Inv(s) && !ByCaller(a) && WorkerEnabled(s, a) && c in s.calls
    ensures c in AfterWorkerStep(s, a).calls && AfterWorkerStep(s, a).calls[c].device == s.calls[c].device
    ensures s.calls[c].result.Some? ==> AfterWorkerStep(s, a).calls[c].result == s.calls[c].result
  {
    hide InOrder, CallGood;
    assert WorkerGood(s, a.w);
  }

  /** A delivered result stays. */
  lemma ResultStays(s: System, a: Action, c: nat)
    requires Inv(s) && Enabled(s, a) && c in s.calls
    ensures c in Next(s, a).calls && Next(s, a).calls[c].device == s.calls[c].device
    ensures s.calls[c].result.Some? ==> Next(s, a).calls[c].result == s.calls[c].result
  {
    hide Inv, CallEnabled, WorkerEnabled, AfterCallStep, AfterWorkerStep;
    if ByCaller(a) {
      CallsKept(s, a, c);
    } else {
      ResultStaysByWorker(s, a, c);
    }
  }

  lemma WitnessStays(s: System, a: Action, d: Device, c: nat)
    requires Inv(s) && Enabled(s, a) && d in s.failed && FenceWitness(s, d, c)
    ensures d in Next(s, a).failed && FenceWitness(Next(s, a), d, c)
  {
    hide Inv, Enabled, Next, WorkerGone;
    FenceStep(s, a);
    ReplyStep(s, a, c);
    ResultStays(s, a, c);
    if s.failed[d].Disconnected? { GoneStays(s, a, d); }
  }

  lemma NewWitness(s: System, a: Action, d: Device)
    requires Inv(s) && Enabled(s, a) && d !in s.failed && d in Next(s, a).failed
    ensures ByCaller(a) && FenceWitness(Next(s, a), d, a.c)
  {
    hide Inv, CallEnabled, WorkerEnabled, AfterCallStep, AfterWorkerStep, WorkerGone, RepliesIn;
    var reason := Next(s, a).failed[d];
    FenceIffCause(s, a, d, reason);
    var reply := if reason.Expired? then DeviceTimeout else DeviceFailed(reason);
    assert ReplyCause(s, a, a.c, reply);
    ReplyIffCause(s, a, a.c, reply);
    assert Replied(Next(s, a), a.c) && Next(s, a).calls[a.c].phase.reply == reply by { RepliesMeans(s, a, a.c, reply); }
    CallerIsKnown(s, a);
    ResultStays(s, a, a.c);
    if reason.Disconnected? { GoneStays(s, a, d); }
  }

  lemma CallerIsKnown(s: System, a: Action)
    requires ByCaller(a) && !a.Admit? && Enabled(s, a)
    ensures a.c in s.calls
  {
  }

  lemma RepliesMeans(s: System, a: Action, c: nat, reply: Reply)
    requires Enabled(s, a) && RepliesIn(s, a, c, reply)
    ensures Replied(Next(s, a), c) && Next(s, a).calls[c].phase.reply == reply
  {
    hide Enabled, Next;
  }

  lemma FencesCausedStep(s: System, a: Action)
    requires Inv(s) && Enabled(s, a) && FencesCaused(s)
    ensures FencesCaused(Next(s, a))
  {
    hide Inv, Enabled, Next, FenceWitness;
    forall d | d in Next(s, a).failed ensures exists c :: FenceWitness(Next(s, a), d, c) {
      if d in s.failed {
        var c :| FenceWitness(s, d, c);
        WitnessStays(s, a, d, c);
      } else {
        NewWitness(s, a, d);
      }
    }
  }

  lemma {:induction false} RunFencesCaused(s: System, actions: seq<Action>)
    requires Inv(s) && FencesCaused(s) && Runs(s, actions)
    ensures FencesCaused(Run(s, actions))
    decreases |actions|
  {
    hide Inv, Enabled, Next, FencesCaused;
    if actions != [] {
      StepInv(s, actions[0]);
      FencesCausedStep(s, actions[0]);
      RunFencesCaused(Next(s, actions[0]), actions[1..]);
    }
  }

  /** No device is fenced without a cause: at every point of every run a fenced
      device has a call that was answered a fatal error, a timeout or the loss
      of the worker, and that is the reason stored. */
  lemma NoFenceWithoutCause(actions: seq<Action>, d: Device)
    requires Runs(START, actions) && d in Run(START, actions).failed
    ensures exists c :: FenceWitness(Run(START, actions), d, c)
  {
    hide Runs, Run, Enabled, Next, FenceWitness;
    StartInv();
    RunFencesCaused(START, actions);
  }

  // ---------------------------------------------------------------------------
  // What a failure reply means
  // ---------------------------------------------------------------------------

  /** Its job will never deliver a result. */
  ghost predicate NeverDelivers(s: System, call: Call) {
    call.slot.None? || call.state.Cancelled? || Dropped(s, call)
  }

  /** A call answered `DeviceFailed(reason)` saw a fatal error with that message,
      or the fence its worker found, or nothing and never will: then the reason
      is the one the device is fenced for, or its worker is gone. */
  ghost predicate FailureGood(s: System, call: Call, reason: Reason) {
    match call.result
    case Some(FromOp(FatalError(m))) => reason == OpFailed(m)
    case Some(FromOp(_)) => false
    case Some(AlreadyFailed(r)) => reason == r
    case None =>
      && NeverDelivers(s, call)
      && ((call.device in s.failed && reason == s.failed[call.device])
          || (WorkerGone(s, call.device) && reason == Disconnected))
  }

  ghost predicate FailuresGood(s: System) {
    forall c | Replied(s, c) && s.calls[c].phase.reply.DeviceFailed? ::
      FailureGood(s, s.calls[c], s.calls[c].phase.reply.reason)
  }

  lemma NeverStaysByCaller(s: System, a: Action, c: nat)
    requires ByCaller(a) && CallEnabled(s, a) && Replied(s, c) && NeverDelivers(s, s.calls[c])
    ensures c in AfterCallStep(s, a).calls && AfterCallStep(s, a).calls[c].result == s.calls[c].result
    ensures NeverDelivers(AfterCallStep(s, a), AfterCallStep(s, a).calls[c])
  {
    hide AfterCallStep, CallEnabled;
    CallsKept(s, a, c);
    if s.calls[c].slot.Some? { WorkersKept(s, a, s.calls[c].slot.value.0); }
  }

  lemma NeverStaysByWorker(s: System, a: Action, c: nat)
    requires Inv(s) && !ByCaller(a) && WorkerEnabled(s, a) && Replied(s, c) && NeverDelivers(s, s.calls[c])
    ensures AfterWorkerStep(s, a).calls[c].result == s.calls[c].result
    ensures NeverDelivers(AfterWorkerStep(s, a), AfterWorkerStep(s, a).calls[c])
  {
    hide InOrder, ReplyGood;
    assert WorkerGood(s, a.w);
    assert CallGood(s, c);
  }

  /** A replied call that will deliver nothing stays that way. */
  lemma NeverStays(s: System, a: Action, c: nat)
    requires Inv(s) && Enabled(s, a) && Replied(s, c) && NeverDelivers(s, s.calls[c])
    ensures c in Next(s, a).calls && Next(s, a).calls[c].result == s.calls[c].result
    ensures NeverDelivers(Next(s, a), Next(s, a).calls[c])
  {
    hide Inv, CallEnabled, WorkerEnabled, AfterCallStep, AfterWorkerStep, NeverDelivers;
    ReplyStep(s, a, c);
    if ByCaller(a) {
      NeverStaysByCaller(s, a, c);
    } else {
      NeverStaysByWorker(s, a, c);
    }
  }

  lemma OldFailure(s: System, a: Action, c: nat, reason: Reason)
    requires Inv(s) && Enabled(s, a) && Replied(s, c) && FailureGood(s, s.calls[c], reason)
    ensures c in Next(s, a).calls && FailureGood(Next(s, a), Next(s, a).calls[c], reason)
  {
    hide Inv, Enabled, Next, WorkerGone, NeverDelivers;
    ResultStays(s, a, c);
    FenceStep(s, a);
    if s.calls[c].result.None? {
      NeverStays(s, a, c);
      if WorkerGone(s, s.calls[c].device) { GoneStays(s, a, s.calls[c].device); }
    }
  }

  /** The caller's own call after its step. */
  lemma NewFailureSeen(s: System, c: nat, reason: Reason)
    requires Inv(s) && Enabled(s, SeeResult(c)) && RepliesIn(s, SeeResult(c), c, DeviceFailed(reason))
    ensures FailureGood(Next(s, SeeResult(c)), Next(s, SeeResult(c)).calls[c], reason)
  {
    hide WorkerGood, ReplyGood;
  }

  lemma NewFailureLost(s: System, a: Action, reason: Reason)
    requires Inv(s) && Enabled(s, a) && (a.LoseStart? || a.LoseResult?) && RepliesIn(s, a, a.c, DeviceFailed(reason))
    ensures FailureGood(Next(s, a), Next(s, a).calls[a.c], reason)
  {
    hide WorkerGood, ReplyGood, WorkerGone;
    assert CallGood(s, a.c);
    DroppedIsGone(s, a.c);
    GoneStays(s, a, s.calls[a.c].device);
  }

  lemma NewFailureAdmitted(s: System, a: Action, reason: Reason)
    requires a.Admit? && Enabled(s, a) && RepliesIn(s, a, a.c, DeviceFailed(reason))
    ensures FailureGood(Next(s, a), Next(s, a).calls[a.c], reason)
  {
  }

  lemma NewFailureSent(s: System, a: Action, reason: Reason)
    requires Inv(s) && a.Send? && Enabled(s, a) && RepliesIn(s, a, a.c, DeviceFailed(reason))
    ensures FailureGood(Next(s, a), Next(s, a).calls[a.c], reason)
  {
    hide WorkerGood, ReplyGood;
    assert CallGood(s, a.c);
    ReplyIffCause(s, a, a.c, DeviceFailed(reason));
    GoneStays(s, a, s.calls[a.c].device);
  }

  lemma NewFailureCancelled(s: System, a: Action, reason: Reason)
    requires Inv(s) && a.ReportCancelled? && Enabled(s, a) && RepliesIn(s, a, a.c, DeviceFailed(reason))
    ensures FailureGood(Next(s, a), Next(s, a).calls[a.c], reason)
  {
    hide WorkerGood, ReplyGood;
    assert CallGood(s, a.c);
  }

  lemma NewFailure(s: System, a: Action, c: nat, reason: Reason)
    requires Inv(s) && Enabled(s, a) && RepliesIn(s, a, c, DeviceFailed(reason))
    ensures FailureGood(Next(s, a), Next(s, a).calls[c], reason)
  {
    hide Inv, CallEnabled, WorkerEnabled, AfterCallStep, AfterWorkerStep, RepliesIn, FailureGood, WorkerGone, QueueFull;
    ReplyIffCause(s, a, c, DeviceFailed(reason));
    if a.SeeResult? {
      NewFailureSeen(s, c, reason);
    } else if a.LoseStart? || a.LoseResult? {
      NewFailureLost(s, a, reason);
    } else if a.Admit? {
      NewFailureAdmitted(s, a, reason);
    } else if a.Send? {
      NewFailureSent(s, a, reason);
    } else {
      NewFailureCancelled(s, a, reason);
    }
  }

  lemma FailuresGoodStep(s: System, a: Action)
    requires Inv(s) && Enabled(s, a) && FailuresGood(s)
    ensures FailuresGood(Next(s, a))
  {
    hide Inv, Enabled, Next, FailureGood;
    var s' := Next(s, a);
    forall c | Replied(s', c) && s'.calls[c].phase.reply.DeviceFailed?
      ensures FailureGood(s', s'.calls[c], s'.calls[c].phase.reply.reason)
    {
      if Replied(s, c) {
        ReplyStep(s, a, c);
        OldFailure(s, a, c, s.calls[c].phase.reply.reason);
      } else {
        NewFailure(s, a, c, s'.calls[c].phase.reply.reason);
      }
    }
  }

  lemma {:induction false} RunFailuresGood(s: System, actions: seq<Action>)
    requires Inv(s) && FailuresGood(s) && Runs(s, actions)
    ensures FailuresGood(Run(s, actions))
    decreases |actions|
  {
    hide Inv, Enabled, Next, FailuresGood;
    if actions != [] {
      StepInv(s, actions[0]);
      FailuresGoodStep(s, actions[0]);
      RunFailuresGood(Next(s, actions[0]), actions[1..]);
    }
  }

  // ---------------------------------------------------------------------------
  // Results come from operations
  // ---------------------------------------------------------------------------

  /** How the operations of the calls ended, as the run goes. */
  ghost function Logged(s: System, a: Action, log: map<nat, OpResult>): map<nat, OpResult>
    requires Enabled(s, a)
  {
    if a.Complete? then log[s.workers[a.w].phase.call := a.result] else log
  }

  ghost function Outcomes(s: System, actions: seq<Action>, log: map<nat, OpResult>): map<nat, OpResult>
    requires Runs(s, actions)
    decreases |actions|
  {
    if actions == [] then log else Outcomes(Next(s, actions[0]), actions[1..], Logged(s, actions[0], log))
  }

  ghost predicate ResultLogged(log: map<nat, OpResult>, c: nat, result: JobResult) {
    result.FromOp? ==> c in log && log[c] == result.result
  }

  ghost predicate AllLogged(s: System, log: map<nat, OpResult>) {
    && (forall c | c in s.calls && s.calls[c].result.Some? :: ResultLogged(log, c, s.calls[c].result.value))
    && (forall w | 0 <= w < |s.workers| && s.workers[w].phase.Finishing? ::
          ResultLogged(log, s.workers[w].phase.call, s.workers[w].phase.result))
    && (forall c | c in log ::
          && c in s.calls && s.calls[c].runs == 1
          && (s.calls[c].result == Some(FromOp(log[c])) || InHand(s, c, log[c])))
  }

  /** The worker of the call is about to deliver the result. */
  ghost predicate InHand(s: System, c: nat, result: OpResult)
    requires c in s.calls
  {
    && s.calls[c].slot.Some? && s.calls[c].slot.value.0 < |s.workers|
    && var worker := s.workers[s.calls[c].slot.value.0];
       worker.alive && worker.phase == Finishing(c, FromOp(result))
  }

  lemma LoggedByCaller(s: System, a: Action, log: map<nat, OpResult>)
    requires Inv(s) && ByCaller(a) && CallEnabled(s, a) && AllLogged(s, log)
    ensures AllLogged(AfterCallStep(s, a), log)
  {
    hide WorkerGood, ReplyGood, ResultLogged, AfterCallStep, CallEnabled;
    var s' := AfterCallStep(s, a);
    forall c | c in s'.calls && s'.calls[c].result.Some?
      ensures ResultLogged(log, c, s'.calls[c].result.value)
    {
      if c in s.calls { CallsKept(s, a, c); } else { NewCallEmpty(s, a, c); }
    }
    forall w: nat | w < |s'.workers| && s'.workers[w].phase.Finishing?
      ensures ResultLogged(log, s'.workers[w].phase.call, s'.workers[w].phase.result)
    {
      WorkersKept(s, a, w);
    }
    forall c | c in log
      ensures c in s'.calls && s'.calls[c].runs == 1
      ensures s'.calls[c].result == Some(FromOp(log[c])) || InHand(s', c, log[c])
    {
      assert CallGood(s, c);
      CallsKept(s, a, c);
      if s.calls[c].slot.Some? { WorkersKept(s, a, s.calls[c].slot.value.0); }
    }
  }

  /** A worker touches its own phase and the call in its hand. */
  lemma WorkerFrame(s: System, a: Action, c: nat, w: nat)
    requires Inv(s) && !ByCaller(a) && !a.Complete? && WorkerEnabled(s, a) && w < |s.workers|
    ensures var s' := AfterWorkerStep(s, a);
            && |s'.workers| == |s.workers| && s'.calls.Keys == s.calls.Keys
            && (w != a.w ==> s'.workers[w] == s.workers[w])
            && (c in s.calls && (s.workers[a.w].phase.Idle? || s.workers[a.w].phase.call != c) ==>
                  s'.calls[c] == s.calls[c])
            && (c in s.calls ==> s'.calls[c].slot == s.calls[c].slot)
  {
    hide InOrder, CallGood;
    assert WorkerGood(s, a.w);
  }

  lemma HandStep(s: System, a: Action, log: map<nat, OpResult>)
    requires Inv(s) && !ByCaller(a) && !a.Complete? && WorkerEnabled(s, a) && !s.workers[a.w].phase.Idle?
    requires AllLogged(s, log)
    ensures var s', c := AfterWorkerStep(s, a), s.workers[a.w].phase.call;
            && c in s.calls && c in s'.calls
            && (s'.calls[c].result.Some? ==> ResultLogged(log, c, s'.calls[c].result.value))
            && (s'.workers[a.w].phase.Finishing? ==>
                  ResultLogged(log, s'.workers[a.w].phase.call, s'.workers[a.w].phase.result))
            && (c in log ==> s'.calls[c].runs == 1 && s'.calls[c].result == Some(FromOp(log[c])))
  {
    hide InOrder, CallGood;
    assert WorkerGood(s, a.w);
  }

  lemma LoggedByWorker(s: System, a: Action, log: map<nat, OpResult>)
    requires Inv(s) && !ByCaller(a) && !a.Complete? && WorkerEnabled(s, a) && AllLogged(s, log)
    ensures AllLogged(AfterWorkerStep(s, a), log)
  {
    hide CallGood, InOrder, HandGood, ResultLogged;
    var s' := AfterWorkerStep(s, a);
    assert WorkerGood(s, a.w);
    if !s.workers[a.w].phase.Idle? { HandStep(s, a, log); }
    LoggedResults(s, a, log);
    forall w: nat | w < |s'.workers| && s'.workers[w].phase.Finishing?
      ensures ResultLogged(log, s'.workers[w].phase.call, s'.workers[w].phase.result)
    {
      WorkerFrame(s, a, 0, w);
    }
  }

  lemma LoggedResults(s: System, a: Action, log: map<nat, OpResult>)
    requires Inv(s) && !ByCaller(a) && !a.Complete? && WorkerEnabled(s, a) && AllLogged(s, log)
    ensures var s' := AfterWorkerStep(s, a);
            && (forall c | c in s'.calls && s'.calls[c].result.Some? :: ResultLogged(log, c, s'.calls[c].result.value))
            && (forall c | c in log ::
                  && c in s'.calls && s'.calls[c].runs == 1
                  && (s'.calls[c].result == Some(FromOp(log[c])) || InHand(s', c, log[c])))
  {
    hide CallGood, InOrder, HandGood, ResultLogged, AfterWorkerStep;
    var s' := AfterWorkerStep(s, a);
    assert WorkerGood(s, a.w);
    if !s.workers[a.w].phase.Idle? { HandStep(s, a, log); }
    forall c | c in s'.calls && s'.calls[c].result.Some?
      ensures ResultLogged(log, c, s'.calls[c].result.value)
    {
      WorkerFrame(s, a, c, a.w);
    }
    forall c | c in log
      ensures c in s'.calls && s'.calls[c].runs == 1
      ensures s'.calls[c].result == Some(FromOp(log[c])) || InHand(s', c, log[c])
    {
      WorkerFrame(s, a, c, a.w);
      if InHand(s, c, log[c]) { WorkerFrame(s, a, c, s.calls[c].slot.value.0); }
    }
  }

  lemma LoggedByComplete(s: System, w: nat, result: OpResult, log: map<nat, OpResult>)
    requires Inv(s) && WorkerEnabled(s, Complete(w, result)) && AllLogged(s, log)
    ensures AllLogged(AfterWorkerStep(s, Complete(w, result)), log[s.workers[w].phase.call := result])
  {
    hide CallGood, InOrder;
    assert WorkerGood(s, w);
    forall v | 0 <= v < |s.workers| && v != w && s.workers[v].phase.Finishing?
      ensures s.workers[v].phase.call != s.workers[w].phase.call
    {
      assert WorkerGood(s, v);
    }
  }

  lemma LoggedStep(s: System, a: Action, log: map<nat, OpResult>)
    requires Inv(s) && Enabled(s, a) && AllLogged(s, log)
    ensures AllLogged(Next(s, a), Logged(s, a, log))
  {
    hide Inv, CallEnabled, AfterCallStep, AfterWorkerStep, AllLogged;
    if ByCaller(a) {
      LoggedByCaller(s, a, log);
    } else if a.Complete? {
      LoggedByComplete(s, a.w, a.result, log);
    } else {
      LoggedByWorker(s, a, log);
    }
  }

  lemma {:induction false} RunLogged(s: System, actions: seq<Action>, log: map<nat, OpResult>)
    requires Inv(s) && AllLogged(s, log) && Runs(s, actions)
    ensures AllLogged(Run(s, actions), Outcomes(s, actions, log))
    decreases |actions|
  {
    hide Inv, Enabled, Next, AllLogged, Logged;
    if actions != [] {
      StepInv(s, actions[0]);
      LoggedStep(s, actions[0], log);
      RunLogged(Next(s, actions[0]), actions[1..], Logged(s, actions[0], log));
    }
  }

  /** What the reply of a call tells, given how the operations ended. */
  ghost predicate ReplyTells(s: System, log: map<nat, OpResult>, c: nat, reply: Reply)
    requires c in s.calls
  {
    match reply
    case Success(v) => c in log && log[c] == Value(v)
    case OpError(r) => c in log && log[c] == r && (r.MissingDevice? || r.OtherError?)
    case DeviceFailed(reason) =>
      && s.calls[c].device in s.failed
      && (c in log ==> log[c].FatalError? && reason == OpFailed(log[c].message))
    case DeviceTimeout => s.calls[c].device in s.failed
    case DeviceBusy => c !in log && s.calls[c].runs == 0
    case SpawnFailed => c !in log && s.calls[c].runs == 0
  }

  lemma TellsFailure(s: System, log: map<nat, OpResult>, c: nat)
    requires Inv(s) && AllLogged(s, log) && FailuresGood(s) && Replied(s, c) && s.calls[c].phase.reply.DeviceFailed?
    ensures ReplyTells(s, log, c, s.calls[c].phase.reply)
  {
    hide InOrder;
    assert CallGood(s, c);
    assert s.calls[c].slot.Some? ==> WorkerGood(s, s.calls[c].slot.value.0);
  }

  lemma TellsOther(s: System, log: map<nat, OpResult>, c: nat)
    requires Inv(s) && AllLogged(s, log) && Replied(s, c) && !s.calls[c].phase.reply.DeviceFailed?
    ensures ReplyTells(s, log, c, s.calls[c].phase.reply)
  {
    hide WorkerGood;
    assert CallGood(s, c);
  }

  /** At every point of every run a reply tells the truth about the operation: a
      value or an error handed out is how the operation ended, a call told that
      its device failed had no operation end in any other way than with that
      fatal error, and a busy call had none run at all. */
  lemma RepliesTell(actions: seq<Action>, c: nat)
    requires Runs(START, actions) && Replied(Run(START, actions), c)
    ensures var s := Run(START, actions);
            && ReplyTells(s, Outcomes(START, actions, map[]), c, s.calls[c].phase.reply)
            && (s.calls[c].phase.reply.DeviceFailed? ==> FailureGood(s, s.calls[c], s.calls[c].phase.reply.reason))
  {
    hide Runs, Run, Enabled, Next, Inv, FailureGood, ReplyTells, Outcomes;
    StartInv();
    assert AllLogged(START, map[]);
    RunInv(START, actions);
    RunLogged(START, actions, map[]);
    RunFailuresGood(START, actions);
    var s, log := Run(START, actions), Outcomes(START, actions, map[]);
    if s.calls[c].phase.reply.DeviceFailed? {
      TellsFailure(s, log, c);
    } else {
      TellsOther(s, log, c);
    }
  }

  // ---------------------------------------------------------------------------
  // A job taken from the queue
  // ---------------------------------------------------------------------------

  lemma RunCons(s: System, a: Action, rest: seq<Action>)
    requires Enabled(s, a) && Runs(Next(s, a), rest)
    ensures Runs(s, [a] + rest) && Run(s, [a] + rest) == Run(Next(s, a), rest)
  {
    hide Enabled, Next;
    assert ([a] + rest)[1..] == rest;
  }

  lemma RunOne(s: System, a: Action)
    requires Enabled(s, a)
    ensures Runs(s, [a]) && Run(s, [a]) == Next(s, a)
  {
    hide Enabled, Next;
    assert [a][1..] == [];
    assert Runs(Next(s, a), []) && Run(Next(s, a), []) == Next(s, a);
  }

  /** The job of `c` begun and signalled by worker `w`. */
  ghost function Begun(s: System, w: nat, c: nat): System
    requires c in s.calls && w < |s.workers|
  {
    SetCall(SetWorker(s, w, s.workers[w].(phase := Signalled(c))), c, s.calls[c].(state := Running, started := true))
  }

  lemma BeginRun(s: System, w: nat, rest: seq<Action>)
    requires w < |s.workers| && s.workers[w].alive && s.workers[w].phase.Received?
    requires s.workers[w].phase.call in s.calls && !s.calls[s.workers[w].phase.call].state.Cancelled?
    requires Runs(Begun(s, w, s.workers[w].phase.call), rest)
    ensures var actions := [Begin(w)] + ([Signal(w)] + rest);
            Runs(s, actions) && Run(s, actions) == Run(Begun(s, w, s.workers[w].phase.call), rest)
  {
    hide Runs, Run;
    var s1 := Next(s, Begin(w));
    var s2 := Next(s1, Signal(w));
    assert s2 == Begun(s, w, s.workers[w].phase.call);
    RunCons(s1, Signal(w), rest);
    RunCons(s, Begin(w), [Signal(w)] + rest);
  }

  /** The operation of a job begun, started and ended with `r`. */
  ghost function Ended(s: System, w: nat, c: nat, r: OpResult): System
    requires c in s.calls && w < |s.workers| && s.workers[w].taken > 0
  {
    var worker := s.workers[w];
    var worker' := worker.(phase := Finishing(c, FromOp(r)), executed := worker.executed + [worker.taken - 1]);
    SetCall(SetWorker(s, w, worker'), c, s.calls[c].(runs := s.calls[c].runs + 1))
  }

  lemma ExecuteRun(s: System, w: nat, r: OpResult, rest: seq<Action>)
    requires w < |s.workers| && s.workers[w].alive && s.workers[w].phase.Signalled? && s.workers[w].taken > 0
    requires s.workers[w].phase.call in s.calls && s.workers[w].device !in s.failed
    requires Runs(Ended(s, w, s.workers[w].phase.call, r), rest)
    ensures var actions := [Check(w)] + ([Execute(w)] + ([Complete(w, r)] + rest));
            Runs(s, actions) && Run(s, actions) == Run(Ended(s, w, s.workers[w].phase.call, r), rest)
  {
    hide Runs, Run;
    var s1 := Next(s, Check(w));
    var s2 := Next(s1, Execute(w));
    var s3 := Next(s2, Complete(w, r));
    assert s3 == Ended(s, w, s.workers[w].phase.call, r);
    RunCons(s2, Complete(w, r), rest);
    RunCons(s1, Execute(w), [Complete(w, r)] + rest);
    RunCons(s, Check(w), [Execute(w)] + ([Complete(w, r)] + rest));
  }

  /** A job received before it was cancelled, on a device not fenced: the worker
      executes its operation once and hands over how it ended. */
  lemma JobExecutes(s: System, w: nat, r: OpResult)
    requires Inv(s) && w < |s.workers| && s.workers[w].alive && s.workers[w].phase.Received?
    requires s.workers[w].phase.call in s.calls && !s.calls[s.workers[w].phase.call].state.Cancelled?
    requires s.workers[w].device !in s.failed
    ensures var c := s.workers[w].phase.call;
            var rest := [Check(w)] + ([Execute(w)] + ([Complete(w, r)] + [Deliver(w)]));
            var actions := [Begin(w)] + ([Signal(w)] + rest);
            && Runs(s, actions)
            && var end := Run(s, actions);
               && c in end.calls && end.calls[c].result == Some(FromOp(r)) && end.calls[c].runs == s.calls[c].runs + 1
               && w < |end.workers| && end.workers[w].phase == Idle && end.failed == s.failed
  {
    hide Runs, Run, Inv;
    JobPositions(s, w);
    var s2 := Begun(s, w, s.workers[w].phase.call);
    var s5 := Ended(s2, w, s.workers[w].phase.call, r);
    RunOne(s5, Deliver(w));
    ExecuteRun(s2, w, r, [Deliver(w)]);
    BeginRun(s, w, [Check(w)] + ([Execute(w)] + ([Complete(w, r)] + [Deliver(w)])));
  }

  lemma JobPositions(s: System, w: nat)
    requires Inv(s) && w < |s.workers| && s.workers[w].phase.Received?
    ensures s.workers[w].taken > 0
  {
    assert WorkerGood(s, w);
  }

  /** On a fenced device it is not executed, and the fence is handed over. */
  lemma JobRefused(s: System, w: nat)
    requires w < |s.workers| && s.workers[w].alive && s.workers[w].phase.Received?
    requires s.workers[w].phase.call in s.calls && !s.calls[s.workers[w].phase.call].state.Cancelled?
    requires s.workers[w].device in s.failed
    ensures var c := s.workers[w].phase.call;
            var actions := [Begin(w)] + ([Signal(w)] + ([Check(w)] + [Deliver(w)]));
            && Runs(s, actions)
            && var end := Run(s, actions);
               && c in end.calls && end.calls[c].result == Some(AlreadyFailed(s.failed[s.workers[w].device]))
               && end.calls[c].runs == s.calls[c].runs
               && w < |end.workers| && end.workers[w].phase == Idle && end.failed == s.failed
  {
    hide Runs, Run;
    var s2 := Begun(s, w, s.workers[w].phase.call);
    var s3 := Next(s2, Check(w));
    RunOne(s3, Deliver(w));
    RunCons(s2, Check(w), [Deliver(w)]);
    BeginRun(s, w, [Check(w)] + [Deliver(w)]);
  }

  /** A cancelled job is dropped and the worker is free again. */
  lemma JobDropped(s: System, w: nat)
    requires w < |s.workers| && s.workers[w].alive && s.workers[w].phase.Received?
    requires s.workers[w].phase.call in s.calls && s.calls[s.workers[w].phase.call].state.Cancelled?
    ensures Enabled(s, Begin(w))
    ensures Next(s, Begin(w)) == s.(workers := s.workers[w := s.workers[w].(phase := Idle)])
  {
  }
}
