/** What every run of host calls keeps, from a new session on. */
module RuntimeRuns {
  import opened Prelude
  import opened Wire
  import opened Sender
  import opened Runtime
  import R = Receiver
  import Rto

  /** The bytes the input queue is charged for. */
  function QueueBytes(queue: seq<Instruction>): nat {
    if queue == [] then 0
    else
      var last := queue[|queue| - 1];
      QueueBytes(queue[..|queue| - 1])
      + (if last.bytes.Some? then |last.bytes.value| else 0)
      + (if last.control.Some? then |last.control.value.payload| else 0)
  }

  predicate EstimateInRange(e: Rto.Estimate) {
    && Rto.MINIMUM_RETRANSMIT_MILLISECONDS <= e.timeout <= Rto.MAXIMUM_RETRANSMIT_MILLISECONDS
    && e.variation <= U16_MAX && (e.smoothed.Some? ==> e.smoothed.value <= U16_MAX)
  }

  predicate Inv<S>(s: State<S>) {
    && Valid(s.local)
    && |s.local.marks| <= 2                                             // at most one unacknowledged state
    && s.queuedBytes == QueueBytes(s.queue) <= MAXIMUM_QUEUED_INPUT_BYTES
    && EstimateInRange(s.estimate)
    && (ShutdownSent(s.local) ==> (s.shutdown.LocalRequested? || s.shutdown.Complete?) && s.queue == [])
    && (s.associationDue ==> !Pending(s.local) && !ShutdownSent(s.local))
    && (s.shutdown.LocalRequested? ==> s.shutdown.transmissions <= SHUTDOWN_RETRY_LIMIT)
    && (s.lifecycle == Cancelled ==> s.queue == [])
  }

  lemma QueueBytesSnoc(queue: seq<Instruction>, last: Instruction)
    ensures QueueBytes(queue + [last]) == QueueBytes(queue)
              + (if last.bytes.Some? then |last.bytes.value| else 0)
              + (if last.control.Some? then |last.control.value.payload| else 0)
  {
    DropPrefix(queue, [last]);
  }

  lemma NewInv<S>(initial: S, now: nat)
    ensures Inv(Runtime.New(initial, now))
  {
  }

  lemma TimeoutIsPositive<S>(s: State<S>)
    requires Inv(s)
    ensures s.estimate.timeout > 0
  {
    hide Valid;
  }

  /** A new session. */
  function Begun<S>(initial: S, now: nat): (s: State<S>)
    ensures Inv(s)
  {
    NewInv(initial, now);
    Runtime.New(initial, now)
  }

  // ---- Input ----------------------------------------------------------------

  lemma EnqueuedKeepsInv<S>(s: State<S>, instruction: Instruction, bytes: nat)
    requires Inv(s) && InputRefusal(s).None?
    requires bytes == (if instruction.bytes.Some? then |instruction.bytes.value| else 0)
                      + (if instruction.control.Some? then |instruction.control.value.payload| else 0)
    ensures Inv(Enqueued(s, instruction, bytes).0)
  {
    QueueBytesSnoc(s.queue, instruction);
  }

  lemma CoalescedBytes(queue: seq<Instruction>, viewport: Viewport)
    ensures QueueBytes(Coalesced(queue, viewport)) == QueueBytes(queue)
  {
    if queue != [] && IsResize(queue[|queue| - 1]) {
      QueueBytesSnoc(queue[..|queue| - 1], queue[|queue| - 1].(viewport := Some(viewport)));
    } else {
      QueueBytesSnoc(queue, Resize(viewport.columns, viewport.rows));
    }
  }

  // ---- Polling --------------------------------------------------------------

  /** A queued send only ever happens while shutdown is unsent, so it is a fresh state, never a shutdown answer. */
  lemma QueuedSendIsFresh<S>(s: State<S>, now: nat)
    requires Inv(s) && Choose(s, now) == SendQueued
    ensures !ShutdownSent(s.local) && !Pending(s.local)
    ensures !(s.peerAckDue && ShutdownAcknowledged(s.local))
  {
  }

  /** What sending `queue` as `target` does to a sender with nothing pending. */
  lemma FreshStateIsSound(local: Sender, queue: seq<Instruction>, target: u64, remote: u64)
    requires Valid(local) && !Pending(local) && target > Back(local).id
             && (target < local.next || target == SHUTDOWN_STATE)
    ensures var sent := Sent(local, queue, target);
            && Valid(sent) && |sent.marks| == 2 && Back(sent).id == target
            && Carries(sent, FreshUpdate(local, queue, target, remote))
  {
    SendIsSound(local, queue, target, remote);
    SentIsValid(local, queue, target);
  }

  lemma BuildIsSound<S>(s: State<S>, encodes: bool)
    requires Inv(s) && !ShutdownSent(s.local) && !Pending(s.local) && Build(s, encodes).Ok?
    ensures var (local, update) := Build(s, encodes).value;
            var target := if ShutdownUnsent(s) then SHUTDOWN_STATE else s.local.next;
            && Valid(local) && |local.marks| == 2
            && local.log == s.local.log + s.queue && Back(local).id == target
            && update == FreshUpdate(s.local, s.queue, target, s.remote.latest) && Carries(local, update)
            && (ShutdownSent(local) <==> ShutdownUnsent(s))
            && local.next == (if ShutdownUnsent(s) then s.local.next else s.local.next + 1)
  {
    hide Ordered, Agree, Monotone, Carries, Thinned;
    if ShutdownUnsent(s) {
      FreshStateIsSound(s.local, s.queue, SHUTDOWN_STATE, s.remote.latest);
    } else {
      BumpedIsValid(s.local);
      FreshStateIsSound(s.local.(next := s.local.next + 1), s.queue, s.local.next, s.remote.latest);
    }
  }

  /** What a send leaves behind besides the sender and the queue. */
  lemma SendingKeepsInv<S>(s: State<S>, now: nat, update: StateUpdate, counted: bool)
    requires Inv(s) && !s.associationDue && s.shutdown != Complete(TimedOut)
    requires s.shutdown.LocalRequested? && counted ==> s.peerAckDue || s.shutdown.transmissions < SHUTDOWN_RETRY_LIMIT
    requires s.shutdown.Complete? ==> !s.peerAckDue
    ensures Inv(Sending(s, now, update, counted).0)
  {
  }

  lemma ContinueKeepsInv<S>(s: State<S>, now: nat, encodes: bool)
    requires Inv(s) && !s.associationDue && !s.shutdown.Complete? && Ending(s, now).None? && s.lifecycle == Running
    ensures Inv(Continue(s, now, encodes).0)
  {
    match Choose(s, now) {
      case SendQueued =>
        QueuedSendIsFresh(s, now);
        var drained := s.(queue := [], queuedBytes := 0, ackDue := false);
        assert Inv(drained);
        if Build(s, encodes).Ok? {
          BuildIsSound(s, encodes);
          SendingKeepsInv(drained.(local := Build(s, encodes).value.0), now, Build(s, encodes).value.1, true);
        }
      case Resend => SendingKeepsInv(s, now, Retransmission(s.local, s.remote.latest), true);
      case SendAck => SendingKeepsInv(s, now, Heartbeat(s.local, s.remote.latest), false);
      case Wait =>
    }
  }

  lemma PollPreludeKeepsInv<S>(s: State<S>, now: nat)
    requires Inv(s)
    ensures Inv(Associated(s, now).0) && Inv(NoticeSilence(s, now).0)
  {
  }

  lemma ProceedKeepsInv<S>(s: State<S>, collected: seq<Effect>, now: nat, encodes: bool)
    requires Inv(s) && !s.associationDue && !s.shutdown.Complete? && s.lifecycle == Running
    ensures Inv(Proceed(s, collected, now, encodes).0)
  {
    hide Continue;
    if Ending(s, now).None? {
      PollPreludeKeepsInv(s, now);
      ContinueKeepsInv(NoticeSilence(s, now).0, now, encodes);
    } else {
      CompletingKeepsInv(s, Ending(s, now).value);
    }
  }

  lemma PollKeepsInv<S>(s: State<S>, now: nat, encoding: Encoding)
    requires Inv(s)
    ensures Inv(Poll(s, now, encoding).0)
  {
    hide Proceed;
    if Works(s, encoding) {
      PollPreludeKeepsInv(s, now);
      ProceedKeepsInv(Associated(s, now).0, Associated(s, now).1, now, encoding.main);
    }
  }

  lemma CompletingKeepsInv<S>(s: State<S>, outcome: Outcome)
    requires Inv(s)
    ensures Inv(s.(shutdown := Complete(outcome)))
  {
  }

  // ---- Receiving ------------------------------------------------------------

  lemma HearKeepsInv<S>(s: State<S>, now: nat, echoed: u16)
    requires Inv(s)
    ensures Inv(Hear(s, now, echoed).0)
  {
    hide Ordered, Agree, Monotone, QueueBytes, RoundTrip;
  }

  lemma AcknowledgedKeepsInv<S>(s: State<S>, id: u64)
    requires Inv(s)
    ensures Inv(s.(local := Acknowledged(s.local, id)))
    ensures Acknowledged(s.local, id).log == s.local.log && Acknowledged(s.local, id).next == s.local.next
    ensures ShutdownSent(Acknowledged(s.local, id)) <==> ShutdownSent(s.local)
  {
    AcknowledgedIsValid(s.local, id);
  }

  lemma NotedKeepsInv<S>(s: State<S>, advances: bool, target: u64)
    requires Inv(s)
    ensures Inv(NotePeerShutdown(s.(ackDue := s.ackDue || advances), target))
  {
  }

  /** The state a complete update leaves once its acknowledgement and its content have been taken in. */
  function Ingested<S>(rules: R.Rules<S>, s: State<S>, u: StateUpdate): State<S> {
    s.(local := Acknowledged(s.local, u.acknowledged), remote := R.Accept(rules, s.remote, u).0)
  }

  lemma IngestedKeepsInv<S>(rules: R.Rules<S>, s: State<S>, u: StateUpdate)
    requires Inv(s)
    ensures Inv(Ingested(rules, s, u))
  {
    AcknowledgedKeepsInv(s, u.acknowledged);
  }

  lemma ReceiveKeepsInv<S>(rules: R.Rules<S>, s: State<S>, datagram: Datagram, now: nat)
    requires Inv(s)
    ensures Inv(Receive(rules, s, datagram, now).0)
  {
    match datagram {
      case Noise =>
      case Bare(echoed) => HearKeepsInv(s, now, echoed);
      case Full(echoed, u) =>
        IngestedKeepsInv(rules, s, u);
        HearKeepsInv(Ingested(rules, s, u), now, echoed);
        var outcome := R.Accept(rules, s.remote, u).1;
        if outcome.Ok? {
          NotedKeepsInv(Hear(Ingested(rules, s, u), now, echoed).0, outcome.value.0, outcome.value.1.target);
        }
    }
  }

  // ---- Runs -----------------------------------------------------------------

  lemma InputKeepsInv<S>(s: State<S>, bytes: seq<byte>, control: SessionControl, negotiated: bool,
                         columns: u16, rows: u16, blank: S)
    requires Inv(s)
    ensures Inv(QueueInput(s, bytes).0) && Inv(QueueControl(s, control, negotiated).0)
    ensures Inv(QueueResize(s, columns, rows, blank))
  {
    if InputRefusal(s).None? {
      EnqueuedKeepsInv(s, HostBytes(bytes), |bytes|);
      EnqueuedKeepsInv(s, Control(control), |control.payload|);
      CoalescedBytes(s.queue, Viewport(columns, rows));
    }
  }

  lemma LifecycleKeepsInv<S>(s: State<S>, now: nat)
    requires Inv(s)
    ensures Inv(Pause(s).0) && Inv(Resume(s, now).0) && Inv(Rebound(s).0)
  {
  }

  lemma EndingsKeepInv<S>(s: State<S>, now: nat)
    requires Inv(s)
    ensures Inv(Cancel(s).0) && Inv(RequestShutdown(s, now).0)
  {
  }

  lemma InvIsValid<S>(s: State<S>)
    requires Inv(s)
    ensures Valid(s.local)
  {
    hide Valid;
  }

  lemma CallKeepsInv<S>(rules: R.Rules<S>, s: State<S>, event: Event<S>)
    requires Inv(s) && Valid(s.local) && !event.PollAt? && !event.Datagrams?
    ensures Inv(Step(rules, s, event).0)
  {
    hide Inv, Valid, QueueInput, QueueControl, QueueResize, RequestShutdown, Pause, Cancel, Resume, Rebound;
    LifecycleKeepsInv(s, 0);
    match event {
      case Input(bytes) => InputKeepsInv(s, bytes, SessionControl(0, []), false, 0, 0, s.remote.delivered);
      case ControlInput(control, negotiated) => InputKeepsInv(s, [], control, negotiated, 0, 0, s.remote.delivered);
      case ResizeInput(columns, rows, blank) =>
        InputKeepsInv(s, [], SessionControl(0, []), false, columns, rows, blank);
      case ShutdownAt(now) => EndingsKeepInv(s, now);
      case CancelNow => EndingsKeepInv(s, 0);
      case ResumeAt(now) => LifecycleKeepsInv(s, now);
      case _ =>
    }
  }

  lemma StepKeepsInv<S>(rules: R.Rules<S>, s: State<S>, event: Event<S>)
    requires Inv(s)
    ensures Inv(Step(rules, s, event).0)
  {
    InvIsValid(s);
    hide Inv, Valid, Poll, Receive;
    match event {
      case PollAt(now, encoding) => PollKeepsInv(s, now, encoding);
      case Datagrams(datagram, now) => ReceiveKeepsInv(rules, s, datagram, now);
      case _ => CallKeepsInv(rules, s, event);
    }
  }

  /** The session after a run of host calls, and every effect they returned. */
  function RunAll<S>(rules: R.Rules<S>, start: State<S>, events: seq<Event<S>>): (r: (State<S>, seq<Effect>))
    requires Inv(start)
    ensures Inv(r.0)
    decreases |events|
  {
    if events == [] then (start, [])
    else
      var (before, effects) := RunAll(rules, start, events[..|events| - 1]);
      StepKeepsInv(rules, before, events[|events| - 1]);
      var (next, more) := Step(rules, before, events[|events| - 1]);
      (next, effects + more)
  }
}
