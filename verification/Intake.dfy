/** What the host hands in is taken exactly under the stated conditions, and what it asks for takes effect. */
module Intake {
  import opened Prelude
  import opened Wire
  import opened Sender
  import opened Runtime
  import opened RuntimeRuns
  import opened InputQueue
  import R = Receiver
  import Rto
  import Shutdown
  import Timer

  const MEBIBYTE := 1_048_576

  // ---- Input ----------------------------------------------------------------

  /** Why the session takes no input at all, if so: what keeps it from running first, then a shutdown. */
  function Refusal<S>(s: State<S>): Option<RuntimeError> {
    if s.lifecycle == Paused then Some(SessionPaused)
    else if s.lifecycle == Cancelled then Some(SessionCancelled)
    else if s.shutdown != Open then Some(ShutdownInProgress)
    else None
  }

  /** The one item added is the last, what it is charged is added to the queue's bytes, and nothing else moved. */
  ghost predicate TakesOne<S>(s: State<S>, next: State<S>, item: Instruction, bytes: nat) {
    && |next.queue| == |s.queue| + 1 && next.queue[|s.queue|] == item
    && (forall k :: 0 <= k < |s.queue| ==> next.queue[k] == s.queue[k])
    && QueueBytes(next.queue) == QueueBytes(s.queue) + bytes == next.queuedBytes
    && next == s.(queue := next.queue, queuedBytes := next.queuedBytes)
  }

  /**
   Bytes are taken exactly when the session runs, no shutdown has been asked for or arrived, and
   they fit beside what is queued. They are then one item at the end of the queue.
   */
  lemma QueueInputIff<S>(s: State<S>, bytes: seq<byte>)
    requires Inv(s)
    ensures var (next, r) := QueueInput(s, bytes);
            var fits := QueueBytes(s.queue) + |bytes| <= MEBIBYTE;
            && (r.Ok? <==> s.lifecycle == Running && s.shutdown == Open && fits)
            && (r.Ok? ==> TakesOne(s, next, Instruction(Some(bytes), None, None, None), |bytes|))
            && (r.Err? ==> next == s && r.error == if Refusal(s).Some? then Refusal(s).value else InputQueueFull)
  {
    QueueBytesSnoc(s.queue, HostBytes(bytes));
    hide Valid;
  }

  /** The same for a control, which must have been negotiated; that is looked at before the space. */
  lemma QueueControlIff<S>(s: State<S>, control: SessionControl, negotiated: bool)
    requires Inv(s)
    ensures var (next, r) := QueueControl(s, control, negotiated);
            var fits := QueueBytes(s.queue) + |control.payload| <= MEBIBYTE;
            && (r.Ok? <==> s.lifecycle == Running && s.shutdown == Open && negotiated && fits)
            && (r.Ok? ==> TakesOne(s, next, Instruction(None, None, None, Some(control)), |control.payload|))
            && (r.Err? ==> next == s
                           && r.error == if Refusal(s).Some? then Refusal(s).value
                                         else if !negotiated then CapabilityNotNegotiated else InputQueueFull)
  {
    QueueBytesSnoc(s.queue, Control(control));
    hide Valid;
  }

  /** A resize is only ever dropped for the state of the session, never for space, and is then the last thing queued. */
  lemma QueueResizeIff<S>(s: State<S>, columns: u16, rows: u16, blank: S)
    requires Inv(s)
    ensures var next := QueueResize(s, columns, rows, blank);
            if s.lifecycle == Running && s.shutdown == Open then
              && next.queue != [] && QueueBytes(next.queue) == QueueBytes(s.queue)
              && next.queue[|next.queue| - 1].viewport == Some(Viewport(columns, rows))
              && |next.queue| == |s.queue| + (if s.queue != [] && IsResize(s.queue[|s.queue| - 1]) then 0 else 1)
            else next == s
  {
    CoalescedBytes(s.queue, Viewport(columns, rows));
    CoalescedEnds(s.queue, Viewport(columns, rows));
    hide Coalesced, Inv, QueueBytes, R.Rebaselined;
  }

  lemma CoalescedEnds(queue: seq<Instruction>, viewport: Viewport)
    ensures var next := Coalesced(queue, viewport);
            && next != [] && next[|next| - 1].viewport == Some(viewport)
            && |next| == |queue| + (if queue != [] && IsResize(queue[|queue| - 1]) then 0 else 1)
  {
  }

  /** Once a peer's shutdown has arrived in an open session, nothing more is taken. */
  lemma PeerShutdownClosesInput<S>(rules: R.Rules<S>, s: State<S>, echoed: u16, u: StateUpdate, now: nat,
                                   bytes: seq<byte>)
    requires Inv(s) && s.lifecycle == Running && u.target == SHUTDOWN_STATE && R.Accept(rules, s.remote, u).1.Ok?
    ensures var next := Receive(rules, s, Full(echoed, u), now).0;
            && next.peerAckDue && next.shutdown != Open
            && QueueInput(next, bytes).1 == Err(ShutdownInProgress)
            && (s.shutdown != Open ==> next.shutdown == s.shutdown)
  {
    R.TargetIsKept(rules, s.remote, u);
    hide R.Accept, Acknowledged, Rto.Sampled, HostEffects, Inv;
  }

  // ---- Round trips ----------------------------------------------------------

  /** The sixteen-bit stamp of a moment. */
  function Stamp(at: nat): u16 {
    at % 65_536
  }

  /** An echoed stamp measures the time since it was made, up to multiples of 65,536 milliseconds. */
  lemma RoundTripIsMeasured(sent: nat, now: nat)
    requires sent <= now
    ensures RoundTrip(now, Stamp(sent)) == (now - sent) % 65_536
    ensures now - sent < 65_536 ==> RoundTrip(now, Stamp(sent)) == now - sent
  {
    var laps := now / 65_536 - sent / 65_536;
    assert now - sent == laps * 65_536 + (now % 65_536 - sent % 65_536);
    WholeLaps(now % 65_536 - sent % 65_536, laps);
  }

  lemma WholeLaps(rest: int, laps: int)
    ensures (rest + laps * 65_536) % 65_536 == rest % 65_536
  {
  }

  /**
   An authenticated packet is noted with its time, reported if the session was not connected, and its
   echoed stamp is taken as a sample of the round trip exactly when it is one and at most 30 s old.
   */
  lemma HearingSamplesIff<S>(s: State<S>, sent: nat, now: nat)
    requires sent <= now < sent + 65_536
    ensures var (next, effects) := Hear(s, now, Stamp(sent));
            var sampled := Stamp(sent) != 65_535 && now - sent <= 30_000;
            && next.lastReceive == now && next.connection == Connected
            && next.roundTrip == (if sampled then Some(now - sent) else s.roundTrip)
            && next.estimate == (if sampled then Rto.Sampled(s.estimate, now - sent) else s.estimate)
            && (ConnectionStateChanged(Connected) in effects <==> s.connection != Connected)
            && (forall k :: 0 <= k < |effects| ==>
                effects[k] in {ConnectionStateChanged(Connected), RoundTripEstimate(now - sent)})
            && (sampled && s.roundTrip != Some(now - sent) <==> RoundTripEstimate(now - sent) in effects)
  {
    RoundTripIsMeasured(sent, now);
    hide Rto.Sampled, RoundTrip;
    var (next, effects) := Hear(s, now, Stamp(sent));
    if s.connection != Connected { assert effects[0] == ConnectionStateChanged(Connected); }
    if Stamp(sent) != 65_535 && now - sent <= 30_000 && s.roundTrip != Some(now - sent) {
      assert effects[|effects| - 1] == RoundTripEstimate(now - sent);
    }
  }

  // ---- Probing --------------------------------------------------------------

  /** After a rebind or a resume a session that is not over is due at once. */
  lemma RestartProbes<S>(s: State<S>, next: State<S>, now: nat, later: nat)
    requires Inv(s) && s.lifecycle != Cancelled && !s.shutdown.Complete?
    requires next == Resume(s, now).0 || (next == Rebound(s).0 && s.lifecycle == Running)
    ensures Inv(next) && Valid(next.local)
    ensures MillisecondsUntilNextPoll(next, later) == 0
    ensures Timer.Emits(next, later) <==> !LosesInput(next, later, WORKS)
    ensures next == Resume(s, now).0 ==> next.lifecycle == Running && next.lastReceive == now
  {
    LifecycleKeepsInv(s, now);
    InvIsValid(next);
    hide Inv, Valid;
    assert next.estimate.timeout > 0 by { TimeoutIsPositive(next); }
    Timer.EmitsIff(next, later);
    hide LosesInput;
  }

  /** A session that is paused or cancelled is left alone by polls and datagrams, and a cancelled one by everything. */
  lemma StoppedStaysStopped<S>(rules: R.Rules<S>, s: State<S>, event: Event<S>)
    requires Inv(s) && s.lifecycle != Running
    ensures Valid(s.local)
    ensures s.lifecycle == Cancelled || event.PollAt? || event.Datagrams? || event.Input? || event.ControlInput?
            || event.ResizeInput? || event.ShutdownAt? ==>
              Step(rules, s, event) == (s, []) || event == CancelNow
    ensures s.lifecycle == Cancelled ==> Step(rules, s, event) == (s, [])
  {
    InvIsValid(s);
    hide Inv, Valid;
  }

  /**
   What a session that does not run is asked for is refused by name; running, it grants a shutdown
   however often asked.
   */
  lemma StoppedRefuses<S>(rules: R.Rules<S>, s: State<S>, datagram: Datagram, now: nat)
    ensures s.lifecycle == Paused ==> Receive(rules, s, datagram, now).1 == Err(SessionPaused)
                                      && RequestShutdown(s, now).1 == Err(SessionPaused)
    ensures s.lifecycle == Cancelled ==> Receive(rules, s, datagram, now).1 == Err(SessionCancelled)
                                         && RequestShutdown(s, now).1 == Err(SessionCancelled)
    ensures s.lifecycle == Running ==>
              && RequestShutdown(s, now).1.Ok?
              && (s.shutdown != Open ==> RequestShutdown(s, now).0 == s)
              && Receive(rules, s, Noise, now) == (s, Err(Rejected))
  {
    hide R.Accept, Acknowledged, Rto.Sampled, HostEffects;
  }

  /** Cancelling drops what is queued and keeps everything else; pausing keeps even that. */
  lemma StoppingKeeps<S>(s: State<S>)
    requires s.lifecycle == Running
    ensures Pause(s).0 == s.(lifecycle := Paused)
    ensures Cancel(s).0 == s.(lifecycle := Cancelled, queue := [], queuedBytes := 0)
  {
  }
}
