/** The runtime object the host calls: fields updated in place, step by step as `Runtime` says. */
module RuntimeObject {
  import opened Prelude
  import opened Wire
  import opened Sender
  import opened Runtime
  import opened RuntimeRuns
  import R = Receiver
  import Rto
  import Session

  predicate IsSound<S>(s: State<S>) {
    Valid(s.local)
  }

  /** The host effects of a delivered batch, collected instruction by instruction. */
  method CollectHostEffects(batch: seq<Instruction>) returns (effects: seq<Effect>)
    ensures effects == HostEffects(batch)
  {
    effects := [];
    assert batch[..0] == [];
    for i := 0 to |batch|
      invariant effects == HostEffects(batch[..i])
    {
      var instruction := batch[i];
      assert batch[..i + 1][..i] == batch[..i];
      var more: seq<Effect> := [];
      if instruction.bytes.Some? {
        more := more + [WriteTerminal(instruction.bytes.value)];
      }
      if instruction.viewport.Some? && instruction.viewport.value.columns <= U16_MAX
        && instruction.viewport.value.rows <= U16_MAX {
        more := more + [ResizeTerminal(instruction.viewport.value)];
      }
      if instruction.marker.Some? {
        more := more + [AcknowledgePrediction(instruction.marker.value)];
      }
      if instruction.control.Some? {
        more := more + [RemoteSessionControl(instruction.control.value)];
      }
      assert more == InstructionEffects(instruction);
      effects := effects + more;
    }
    assert batch[..|batch|] == batch;
  }

  class SessionRuntime<S(!new)> {
    const protocol: Session.ClientProtocol<S>
    const estimator: Rto.RoundTripEstimator
    var queuedInstructions: seq<Instruction>
    var queuedInputBytes: nat
    var lastSend: Option<nat>
    var lastReceive: nat
    var roundTripMilliseconds: Option<u16>
    var associationDue: bool
    var acknowledgementDue: bool
    var connectionState: Connection
    var lifecycle: Lifecycle
    var udpBindingGeneration: u64
    var shutdown: ShutdownState
    var peerShutdownAcknowledgementDue: bool

    ghost function Value(): State<S>
      reads this, protocol, estimator
    {
      State(protocol.Local(), protocol.Remote(), queuedInstructions, queuedInputBytes, lastSend, lastReceive,
            estimator.Value(), roundTripMilliseconds, associationDue, acknowledgementDue, connectionState, lifecycle,
            udpBindingGeneration, shutdown, peerShutdownAcknowledgementDue)
    }

    ghost predicate Valid()
      reads this, protocol, estimator
    {
      protocol.Valid() && Inv(Value())
    }

    constructor (rules: R.Rules<S>, initial: S, now: nat)
      ensures Valid() && fresh(protocol) && fresh(estimator)
      ensures protocol.rules == rules && Value() == Runtime.New(initial, now)
    {
      protocol := new Session.ClientProtocol(rules, initial);
      estimator := new Rto.RoundTripEstimator();
      queuedInstructions, queuedInputBytes := [], 0;
      lastSend, lastReceive, roundTripMilliseconds := None, now, None;
      associationDue, acknowledgementDue, connectionState, lifecycle := true, false, Connecting, Running;
      udpBindingGeneration, shutdown, peerShutdownAcknowledgementDue := 0, Open, false;
      new;
      NewInv(initial, now);
    }

    // ---- Input --------------------------------------------------------------

    method EnsureAcceptingInput() returns (r: Option<RuntimeError>)
      ensures r == InputRefusal(Value())
    {
      if lifecycle == Paused { return Some(SessionPaused); }
      if lifecycle == Cancelled { return Some(SessionCancelled); }
      return if shutdown != Open then Some(ShutdownInProgress) else None;
    }

    method QueueInput(bytes: seq<byte>) returns (r: Result<(), RuntimeError>)
      requires Valid()
      modifies this
      ensures Valid() && (Value(), r) == Runtime.QueueInput(old(Value()), bytes)
    {
      hide Inv, Session.Trimmed, Session.Untrimmed;
      InputKeepsInv(Value(), bytes, SessionControl(0, []), false, 0, 0, Value().remote.delivered);
      var refusal := EnsureAcceptingInput();
      if refusal.Some? { return Err(refusal.value); }
      var newSize := queuedInputBytes + |bytes|;
      if newSize > MAXIMUM_QUEUED_INPUT_BYTES { return Err(InputQueueFull); }
      queuedInputBytes := newSize;
      queuedInstructions := queuedInstructions + [HostBytes(bytes)];
      return Ok(());
    }

    method QueueSessionControl(control: SessionControl, negotiated: bool) returns (r: Result<(), RuntimeError>)
      requires Valid()
      modifies this
      ensures Valid() && (Value(), r) == QueueControl(old(Value()), control, negotiated)
    {
      hide Inv, Session.Trimmed, Session.Untrimmed;
      InputKeepsInv(Value(), [], control, negotiated, 0, 0, Value().remote.delivered);
      var refusal := EnsureAcceptingInput();
      if refusal.Some? { return Err(refusal.value); }
      if !negotiated { return Err(CapabilityNotNegotiated); }
      var newSize := queuedInputBytes + |control.payload|;
      if newSize > MAXIMUM_QUEUED_INPUT_BYTES { return Err(InputQueueFull); }
      queuedInputBytes := newSize;
      queuedInstructions := queuedInstructions + [Control(control)];
      return Ok(());
    }

    method QueueResize(columns: u16, rows: u16, blank: S)
      requires Valid()
      modifies this, protocol
      ensures Valid() && Value() == Runtime.QueueResize(old(Value()), columns, rows, blank)
    {
      hide Inv, Session.Trimmed, Session.Untrimmed;
      InputKeepsInv(Value(), [], SessionControl(0, []), false, columns, rows, blank);
      if lifecycle != Running || shutdown != Open { return; }
      protocol.SetInitialRemote(blank);
      var last := |queuedInstructions| - 1;
      if 0 <= last && IsResize(queuedInstructions[last]) {
        queuedInstructions := queuedInstructions[..last]
          + [queuedInstructions[last].(viewport := Some(Viewport(columns, rows)))];
      } else {
        queuedInstructions := queuedInstructions + [Resize(columns, rows)];
      }
    }

    // ---- Lifecycle ----------------------------------------------------------

    method Pause() returns (effects: seq<Effect>)
      requires Valid()
      modifies this
      ensures Valid() && (Value(), effects) == Runtime.Pause(old(Value()))
    {
      hide Inv, Session.Trimmed, Session.Untrimmed;
      LifecycleKeepsInv(Value(), 0);
      if lifecycle != Running { return []; }
      lifecycle := Paused;
      return [LifecycleChanged(Paused)];
    }

    method Cancel() returns (effects: seq<Effect>)
      requires Valid()
      modifies this
      ensures Valid() && (Value(), effects) == Runtime.Cancel(old(Value()))
    {
      hide Inv, Session.Trimmed, Session.Untrimmed;
      EndingsKeepInv(Value(), 0);
      if lifecycle == Cancelled { return []; }
      lifecycle := Cancelled;
      queuedInstructions, queuedInputBytes := [], 0;
      return [LifecycleChanged(Cancelled)];
    }

    method RequestShutdown(now: nat) returns (r: Result<(), RuntimeError>)
      requires Valid()
      modifies this
      ensures Valid() && (Value(), r) == Runtime.RequestShutdown(old(Value()), now)
    {
      hide Inv, Session.Trimmed, Session.Untrimmed;
      EndingsKeepInv(Value(), now);
      if lifecycle == Paused { return Err(SessionPaused); }
      if lifecycle == Cancelled { return Err(SessionCancelled); }
      if shutdown == Open { shutdown := LocalRequested(now, 0); }
      return Ok(());
    }

    method NotifyUdpRebound() returns (effects: seq<Effect>)
      requires Valid()
      modifies this
      ensures Valid() && (Value(), effects) == Rebound(old(Value()))
    {
      hide Inv, Session.Trimmed, Session.Untrimmed;
      LifecycleKeepsInv(Value(), 0);
      if lifecycle == Cancelled { return []; }
      udpBindingGeneration := Min(udpBindingGeneration + 1, U64_MAX);
      lastSend := None;
      return [UdpBindingChanged(udpBindingGeneration)];
    }

    method ResumeWithActions(now: nat) returns (effects: seq<Effect>)
      requires Valid()
      modifies this
      ensures Valid() && (Value(), effects) == Resume(old(Value()), now)
    {
      hide Inv, Session.Trimmed, Session.Untrimmed;
      LifecycleKeepsInv(Value(), now);
      if lifecycle == Cancelled { return []; }
      var wasPaused := lifecycle == Paused;
      lifecycle, lastReceive, lastSend := Running, now, None;
      return if wasPaused then [LifecycleChanged(Running)] else [];
    }

    // ---- Receiving ----------------------------------------------------------

    method RecordRoundTripSample(milliseconds: u16) returns (effects: seq<Effect>)
      requires EstimateInRange(estimator.Value())
      modifies this`roundTripMilliseconds, estimator
      ensures Value()
              == old(Value()).(estimate := Rto.Sampled(old(Value()).estimate, milliseconds),
                               roundTrip := Some(milliseconds))
      ensures effects == if old(roundTripMilliseconds) == Some(milliseconds) then []
              else [RoundTripEstimate(milliseconds)]
    {
      estimator.Update(milliseconds);
      if roundTripMilliseconds == Some(milliseconds) { return []; }
      roundTripMilliseconds := Some(milliseconds);
      return [RoundTripEstimate(milliseconds)];
    }

    /** An authenticated packet arrived. */
    method HearServer(now: nat, echoed: u16) returns (effects: seq<Effect>)
      requires EstimateInRange(estimator.Value())
      modifies this`lastReceive, this`connectionState, this`roundTripMilliseconds, estimator
      ensures Value() == Hear(old(Value()), now, echoed).0
      ensures effects == Hear(old(Value()), now, echoed).1
    {
      hide Session.Untrimmed, Rto.Sampled, RoundTrip;
      lastReceive := now;
      effects := [];
      if connectionState != Connected {
        connectionState := Connected;
        effects := [ConnectionStateChanged(Connected)];
      }
      if echoed != U16_MAX {
        var elapsed := RoundTrip(now, echoed);
        if elapsed <= MAXIMUM_SAMPLE_MILLISECONDS {
          var more := RecordRoundTripSample(elapsed);
          effects := effects + more;
        }
      }
    }

    /** A complete update, once its packet has been authenticated. */
    method TakeUpdate(echoed: u16, update: StateUpdate, now: nat) returns (r: Result<seq<Effect>, RuntimeError>)
      requires protocol.Valid() && EstimateInRange(estimator.Value()) && lifecycle == Running
      modifies this, protocol, estimator
      ensures protocol.Valid()
      ensures Value() == Receive(protocol.rules, old(Value()), Full(echoed, update), now).0
      ensures r == Receive(protocol.rules, old(Value()), Full(echoed, update), now).1
    {
      hide Session.Trimmed, Session.Untrimmed, R.Accept, Acknowledged, Hear, HostEffects;
      var outcome := protocol.Ingest(update);
      if outcome.Err? { return Err(RuntimeError.Session(outcome.error)); }
      var effects := HearServer(now, echoed);
      var (advances, delivered) := outcome.value;
      acknowledgementDue := acknowledgementDue || advances;
      if delivered.target == U64_MAX {
        peerShutdownAcknowledgementDue := true;
        if shutdown == Open { shutdown := PeerAsked; }
      }
      if !advances {
        assert effects + [] == effects;
        return Ok(effects);
      }
      var more := CollectHostEffects(delivered.delta);
      return Ok(effects + ([RemoteStateAdvanced(delivered.target)] + more));
    }

    /** What the transport makes of a datagram is the argument; the rest of `receive_datagram` is here. */
    method ReceiveDatagram(datagram: Datagram, now: nat) returns (r: Result<seq<Effect>, RuntimeError>)
      requires Valid()
      modifies this, protocol, estimator
      ensures Valid()
      ensures Value() == Receive(protocol.rules, old(Value()), datagram, now).0
      ensures r == Receive(protocol.rules, old(Value()), datagram, now).1
    {
      ReceiveKeepsInv(protocol.rules, Value(), datagram, now);
      assert EstimateInRange(estimator.Value());
      hide Inv, Session.Trimmed, Session.Untrimmed, R.Accept, Acknowledged, Hear, HostEffects;
      if lifecycle == Paused { return Err(SessionPaused); }
      if lifecycle == Cancelled { return Err(SessionCancelled); }
      match datagram {
        case Noise => return Err(Rejected);
        case Bare(echoed) =>
          var effects := HearServer(now, echoed);
          return Ok(effects);
        case Full(echoed, update) =>
          hide Receive;
          r := TakeUpdate(echoed, update, now);
      }
    }

    // ---- Polling ------------------------------------------------------------

    predicate IsShutdownTimedOut(now: nat)
      reads this
    {
      shutdown.LocalRequested?
      && (shutdown.transmissions >= SHUTDOWN_RETRY_LIMIT
          || Elapsed(now, shutdown.startedAt) >= SHUTDOWN_TIMEOUT_MILLISECONDS)
    }

    method RecordShutdownTransmission()
      modifies this`shutdown
      ensures shutdown == CountTransmission(old(shutdown))
    {
      if shutdown.LocalRequested? {
        shutdown := shutdown.(transmissions := Min(shutdown.transmissions + 1, 255));
      }
    }

    method CompletePeerShutdownAfterAck() returns (effects: seq<Effect>)
      modifies this`shutdown, this`peerShutdownAcknowledgementDue
      ensures Value() == AnswerPeer(old(Value())).0 && effects == AnswerPeer(old(Value())).1
    {
      hide Session.Untrimmed;
      if !peerShutdownAcknowledgementDue { return []; }
      peerShutdownAcknowledgementDue, shutdown := false, Complete(PeerRequested);
      return [ShutdownComplete(PeerRequested)];
    }

    method ConnectionStateAction(now: nat) returns (effects: seq<Effect>)
      modifies this`connectionState
      ensures Value() == NoticeSilence(old(Value()), now).0 && effects == NoticeSilence(old(Value()), now).1
    {
      hide Session.Untrimmed;
      if connectionState == Connected && Elapsed(now, lastReceive) >= SERVER_UNRESPONSIVE_MILLISECONDS {
        connectionState := Interrupted;
        return [ConnectionStateChanged(Interrupted)];
      }
      return [];
    }

    method HasPendingUpdate() returns (pending: bool)
      requires protocol.Valid()
      ensures pending == Pending(protocol.Local())
    {
      pending := |protocol.sentStates| > 1;
    }

    method LocalShutdownSent() returns (sent: bool)
      requires protocol.Valid()
      ensures sent == ShutdownSent(protocol.Local())
    {
      sent := protocol.sentStates[|protocol.sentStates| - 1].id == U64_MAX;
    }

    method LocalShutdownAcknowledged() returns (acknowledged: bool)
      requires protocol.Valid()
      ensures acknowledged == ShutdownAcknowledged(protocol.Local())
    {
      acknowledged := protocol.sentStates[0].id == U64_MAX;
    }

    /** Encodes a drained batch as the state it is for. */
    method SendBatch(batch: seq<Instruction>, encodes: bool) returns (r: Result<StateUpdate, R.SessionError>)
      requires protocol.Valid()
      modifies protocol
      ensures protocol.Valid() && protocol.Remote() == old(protocol.Remote())
      ensures match Build(old(Value()).(queue := batch), encodes)
              case Err(error) => r == Err(error) && protocol.Local() == old(protocol.Local())
              case Ok((local, update)) => r == Ok(update) && protocol.Local() == local
    {
      hide Session.Untrimmed, Session.Trimmed, Sent;
      var sent := LocalShutdownSent();
      var acknowledged := LocalShutdownAcknowledged();
      if peerShutdownAcknowledgementDue && acknowledged {
        r := protocol.BuildShutdownAck(encodes);
      } else if shutdown.LocalRequested? && !sent {
        r := protocol.BuildShutdown(batch, encodes);
      } else {
        r := protocol.BuildUpdate(batch, encodes);
      }
    }

    /** Drains the queue first, whatever becomes of the update. */
    method BuildQueuedUpdate(now: nat, encodes: bool) returns (r: Result<StateUpdate, R.SessionError>)
      requires protocol.Valid()
      modifies this`queuedInstructions, this`queuedInputBytes, this`acknowledgementDue, this`lastSend, protocol
      ensures protocol.Valid()
      ensures var s := old(Value());
              var drained := s.(queue := [], queuedBytes := 0, ackDue := false);
              match Build(s, encodes)
              case Err(error) => r == Err(error) && Value() == drained
              case Ok((local, update)) => r == Ok(update) && Value() == drained.(local := local, lastSend := Some(now))
    {
      BuildIgnores(Value(), encodes);
      hide Build, Session.Untrimmed, Session.Trimmed, Sent;
      var instructions := queuedInstructions;
      queuedInstructions, queuedInputBytes, acknowledgementDue := [], 0, false;
      r := SendBatch(instructions, encodes);
      if r.Ok? { lastSend := Some(now); }
    }

    /** What follows every datagram of a poll but the first association. */
    method RecordSend(now: nat, update: StateUpdate, counted: bool) returns (effects: seq<Effect>)
      modifies this`lastSend, this`acknowledgementDue, this`shutdown, this`peerShutdownAcknowledgementDue
      ensures Value() == Sending(old(Value()), now, update, counted).0
      ensures effects == Sending(old(Value()), now, update, counted).1
    {
      hide Session.Untrimmed;
      lastSend, acknowledgementDue := Some(now), false;
      if counted { RecordShutdownTransmission(); }
      var ending := CompletePeerShutdownAfterAck();
      return [SendDatagram(update)] + ending;
    }

    /** The queued part of `poll`, set apart to keep the branches small. */
    method SendQueuedUpdate(now: nat, encodes: bool) returns (r: Result<seq<Effect>, RuntimeError>)
      requires protocol.Valid()
      modifies this, protocol
      ensures protocol.Valid()
      ensures var s := old(Value());
              var drained := s.(queue := [], queuedBytes := 0, ackDue := false);
              match Build(s, encodes)
              case Err(error) => Value() == drained && r == Err(RuntimeError.Session(error))
              case Ok((local, update)) =>
                && Value() == Sending(drained.(local := local), now, update, true).0
                && r == Ok(Sending(drained.(local := local), now, update, true).1)
    {
      hide Session.Untrimmed, Session.Trimmed, Sent, Build, Sending;
      var built := BuildQueuedUpdate(now, encodes);
      if built.Err? { return Err(RuntimeError.Session(built.error)); }
      SendingForgets(Value(), old(lastSend), now, built.value);
      var effects := RecordSend(now, built.value, true);
      return Ok(effects);
    }

    /** A poll that goes on: a fresh state, a retransmission, an acknowledgement, or nothing. */
    method ContinuePoll(now: nat, encodes: bool) returns (r: Result<seq<Effect>, RuntimeError>)
      requires protocol.Valid() && IsSound(Value())
      modifies this, protocol
      ensures protocol.Valid()
      ensures Value() == Continue(old(Value()), now, encodes).0
      ensures r == Continue(old(Value()), now, encodes).1
    {
      hide Session.Untrimmed, Session.Trimmed, Sent, Ordered, Agree, Monotone, Build, Sending, Retransmission,
           Heartbeat;
      var pending := HasPendingUpdate();
      var shutdownSent := LocalShutdownSent();
      var localShutdownUnsent := shutdown.LocalRequested? && !shutdownSent;
      if (queuedInstructions != [] || localShutdownUnsent) && !pending {
        r := SendQueuedUpdate(now, encodes);
        return;
      }
      if pending {
        if !acknowledgementDue && lastSend.Some? && Elapsed(now, lastSend.value) < estimator.timeout {
          return Ok([]);
        }
        var resent := protocol.RetransmitPending(encodes);
        if resent.Err? { return Err(RuntimeError.Session(resent.error)); }
        var effects := RecordSend(now, resent.value, true);
        return Ok(effects);
      }
      var heartbeatDue := lastSend.None? || Elapsed(now, lastSend.value) >= estimator.timeout;
      if !acknowledgementDue && !heartbeatDue {
        return Ok([]);
      }
      var acknowledgement := protocol.BuildAcknowledgement(encodes);
      if acknowledgement.Err? { return Err(RuntimeError.Session(acknowledgement.error)); }
      var effects := RecordSend(now, acknowledgement.value, false);
      return Ok(effects);
    }

    method CompleteShutdown(outcome: Outcome) returns (effects: seq<Effect>)
      modifies this`shutdown
      ensures Value() == old(Value()).(shutdown := Complete(outcome)) && effects == [ShutdownComplete(outcome)]
    {
      hide Session.Untrimmed;
      shutdown := Complete(outcome);
      return [ShutdownComplete(outcome)];
    }

    /** A poll after its association datagram. */
    method ProceedPoll(collected: seq<Effect>, now: nat, encodes: bool) returns (r: Result<seq<Effect>, RuntimeError>)
      requires protocol.Valid() && IsSound(Value())
      modifies this, protocol
      ensures protocol.Valid()
      ensures Value() == Proceed(old(Value()), collected, now, encodes).0
      ensures r == Proceed(old(Value()), collected, now, encodes).1
    {
      hide Session.Untrimmed, Session.Trimmed, Ordered, Agree, Monotone, Continue, NoticeSilence;
      var acknowledged := LocalShutdownAcknowledged();
      if acknowledged && !peerShutdownAcknowledgementDue {
        var effects := CompleteShutdown(LocalAcknowledged);
        return Ok(effects);
      }
      if !peerShutdownAcknowledgementDue && IsShutdownTimedOut(now) {
        var effects := CompleteShutdown(TimedOut);
        return Ok(effects);
      }
      SilenceKeepsSender(Value(), now);
      var silence := ConnectionStateAction(now);
      var rest := ContinuePoll(now, encodes);
      return if rest.Err? then rest else Ok(collected + silence + rest.value);
    }

    method Poll(now: nat, encoding: Encoding) returns (r: Result<seq<Effect>, RuntimeError>)
      requires Valid()
      modifies this, protocol
      ensures Valid()
      ensures Value() == Runtime.Poll(old(Value()), now, encoding).0
      ensures r == Runtime.Poll(old(Value()), now, encoding).1
    {
      PollKeepsInv(Value(), now, encoding);
      InvIsSound(Value());
      hide Inv, Session.Untrimmed, Session.Trimmed, Proceed, IsSound;
      if lifecycle != Running || shutdown.Complete? { return Ok([]); }
      var collected: seq<Effect> := [];
      if associationDue {
        var association := protocol.BuildAcknowledgement(encoding.association);
        if association.Err? { return Err(RuntimeError.Session(association.error)); }
        associationDue := false;
        lastSend := Some(now);
        collected := [SendDatagram(association.value)];
      }
      r := ProceedPoll(collected, now, encoding.main);
    }

    method MillisecondsUntilNextPoll(now: nat) returns (wait: nat)
      requires Valid()
      ensures wait == Runtime.MillisecondsUntilNextPoll(Value(), now)
    {
      if lifecycle != Running || shutdown.Complete? { return U64_MAX; }
      var pending := HasPendingUpdate();
      var shutdownSent := LocalShutdownSent();
      var shutdownUnsent := shutdown.LocalRequested? && !shutdownSent;
      var protocolWait := 0;
      if !(associationDue || acknowledgementDue || (!pending && (queuedInstructions != [] || shutdownUnsent))
           || lastSend.None?) {
        protocolWait := SaturatingSub(estimator.timeout, Elapsed(now, lastSend.value));
      }
      if shutdown.LocalRequested? {
        var timeoutWait := if shutdown.transmissions >= SHUTDOWN_RETRY_LIMIT then 0
                           else SaturatingSub(SHUTDOWN_TIMEOUT_MILLISECONDS, Elapsed(now, shutdown.startedAt));
        return Min(protocolWait, timeoutWait);
      }
      return protocolWait;
    }
  }

  lemma InvIsSound<S>(s: State<S>)
    requires Inv(s)
    ensures IsSound(s) && IsSound(s.(associationDue := false))
  {
  }

  lemma SilenceKeepsSender<S>(s: State<S>, now: nat)
    requires IsSound(s)
    ensures IsSound(NoticeSilence(s, now).0)
  {
    hide Valid;
  }

  lemma SendingForgets<S>(s: State<S>, lastSend: Option<nat>, now: nat, update: StateUpdate)
    ensures Sending(s, now, update, true) == Sending(s.(lastSend := lastSend), now, update, true)
  {
  }

  lemma BuildIgnores<S>(s: State<S>, encodes: bool)
    requires s.local.marks != []
    ensures Build(s.(queuedBytes := 0, ackDue := false), encodes) == Build(s, encodes)
  {
  }
}
