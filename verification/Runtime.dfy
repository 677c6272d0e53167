/**
 The session runtime as a function from state and event to state and actions:
 association, queued updates, retransmission, heartbeats and shutdown.
 */
module Runtime {
  import opened Prelude
  import opened Wire
  import opened Sender
  import R = Receiver
  import Rto

  const MAXIMUM_QUEUED_INPUT_BYTES := 1024 * 1024
  const SERVER_UNRESPONSIVE_MILLISECONDS := 30_000
  const SHUTDOWN_RETRY_LIMIT := 16
  const SHUTDOWN_TIMEOUT_MILLISECONDS := 10_000
  const MAXIMUM_SAMPLE_MILLISECONDS := 30_000
  const NO_ECHO_TIMESTAMP: u16 := U16_MAX

  type u8 = n: int | 0 <= n < 256

  datatype Lifecycle = Running | Paused | Cancelled
  datatype Connection = Connecting | Connected | Interrupted
  datatype Outcome = LocalAcknowledged | PeerRequested | TimedOut

  datatype ShutdownState =
    | Open
    | LocalRequested(startedAt: nat, transmissions: u8)
    | PeerAsked
    | Complete(outcome: Outcome)

  datatype RuntimeError =
    | InputQueueFull | CapabilityNotNegotiated | SessionPaused | SessionCancelled | ShutdownInProgress
    | Rejected | Session(error: R.SessionError)

  /** Effects for the host. One `SendDatagram` stands for all packets of one update. */
  datatype Effect =
    | SendDatagram(update: StateUpdate)
    | WriteTerminal(bytes: seq<byte>)
    | ResizeTerminal(viewport: Viewport)
    | AcknowledgePrediction(value: u64)
    | RemoteStateAdvanced(id: u64)
    | ConnectionStateChanged(connection: Connection)
    | RoundTripEstimate(milliseconds: u16)
    | RemoteSessionControl(control: SessionControl)
    | LifecycleChanged(lifecycle: Lifecycle)
    | ShutdownComplete(outcome: Outcome)
    | UdpBindingChanged(generation: u64)

  datatype State<S> = State(
    local: Sender,
    remote: R.Receiver<S>,
    queue: seq<Instruction>,
    queuedBytes: nat,
    lastSend: Option<nat>,
    lastReceive: nat,
    estimate: Rto.Estimate,
    roundTrip: Option<u16>,
    associationDue: bool,
    ackDue: bool,
    connection: Connection,
    lifecycle: Lifecycle,
    generation: u64,
    shutdown: ShutdownState,
    peerAckDue: bool)

  function New<S>(initial: S, now: nat): State<S> {
    State(NEW, R.New(initial), [], 0, None, now, Rto.INITIAL, None, true, false, Connecting, Running, 0, Open, false)
  }

  // ---- Input ----------------------------------------------------------------

  /** Why new input is refused, if it is. */
  function InputRefusal<S>(s: State<S>): Option<RuntimeError> {
    match s.lifecycle
    case Paused => Some(SessionPaused)
    case Cancelled => Some(SessionCancelled)
    case Running => if s.shutdown != Open then Some(ShutdownInProgress) else None
  }

  function Enqueued<S>(s: State<S>, instruction: Instruction, bytes: nat): (State<S>, Result<(), RuntimeError>) {
    if s.queuedBytes + bytes > MAXIMUM_QUEUED_INPUT_BYTES then (s, Err(InputQueueFull))
    else (s.(queue := s.queue + [instruction], queuedBytes := s.queuedBytes + bytes), Ok(()))
  }

  function QueueInput<S>(s: State<S>, bytes: seq<byte>): (State<S>, Result<(), RuntimeError>) {
    if InputRefusal(s).Some? then (s, Err(InputRefusal(s).value)) else Enqueued(s, HostBytes(bytes), |bytes|)
  }

  function QueueControl<S>(s: State<S>, control: SessionControl, negotiated: bool)
    : (State<S>, Result<(), RuntimeError>)
  {
    if InputRefusal(s).Some? then (s, Err(InputRefusal(s).value))
    else if !negotiated then (s, Err(CapabilityNotNegotiated))
    else Enqueued(s, Control(control), |control.payload|)
  }

  predicate IsResize(instruction: Instruction) {
    instruction.bytes.None? && instruction.marker.None? && instruction.control.None? && instruction.viewport.Some?
  }

  /** The queue with one more resize; a resize right before it is replaced. */
  function Coalesced(queue: seq<Instruction>, viewport: Viewport): seq<Instruction> {
    if queue != [] && IsResize(queue[|queue| - 1])
    then queue[..|queue| - 1] + [queue[|queue| - 1].(viewport := Some(viewport))]
    else queue + [Resize(viewport.columns, viewport.rows)]
  }

  /** `queue_resize`; `blank` is the empty remote state of the new size. */
  function QueueResize<S>(s: State<S>, columns: u16, rows: u16, blank: S): State<S> {
    if InputRefusal(s).Some? then s
    else s.(remote := R.Rebaselined(s.remote, blank), queue := Coalesced(s.queue, Viewport(columns, rows)))
  }

  // ---- Polling --------------------------------------------------------------

  function Elapsed(now: nat, earlier: nat): nat {
    SaturatingSub(now, earlier)
  }

  /** A local shutdown was requested and its reserved state has not been sent. */
  predicate ShutdownUnsent<S>(s: State<S>)
    requires s.local.marks != []
  {
    s.shutdown.LocalRequested? && !ShutdownSent(s.local)
  }

  predicate ShutdownTimedOut<S>(s: State<S>, now: nat) {
    s.shutdown.LocalRequested?
    && (s.shutdown.transmissions >= SHUTDOWN_RETRY_LIMIT
        || Elapsed(now, s.shutdown.startedAt) >= SHUTDOWN_TIMEOUT_MILLISECONDS)
  }

  /** The retransmission interval has run since the last datagram, or there was none. */
  predicate IntervalOver<S>(s: State<S>, now: nat) {
    s.lastSend.None? || Elapsed(now, s.lastSend.value) >= s.estimate.timeout
  }

  /** Whether a poll ends the session before sending anything. */
  function Ending<S>(s: State<S>, now: nat): Option<Outcome>
    requires s.local.marks != []
  {
    if s.peerAckDue then None
    else if ShutdownAcknowledged(s.local) then Some(LocalAcknowledged)
    else if ShutdownTimedOut(s, now) then Some(TimedOut)
    else None
  }

  datatype Choice = SendQueued | Resend | SendAck | Wait

  /** What a poll that goes on has to send. */
  function Choose<S>(s: State<S>, now: nat): Choice
    requires s.local.marks != []
  {
    if Pending(s.local) then (if s.ackDue || IntervalOver(s, now) then Resend else Wait)
    else if s.queue != [] || ShutdownUnsent(s) then SendQueued
    else if s.ackDue || IntervalOver(s, now) then SendAck
    else Wait
  }

  /** The server fell silent: reported once. */
  function NoticeSilence<S>(s: State<S>, now: nat): (State<S>, seq<Effect>) {
    if s.connection == Connected && Elapsed(now, s.lastReceive) >= SERVER_UNRESPONSIVE_MILLISECONDS
    then (s.(connection := Interrupted), [ConnectionStateChanged(Interrupted)])
    else (s, [])
  }

  /** The sender and update a queued send results in, or why it fails. */
  function Build<S>(s: State<S>, encodes: bool): Result<(Sender, StateUpdate), R.SessionError>
    requires s.local.marks != []
  {
    if s.peerAckDue && ShutdownAcknowledged(s.local) then
      (if encodes then Ok((s.local, ShutdownAck(s.remote.latest))) else Err(R.EncodingFailed))
    else
      var target := if ShutdownUnsent(s) then SHUTDOWN_STATE else s.local.next;
      if target == s.local.next == SHUTDOWN_STATE && !ShutdownUnsent(s) then Err(R.StateExhausted)
      else if |s.local.log| - Front(s.local).end + |s.queue| > USIZE_MAX then Err(R.StateExhausted)
      else if !encodes then Err(R.EncodingFailed)
      else
        var sent := Sent(s.local, s.queue, target);
        Ok((if ShutdownUnsent(s) then sent else sent.(next := target + 1),
            FreshUpdate(s.local, s.queue, target, s.remote.latest)))
  }

  /** A transmission during a local shutdown is counted, in a saturating byte. */
  function CountTransmission(shutdown: ShutdownState): ShutdownState {
    if shutdown.LocalRequested? then shutdown.(transmissions := Min(shutdown.transmissions + 1, 255)) else shutdown
  }

  /** Once anything has been sent, a peer's shutdown request is answered and the session is over. */
  function AnswerPeer<S>(s: State<S>): (State<S>, seq<Effect>) {
    if s.peerAckDue
    then (s.(peerAckDue := false, shutdown := Complete(PeerRequested)), [ShutdownComplete(PeerRequested)])
    else (s, [])
  }

  /** Which of a poll's two encodings succeed. */
  datatype Encoding = Encoding(association: bool, main: bool)

  const WORKS := Encoding(true, true)

  /** `now` becomes the time of the last datagram, which carries any due acknowledgement. */
  function Sending<S>(s: State<S>, now: nat, update: StateUpdate, counted: bool): (State<S>, seq<Effect>) {
    var shutdown := if counted then CountTransmission(s.shutdown) else s.shutdown;
    var (next, ending) := AnswerPeer(s.(lastSend := Some(now), ackDue := false, shutdown := shutdown));
    (next, [SendDatagram(update)] + ending)
  }

  /** The part of a poll after association and completion checks. */
  function Continue<S>(s: State<S>, now: nat, encodes: bool): (State<S>, Result<seq<Effect>, RuntimeError>)
    requires Valid(s.local)
  {
    match Choose(s, now)
    case Wait => (s, Ok([]))
    case SendQueued =>
      var drained := s.(queue := [], queuedBytes := 0, ackDue := false);
      (match Build(s, encodes)
       case Err(error) => (drained, Err(Session(error)))
       case Ok((local, update)) =>
         var (next, effects) := Sending(drained.(local := local), now, update, true);
         (next, Ok(effects)))
    case Resend =>
      if !encodes then (s, Err(Session(R.EncodingFailed)))
      else
        var (next, effects) := Sending(s, now, Retransmission(s.local, s.remote.latest), true);
        (next, Ok(effects))
    case SendAck =>
      if !encodes then (s, Err(Session(R.EncodingFailed)))
      else
        var (next, effects) := Sending(s, now, Heartbeat(s.local, s.remote.latest), false);
        (next, Ok(effects))
  }

  /** The association datagram that the first poll starts with. */
  function Associated<S>(s: State<S>, now: nat): (State<S>, seq<Effect>)
    requires s.local.marks != []
  {
    if s.associationDue
    then (s.(associationDue := false, lastSend := Some(now)), [SendDatagram(Heartbeat(s.local, s.remote.latest))])
    else (s, [])
  }

  /** A poll after its association datagram. A completion discards what was collected before it. */
  function Proceed<S>(s: State<S>, collected: seq<Effect>, now: nat, encodes: bool)
    : (State<S>, Result<seq<Effect>, RuntimeError>)
    requires Valid(s.local)
  {
    match Ending(s, now)
    case Some(outcome) => (s.(shutdown := Complete(outcome)), Ok([ShutdownComplete(outcome)]))
    case None =>
      var (noticed, silence) := NoticeSilence(s, now);
      match Continue(noticed, now, encodes)
      case (next, Err(error)) => (next, Err(error))
      case (next, Ok(effects)) => (next, Ok(collected + silence + effects))
  }

  /** Unless it ends the session, a poll is what its last part does, behind what was collected before. */
  lemma GoesOn<S>(s: State<S>, collected: seq<Effect>, now: nat, encodes: bool)
    requires Valid(s.local)
    ensures Ending(s, now).None? ==>
              var (noticed, silence) := NoticeSilence(s, now);
              var (next, r) := Continue(noticed, now, encodes);
              Proceed(s, collected, now, encodes) == (next, if r.Ok? then Ok(collected + silence + r.value) else r)
    ensures Ending(s, now).Some? ==>
              Proceed(s, collected, now, encodes)
              == (s.(shutdown := Complete(Ending(s, now).value)), Ok([ShutdownComplete(Ending(s, now).value)]))
  {
    assert s.local.marks != [];
    hide Continue, Valid, Ending;
  }

  /** The session is running, not over, and its first poll can associate. */
  predicate Works<S>(s: State<S>, encoding: Encoding) {
    s.lifecycle == Running && !s.shutdown.Complete? && (!s.associationDue || encoding.association)
  }

  /** `poll`. */
  function Poll<S>(s: State<S>, now: nat, encoding: Encoding): (State<S>, Result<seq<Effect>, RuntimeError>)
    requires Valid(s.local)
  {
    if s.lifecycle != Running || s.shutdown.Complete? then (s, Ok([]))
    else if s.associationDue && !encoding.association then (s, Err(Session(R.EncodingFailed)))
    else
      var (associated, association) := Associated(s, now);
      Proceed(associated, association, now, encoding.main)
  }

  /** `milliseconds_until_next_poll`, in closed form. */
  function MillisecondsUntilNextPoll<S>(s: State<S>, now: nat): nat
    requires s.local.marks != []
  {
    if s.lifecycle != Running || s.shutdown.Complete? then U64_MAX
    else
      var canSendQueued := !Pending(s.local);
      var protocolWait :=
        if s.associationDue || s.ackDue || (canSendQueued && s.queue != []) || (ShutdownUnsent(s) && canSendQueued)
          then 0
        else if s.lastSend.None? then 0
        else SaturatingSub(s.estimate.timeout, Elapsed(now, s.lastSend.value));
      if s.shutdown.LocalRequested? then
        var timeoutWait := if s.shutdown.transmissions >= SHUTDOWN_RETRY_LIMIT then 0
                           else SaturatingSub(SHUTDOWN_TIMEOUT_MILLISECONDS, Elapsed(now, s.shutdown.startedAt));
        Min(protocolWait, timeoutWait)
      else protocolWait
  }

  // ---- Receiving ------------------------------------------------------------

  /** What the transport makes of a datagram: nothing, a packet without a complete update, or an update. */
  datatype Datagram = Noise | Bare(echoed: u16) | Full(echoed: u16, update: StateUpdate)

  /** The 16-bit round trip an echoed timestamp implies. */
  function RoundTrip(now: nat, echoed: u16): u16 {
    (now % 0x1_0000 - echoed) % 0x1_0000
  }

  /** An authenticated packet arrived: liveness, connection state and a round-trip sample. */
  function Hear<S>(s: State<S>, now: nat, echoed: u16): (State<S>, seq<Effect>) {
    var alive := s.(lastReceive := now, connection := Connected);
    var connected := if s.connection != Connected then [ConnectionStateChanged(Connected)] else [];
    var sample := RoundTrip(now, echoed);
    if echoed == NO_ECHO_TIMESTAMP || sample > MAXIMUM_SAMPLE_MILLISECONDS then (alive, connected)
    else (alive.(estimate := Rto.Sampled(s.estimate, sample), roundTrip := Some(sample)),
          connected + if s.roundTrip == Some(sample) then [] else [RoundTripEstimate(sample)])
  }

  /** The host effects of one delivered instruction. */
  function InstructionEffects(instruction: Instruction): seq<Effect> {
    (if instruction.bytes.Some? then [WriteTerminal(instruction.bytes.value)] else [])
    + (if instruction.viewport.Some? && instruction.viewport.value.columns <= U16_MAX
       && instruction.viewport.value.rows <= U16_MAX
       then [ResizeTerminal(instruction.viewport.value)] else [])
    + (if instruction.marker.Some? then [AcknowledgePrediction(instruction.marker.value)] else [])
    + (if instruction.control.Some? then [RemoteSessionControl(instruction.control.value)] else [])
  }

  function HostEffects(batch: seq<Instruction>): seq<Effect> {
    if batch == [] then [] else HostEffects(batch[..|batch| - 1]) + InstructionEffects(batch[|batch| - 1])
  }

  /** A reported shutdown state makes an acknowledgement due, whether or not it advanced. */
  function NotePeerShutdown<S>(s: State<S>, target: u64): State<S> {
    if target != SHUTDOWN_STATE then s
    else s.(peerAckDue := true, shutdown := if s.shutdown == Open then PeerAsked else s.shutdown)
  }

  /** `receive_datagram`. A refused update still acknowledges local state. */
  function Receive<S>(rules: R.Rules<S>, s: State<S>, datagram: Datagram, now: nat)
    : (State<S>, Result<seq<Effect>, RuntimeError>)
  {
    if s.lifecycle == Paused then (s, Err(SessionPaused))
    else if s.lifecycle == Cancelled then (s, Err(SessionCancelled))
    else
      match datagram
      case Noise => (s, Err(Rejected))
      case Bare(echoed) =>
        var (heard, effects) := Hear(s, now, echoed);
        (heard, Ok(effects))
      case Full(echoed, u) =>
        var (remote, outcome) := R.Accept(rules, s.remote, u);
        var ingested := s.(local := Acknowledged(s.local, u.acknowledged), remote := remote);
        match outcome
        case Err(error) => (ingested, Err(Session(error)))
        case Ok((advances, delivered)) =>
          var (heard, effects) := Hear(ingested, now, echoed);
          var noted := NotePeerShutdown(heard.(ackDue := heard.ackDue || advances), delivered.target);
          (noted, Ok(effects + if advances then [RemoteStateAdvanced(delivered.target)] + HostEffects(delivered.delta)
                     else []))
  }

  // ---- Lifecycle ------------------------------------------------------------

  function Pause<S>(s: State<S>): (State<S>, seq<Effect>) {
    if s.lifecycle != Running then (s, []) else (s.(lifecycle := Paused), [LifecycleChanged(Paused)])
  }

  function Cancel<S>(s: State<S>): (State<S>, seq<Effect>) {
    if s.lifecycle == Cancelled then (s, [])
    else (s.(lifecycle := Cancelled, queue := [], queuedBytes := 0), [LifecycleChanged(Cancelled)])
  }

  function RequestShutdown<S>(s: State<S>, now: nat): (State<S>, Result<(), RuntimeError>) {
    if s.lifecycle == Paused then (s, Err(SessionPaused))
    else if s.lifecycle == Cancelled then (s, Err(SessionCancelled))
    else (if s.shutdown == Open then s.(shutdown := LocalRequested(now, 0)) else s, Ok(()))
  }

  function Rebound<S>(s: State<S>): (State<S>, seq<Effect>) {
    if s.lifecycle == Cancelled then (s, [])
    else
      var generation := Min(s.generation + 1, U64_MAX);
      (s.(generation := generation, lastSend := None), [UdpBindingChanged(generation)])
  }

  function Resume<S>(s: State<S>, now: nat): (State<S>, seq<Effect>) {
    if s.lifecycle == Cancelled then (s, [])
    else (s.(lifecycle := Running, lastReceive := now, lastSend := None),
          if s.lifecycle == Paused then [LifecycleChanged(Running)] else [])
  }

  // ---- Events ---------------------------------------------------------------

  datatype Event<S> =
    | PollAt(now: nat, encoding: Encoding)
    | Datagrams(datagram: Datagram, now: nat)
    | Input(bytes: seq<byte>)
    | ControlInput(control: SessionControl, negotiated: bool)
    | ResizeInput(columns: u16, rows: u16, blank: S)
    | ShutdownAt(now: nat)
    | PauseNow
    | CancelNow
    | ResumeAt(now: nat)
    | UdpRebound

  /** One host call; calls that fail return no effects. */
  function Step<S>(rules: R.Rules<S>, s: State<S>, event: Event<S>): (State<S>, seq<Effect>)
    requires Valid(s.local)
  {
    match event
    case PollAt(now, encoding) =>
      var (next, r) := Poll(s, now, encoding); (next, if r.Ok? then r.value else [])
    case Datagrams(datagram, now) =>
      var (next, r) := Receive(rules, s, datagram, now); (next, if r.Ok? then r.value else [])
    case Input(bytes) => (QueueInput(s, bytes).0, [])
    case ControlInput(control, negotiated) => (QueueControl(s, control, negotiated).0, [])
    case ResizeInput(columns, rows, blank) => (QueueResize(s, columns, rows, blank), [])
    case ShutdownAt(now) => (RequestShutdown(s, now).0, [])
    case PauseNow => Pause(s)
    case CancelNow => Cancel(s)
    case ResumeAt(now) => Resume(s, now)
    case UdpRebound => Rebound(s)
  }
}
