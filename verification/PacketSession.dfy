/** From packets to host actions: the packet path and the runtime behind it, over whole sessions. */
module PacketSession {
  import opened Prelude
  import opened Wire
  import opened Fragments
  import opened Replay
  import opened Channel
  import opened Ingest
  import opened Runtime
  import opened RuntimeRuns
  import R = Receiver
  import Sender
  import Operations
  import RemoteState
  import HostEffects
  import HostRuns
  import Shutdown
  import RuntimeObject

  datatype Whole<S> = Whole(transport: Transport, session: State<S>)

  /** What the runtime is told of a packet. */
  function AsDatagram(r: Result<Receipt, Refusal>): Datagram {
    match r
    case Err(_) => Noise
    case Ok(receipt) => if receipt.update.None? then Bare(receipt.echoed)
      else Full(receipt.echoed, receipt.update.value)
  }

  /** `receive_datagram` from the packet on: a session that is not running does not open it. */
  ghost function ReceivePacket<S>(rules: R.Rules<S>, w: Whole<S>, packet: Packet, now: nat, decode: Decoder)
    : (Whole<S>, Result<seq<Effect>, RuntimeError>)
  {
    if w.session.lifecycle == Paused then (w, Err(SessionPaused))
    else if w.session.lifecycle == Cancelled then (w, Err(SessionCancelled))
    else
      var (transport, receipt) := Take(w.transport, packet, decode);
      var (session, r) := Receive(rules, w.session, AsDatagram(receipt), now);
      (Whole(transport, session), r)
  }

  // ---- What the server sends ------------------------------------------------

  /** One of the fragments sent has this number, index and body. */
  ghost predicate Piece(sent: set<Fragment>, id: u64, index: FragmentIndex, body: seq<byte>) {
    exists f :: f in sent && f.header.stateId == id && f.header.index == index && f.body == body
  }

  ghost predicate LastPiece(sent: set<Fragment>, id: u64, index: FragmentIndex) {
    exists f :: f in sent && f.header.stateId == id && f.header.index == index && f.header.isFinal
  }

  /** The bodies up to `last` are pieces sent under the number, with a final one at the end. */
  ghost predicate Pieced(sent: set<Fragment>, id: u64, bodies: Bodies, last: FragmentIndex) {
    LastPiece(sent, id, last)
    && forall i: FragmentIndex :: i <= last ==> i in bodies && Piece(sent, id, i, bodies[i])
  }

  /** A decoded message carries the slice of the server's log that its ids delimit, if it decodes. */
  predicate Carried(server: Sender.Sender, update: Option<StateUpdate>) {
    update.None? || Sender.Carries(server, update.value)
  }

  /**
   Whatever the pieces sent under one number can be put together to, it decodes to a slice of the
   log or not at all.
   */
  ghost predicate Understood(sent: set<Fragment>, server: Sender.Sender, decode: Decoder) {
    forall id: u64, bodies: Bodies, last: FragmentIndex :: Pieced(sent, id, bodies, last) ==>
      Carried(server, decode(Joined(bodies, last + 1)))
  }

  /** All fragments sent under the number are those of one message, or each is a message of its own. */
  ghost predicate UsedCleanly(sent: set<Fragment>, id: u64, message: seq<byte>, server: Sender.Sender,
                              decode: Decoder)
  {
    || (&& CanSend(Content(message, id)) && Carried(server, decode(message))
        && forall f :: f in sent && f.header.stateId == id ==> FragmentOf(f, message, id))
    || (forall f :: f in sent && f.header.stateId == id ==> f.header.index == 0 && Carried(server, decode(f.body)))
  }

  lemma OneMessageJoins(sent: set<Fragment>, id: u64, message: seq<byte>, bodies: Bodies, last: FragmentIndex)
    requires ChunkCount(message) <= FINAL_FRAGMENT_BIT && Pieced(sent, id, bodies, last)
    requires forall f :: f in sent && f.header.stateId == id ==> FragmentOf(f, message, id)
    ensures Joined(bodies, last + 1) == message
  {
    hide Joined, ChunkStart, Chunk, Piece, LastPiece, FragmentAt;
    var own: Bodies := map i: FragmentIndex | i in bodies && i <= last :: bodies[i];
    forall i: FragmentIndex | i in own ensures i < ChunkCount(message) && own[i] == Chunk(message, i) {
      PieceOfOne(sent, id, message, i, bodies[i]);
    }
    LastOfOne(sent, id, message, last);
    hide ChunkCount;
    ChunksJoinToTheMessage(own, message, last + 1);
    SameJoined(own, bodies, last + 1);
    AllChunks(message);
  }

  lemma PieceOfOne(sent: set<Fragment>, id: u64, message: seq<byte>, i: FragmentIndex, body: seq<byte>)
    requires Piece(sent, id, i, body)
    requires forall f :: f in sent && f.header.stateId == id ==> FragmentOf(f, message, id)
    ensures i < ChunkCount(message) && body == Chunk(message, i)
  {
    hide ChunkCount, Chunk;
  }

  lemma LastOfOne(sent: set<Fragment>, id: u64, message: seq<byte>, last: FragmentIndex)
    requires LastPiece(sent, id, last)
    requires forall f :: f in sent && f.header.stateId == id ==> FragmentOf(f, message, id)
    ensures last + 1 == ChunkCount(message)
  {
    hide ChunkCount, Chunk;
  }

  lemma AllChunks(message: seq<byte>)
    ensures message[..ChunkStart(message, ChunkCount(message))] == message
  {
  }

  lemma {:induction false} SameJoined(a: Bodies, b: Bodies, count: nat)
    requires count <= FINAL_FRAGMENT_BIT
    requires forall i: FragmentIndex :: i < count ==> i in a && i in b && a[i] == b[i]
    ensures Joined(a, count) == Joined(b, count)
  {
    if count != 0 { SameJoined(a, b, count - 1); }
  }

  /** Numbers that are each used for one message, or for messages of one packet, are never misunderstood. */
  lemma CleanNumbersAreUnderstood(sent: set<Fragment>, messages: u64 -> seq<byte>, server: Sender.Sender,
                                  decode: Decoder)
    requires forall id :: UsedCleanly(sent, id, messages(id), server, decode)
    ensures Understood(sent, server, decode)
  {
    hide Carried;
    forall id: u64, bodies: Bodies, last: FragmentIndex | Pieced(sent, id, bodies, last)
      ensures Carried(server, decode(Joined(bodies, last + 1)))
    {
      assert UsedCleanly(sent, id, messages(id), server, decode);
      if forall f :: f in sent && f.header.stateId == id ==> FragmentOf(f, messages(id), id) {
        if CanSend(Content(messages(id), id)) { OneMessageJoins(sent, id, messages(id), bodies, last); }
      }
      OnePieceJoins(sent, id, bodies, last);
    }
  }

  lemma OnePieceJoins(sent: set<Fragment>, id: u64, bodies: Bodies, last: FragmentIndex)
    requires Pieced(sent, id, bodies, last)
    ensures (forall f :: f in sent && f.header.stateId == id ==> f.header.index == 0) ==>
            exists f :: f in sent && f.header.stateId == id && Joined(bodies, last + 1) == f.body
  {
    if forall f :: f in sent && f.header.stateId == id ==> f.header.index == 0 {
      assert last == 0;
      assert Piece(sent, id, 0, bodies[0]);
      assert Joined(bodies, 1) == Joined(bodies, 0) + bodies[0];
    }
  }

  /** Every fragment that an authentic packet brings is one the server sent. */
  predicate FromServer(sent: set<Fragment>, packet: Packet) {
    var plain := Opened(Client, packet);
    plain.Ok? && Parse(plain.value.1).Ok? ==> Parse(plain.value.1).value in sent
  }

  // ---- What reassembly can put together ------------------------------------

  /** Everything held was sent under the number it is held for. */
  ghost predicate Built(sent: set<Fragment>, a: Accumulated) {
    && (forall i :: i in a.fragments ==> Piece(sent, a.stateId, i, a.fragments[i]))
    && (a.finalIndex.Some? ==> LastPiece(sent, a.stateId, a.finalIndex.value))
  }

  ghost predicate AllBuilt(sent: set<Fragment>, t: Transport) {
    forall id :: id in t.assemblies ==> t.assemblies[id].stateId == id && Built(sent, t.assemblies[id])
  }

  lemma PushKeepsBuilt(sent: set<Fragment>, a: Accumulated, f: Fragment)
    requires Built(sent, a) && f in sent && f.header.stateId == a.stateId
    ensures Built(sent, Pushed(a, f).0) && Pushed(a, f).0.stateId == a.stateId
  {
    assert Piece(sent, a.stateId, f.header.index, f.body);
    if f.header.isFinal { assert LastPiece(sent, a.stateId, f.header.index); }
    hide Piece, LastPiece;
  }

  /** What a push completes are pieces sent under the number. */
  lemma PushedIsCompletion(a: Accumulated, f: Fragment)
    ensures Pushed(a, f).1.Ok? ==> Pushed(a, f).1.value == Completion(Pushed(a, f).0)
  {
    hide Joined;
  }

  lemma CompletionIsPieced(sent: set<Fragment>, a: Accumulated)
    requires Built(sent, a) && Completion(a).Some?
    ensures a.finalIndex.Some? && Pieced(sent, a.stateId, a.fragments, a.finalIndex.value)
    ensures Completion(a).value == Joined(a.fragments, a.finalIndex.value + 1)
  {
    hide Piece, LastPiece, Joined;
  }

  lemma AssembleKeepsBuilt(sent: set<Fragment>, server: Sender.Sender, t: Transport, f: Fragment, decode: Decoder)
    requires AllBuilt(sent, t) && f in sent && Understood(sent, server, decode)
    ensures var (next, r) := Assemble(t, f, decode);
            AllBuilt(sent, next) && (r.Ok? ==> Carried(server, r.value.update))
  {
    hide Pushed, Piece, LastPiece, Joined, Completion, Pieced, Built, Carried, Assembly, Concluded, Understood;
    var id := f.header.stateId;
    if id in t.assemblies || |t.assemblies| < MAXIMUM_ACTIVE_ASSEMBLIES {
      var a := Assembly(t, id);
      AssemblyIsBuilt(sent, t, id);
      PushKeepsBuilt(sent, a, f);
      var (next, r) := Pushed(a, f);
      PushedIsUnderstood(sent, server, a, f, decode);
      ConcludedIsBuilt(sent, server, t, f.header, next, r, decode);
    }
  }

  lemma AssemblyIsBuilt(sent: set<Fragment>, t: Transport, id: u64)
    requires AllBuilt(sent, t)
    ensures Assembly(t, id).stateId == id && Built(sent, Assembly(t, id))
  {
    hide Piece, LastPiece;
  }

  lemma PushedIsUnderstood(sent: set<Fragment>, server: Sender.Sender, a: Accumulated, f: Fragment, decode: Decoder)
    requires Built(sent, Pushed(a, f).0) && Understood(sent, server, decode)
    ensures var r := Pushed(a, f).1; r.Ok? && r.value.Some? ==> Carried(server, decode(r.value.value))
  {
    hide Pushed, Built, Joined, Completion, Pieced, Carried;
    PushedIsCompletion(a, f);
    var (next, r) := Pushed(a, f);
    if r.Ok? && r.value.Some? { CompletionIsPieced(sent, next); }
  }

  lemma ConcludedIsBuilt(sent: set<Fragment>, server: Sender.Sender, t: Transport, header: FragmentHeader,
                         pushed: Accumulated,
                         r: Result<Option<seq<byte>>, FragmentError>, decode: Decoder)
    requires AllBuilt(sent, t) && pushed.stateId == header.stateId && Built(sent, pushed)
    requires r.Ok? && r.value.Some? ==> Carried(server, decode(r.value.value))
    ensures var (next, receipt) := Concluded(t, header, pushed, r, decode);
            AllBuilt(sent, next) && (receipt.Ok? ==> Carried(server, receipt.value.update))
  {
    hide Built, Sender.Carries;
  }

  /** Behind every update a packet completes stands a slice of the server's log. */
  lemma TakeKeepsBuilt(sent: set<Fragment>, server: Sender.Sender, t: Transport, packet: Packet, decode: Decoder)
    requires AllBuilt(sent, t) && FromServer(sent, packet) && Understood(sent, server, decode)
    ensures var (next, r) := Take(t, packet, decode);
            AllBuilt(sent, next) && (r.Ok? ==> Carried(server, r.value.update))
  {
    hide Assemble, Built, Understood, Opened, Parse, Acceptable, Sender.Carries;
    var plain := Opened(Client, packet);
    if plain.Ok? {
      var (counter, plaintext) := plain.value;
      if |plaintext| >= MINIMUM_FRAGMENT_PLAINTEXT_BYTES && Parse(plaintext).Ok? {
        var stamped := Noted(t, counter).(peerTimestamp := Some(FromBigEndian16(plaintext[0..2])));
        AssembleKeepsBuilt(sent, server, stamped, Parse(plaintext).value, decode);
      }
    }
  }

  // ---- Whole sessions -------------------------------------------------------

  type Remote = RemoteState.Remote

  /** A packet arrives, or the host makes a call of its own. */
  datatype Call = Arrival(packet: Packet, now: nat) | Own(event: Event<Remote>)

  function Begin(t: RemoteState.Terminal, size: Operations.Size, now: nat): (w: Whole<Remote>)
    ensures Inv(w.session)
  {
    Whole(Transport({}, None, map[], None), Begun(RemoteState.New(t, size), now))
  }

  ghost function Called(t: RemoteState.Terminal, w: Whole<Remote>, call: Call, decode: Decoder)
    : (Whole<Remote>, seq<Effect>)
    requires Inv(w.session)
  {
    InvIsValid(w.session);
    match call
    case Arrival(packet, now) =>
      var (next, r) := ReceivePacket(HostEffects.TerminalRules(t), w, packet, now, decode);
      (next, if r.Ok? then r.value else [])
    case Own(event) =>
      var (session, effects) := Step(HostEffects.TerminalRules(t), w.session, event);
      (w.(session := session), effects)
  }

  lemma CalledKeepsInv(t: RemoteState.Terminal, w: Whole<Remote>, call: Call, decode: Decoder)
    requires Inv(w.session)
    ensures Inv(Called(t, w, call, decode).0.session)
  {
    hide Inv, Receive, Step, Take;
    InvIsValid(w.session);
    match call {
      case Arrival(packet, now) =>
        ReceiveKeepsInv(HostEffects.TerminalRules(t), w.session, AsDatagram(Take(w.transport, packet, decode).1), now);
      case Own(event) => StepKeepsInv(HostEffects.TerminalRules(t), w.session, event);
    }
  }

  /** The session after the calls, and everything they returned to the host. */
  ghost function CallAll(t: RemoteState.Terminal, start: Whole<Remote>, calls: seq<Call>, decode: Decoder)
    : (r: (Whole<Remote>, seq<Effect>))
    requires Inv(start.session)
    ensures Inv(r.0.session)
  {
    if calls == [] then (start, [])
    else
      var (before, effects) := CallAll(t, start, calls[..|calls| - 1], decode);
      CalledKeepsInv(t, before, calls[|calls| - 1], decode);
      var (next, more) := Called(t, before, calls[|calls| - 1], decode);
      (next, effects + more)
  }

  /**
   Packets bring only fragments the server sent, and resizes start the terminal over empty and
   at least one cell wide and high.
   */
  predicate Sensible(t: RemoteState.Terminal, sent: set<Fragment>, call: Call) {
    match call
    case Arrival(packet, _) => FromServer(sent, packet)
    case Own(event) =>
      && !event.Datagrams?
      && (event.ResizeInput? ==>
            event.blank == RemoteState.New(t, Viewport(Max(event.columns, 1), Max(event.rows, 1))))
  }

  /** At whatever size a terminal starts, the server's output fits the retention limits. */
  ghost predicate FitsAnySize(log: seq<Instruction>) {
    forall size: Operations.Size :: HostEffects.FitsWhole(log, size)
  }

  /** A server with one log, whose fragments cannot be misunderstood. */
  ghost predicate Serves(server: Sender.Sender, sent: set<Fragment>, decode: Decoder) {
    && Sender.Valid(server) && 0 in server.ends && server.ends[0] == 0
    && FitsAnySize(server.log) && Understood(sent, server, decode)
  }

  /** Every retained state is the replay of the server's log it stands for, from the size the terminal began with. */
  predicate Holds(t: RemoteState.Terminal, server: Sender.Sender, c: HostEffects.Client) {
    R.Inv(c) && HostEffects.HoldsReplays(t, server, c, c.delivered.initial)
  }

  ghost predicate Good(t: RemoteState.Terminal, server: Sender.Sender, sent: set<Fragment>, w: Whole<Remote>,
                       heard: seq<Operations.Symbol>)
  {
    AllBuilt(sent, w.transport) && Holds(t, server, w.session.remote) && HostRuns.HeardSo(w.session, heard)
  }

  lemma NewHolds(t: RemoteState.Terminal, server: Sender.Sender, size: Operations.Size)
    requires Sender.Valid(server) && 0 in server.ends && server.ends[0] == 0
    ensures Holds(t, server, R.New(RemoteState.New(t, size)))
  {
    hide Sender.Valid, HostEffects.HoldsReplays, R.Inv;
    HostEffects.StartHolds(t, server, size);
    R.NewInv(RemoteState.New(t, size));
  }

  lemma UpdateKeepsHolds(t: RemoteState.Terminal, server: Sender.Sender, c: HostEffects.Client, u: StateUpdate)
    requires Sender.Valid(server) && Sender.Carries(server, u) && FitsAnySize(server.log) && Holds(t, server, c)
    ensures Holds(t, server, HostEffects.Step(t, c, u).0) && !HostEffects.UsesScreenDiff(t, c, u)
  {
    hide Sender.Valid, Sender.Carries, HostEffects.Step, HostEffects.UsesScreenDiff, HostEffects.FitsWhole, R.Inv;
    var size := c.delivered.initial;
    assert HostEffects.FitsWhole(server.log, size);
    HostEffects.SliceStep(t, server, c, size, u);
    StepIsAccept(t, c, u);
    R.AcceptKeepsInv(HostEffects.TerminalRules(t), c, u);
    HeldSize(t, server, HostEffects.Step(t, c, u).0, size);
  }

  lemma StepIsAccept(t: RemoteState.Terminal, c: HostEffects.Client, u: StateUpdate)
    ensures HostEffects.Step(t, c, u).0 == R.Accept(HostEffects.TerminalRules(t), c, u).0
  {
    hide R.Accept;
  }

  lemma HeldSize(t: RemoteState.Terminal, server: Sender.Sender, c: HostEffects.Client, size: Operations.Size)
    requires HostEffects.HoldsReplays(t, server, c, size)
    ensures c.delivered.initial == size
  {
  }

  lemma ResizeKeepsHolds(t: RemoteState.Terminal, server: Sender.Sender, c: HostEffects.Client, size: Operations.Size)
    requires Sender.Valid(server) && 0 in server.ends && server.ends[0] == 0 && Holds(t, server, c)
    ensures Holds(t, server, R.Rebaselined(c, RemoteState.New(t, size)))
  {
    hide Sender.Valid, Holds, R.Rebaselined;
    assert R.Inv(c) by { HoldsInv(t, server, c); }
    R.RebaselinedIs(c, RemoteState.New(t, size));
    NewHolds(t, server, size);
  }

  lemma HoldsInv(t: RemoteState.Terminal, server: Sender.Sender, c: HostEffects.Client)
    requires Holds(t, server, c)
    ensures R.Inv(c)
  {
  }

  // ---- What the host is told ------------------------------------------------

  /** Not taking a datagram in leaves everything remote alone and says nothing to the host's terminal. */
  lemma PlainDatagram(t: RemoteState.Terminal, server: Sender.Sender, s: State<Remote>, datagram: Datagram, now: nat)
    requires Sender.Valid(server) && FitsAnySize(server.log) && Holds(t, server, s.remote)
    requires datagram.Full? ==> Sender.Carries(server, datagram.update)
    ensures HostRuns.Plain(t, s, Datagrams(datagram, now))
  {
    hide Sender.Valid, Sender.Carries, Holds, FitsAnySize, HostEffects.UsesScreenDiff;
    if datagram.Full? { UpdateKeepsHolds(t, server, s.remote, datagram.update); }
  }

  lemma ReceiveKeepsHolds(t: RemoteState.Terminal, server: Sender.Sender, s: State<Remote>, datagram: Datagram,
                          now: nat)
    requires Sender.Valid(server) && FitsAnySize(server.log) && Holds(t, server, s.remote)
    requires datagram.Full? ==> Sender.Carries(server, datagram.update)
    ensures Holds(t, server, Receive(HostEffects.TerminalRules(t), s, datagram, now).0.remote)
  {
    hide Receive, Sender.Valid, Sender.Carries, Holds, FitsAnySize, R.Accept;
    ReceivedRemote(HostEffects.TerminalRules(t), s, datagram, now);
    if datagram.Full? {
      UpdateKeepsHolds(t, server, s.remote, datagram.update);
      StepIsAccept(t, s.remote, datagram.update);
    }
  }

  lemma ReceivedRemote<S>(rules: R.Rules<S>, s: State<S>, datagram: Datagram, now: nat)
    ensures Receive(rules, s, datagram, now).0.remote
            == if datagram.Full? && s.lifecycle == Running then R.Accept(rules, s.remote, datagram.update).0
              else s.remote
  {
    hide R.Accept, Sender.Acknowledged, HostEffects.Told;
  }

  /** Of the host's own calls only a resize that is taken touches remote state. */
  lemma OwnRemote<S>(rules: R.Rules<S>, s: State<S>, event: Event<S>)
    requires Sender.Valid(s.local) && !event.Datagrams?
    ensures Step(rules, s, event).0.remote
            == if event.ResizeInput? && InputRefusal(s).None? then R.Rebaselined(s.remote, event.blank) else s.remote
  {
    hide Sender.Valid, R.Rebaselined, Poll;
    if event.PollAt? { Shutdown.PollAnswers(s, event.now, event.encoding); }
  }

  lemma OwnKeepsHolds(t: RemoteState.Terminal, server: Sender.Sender, sent: set<Fragment>, s: State<Remote>,
                      event: Event<Remote>)
    requires Sender.Valid(server) && 0 in server.ends && server.ends[0] == 0 && Holds(t, server, s.remote)
    requires Sender.Valid(s.local) && Sensible(t, sent, Own(event))
    ensures Holds(t, server, Step(HostEffects.TerminalRules(t), s, event).0.remote) && HostRuns.Plain(t, s, event)
  {
    hide Sender.Valid, Holds, R.Rebaselined, Step;
    OwnRemote(HostEffects.TerminalRules(t), s, event);
    if event.ResizeInput? {
      ResizeKeepsHolds(t, server, s.remote, Viewport(Max(event.columns, 1), Max(event.rows, 1)));
    }
  }

  /** Every call, and every packet whatever becomes of it, keeps the host exactly informed. */
  lemma CalledKeepsGood(t: RemoteState.Terminal, server: Sender.Sender, sent: set<Fragment>, w: Whole<Remote>,
                        call: Call,
                        decode: Decoder, heard: seq<Operations.Symbol>)
    requires Inv(w.session) && Serves(server, sent, decode) && Good(t, server, sent, w, heard)
             && Sensible(t, sent, call)
    ensures var (next, effects) := Called(t, w, call, decode);
            Good(t, server, sent, next, heard + HostRuns.Heard(effects))
  {
    hide Inv, AllBuilt, Holds, HostRuns.HeardSo, Understood, FitsAnySize, FromServer, HostRuns.Plain, Receive, Take,
         Step, HostRuns.Heard;
    match call {
      case Arrival(packet, now) =>
        TakeKeepsBuilt(sent, server, w.transport, packet, decode);
        var datagram := AsDatagram(Take(w.transport, packet, decode).1);
        PlainDatagram(t, server, w.session, datagram, now);
        ReceiveKeepsHolds(t, server, w.session, datagram, now);
        HostRuns.ReceiveIsHeard(t, w.session, datagram, now, heard);
        NothingHeard(heard);
      case Own(event) =>
        InvIsValid(w.session);
        OwnKeepsHolds(t, server, sent, w.session, event);
        HostRuns.StepIsHeard(t, w.session, event, heard);
    }
  }

  lemma NothingHeard(heard: seq<Operations.Symbol>)
    ensures heard + HostRuns.Heard([]) == heard
  {
  }

  lemma {:induction false} AllCallsKeepGood(t: RemoteState.Terminal, server: Sender.Sender, sent: set<Fragment>,
                                            size: Operations.Size, now: nat, calls: seq<Call>, decode: Decoder)
    requires Serves(server, sent, decode) && forall i :: 0 <= i < |calls| ==> Sensible(t, sent, calls[i])
    ensures var (w, effects) := CallAll(t, Begin(t, size, now), calls, decode);
            Good(t, server, sent, w, HostRuns.Heard(effects))
  {
    hide Inv, Good, Serves, Called, HostRuns.Heard, Sensible;
    if calls == [] {
      BeginIsGood(t, server, sent, size, now, decode);
    } else {
      var n := |calls| - 1;
      AllCallsKeepGood(t, server, sent, size, now, calls[..n], decode);
      var (before, effects) := CallAll(t, Begin(t, size, now), calls[..n], decode);
      CalledKeepsGood(t, server, sent, before, calls[n], decode, HostRuns.Heard(effects));
      HostRuns.HeardConcat(effects, Called(t, before, calls[n], decode).1);
    }
  }

  lemma BeginIsGood(t: RemoteState.Terminal, server: Sender.Sender, sent: set<Fragment>, size: Operations.Size,
                    now: nat, decode: Decoder)
    requires Serves(server, sent, decode)
    ensures Good(t, server, sent, Begin(t, size, now), HostRuns.Heard([]))
  {
    hide Holds, Sender.Valid, FitsAnySize, Understood;
    NewHolds(t, server, size);
  }

  /**
   End to end, from packets to host actions. Whatever is lost, repeated, reordered, forged or
   garbled on the way, whatever the fragments are put together to, and whatever the host calls
   in between: the bytes, sizes and controls returned to the host are together exactly the
   operations of the server's log up to the latest remote state, each once and in order, and a
   terminal of the size the session began with that performs them shows the server's screen.
   */
  lemma HostHearsServerLog(t: RemoteState.Terminal, server: Sender.Sender, sent: set<Fragment>, size: Operations.Size,
                           now: nat,
                           calls: seq<Call>, decode: Decoder)
    requires Serves(server, sent, decode) && forall i :: 0 <= i < |calls| ==> Sensible(t, sent, calls[i])
    ensures var (w, effects) := CallAll(t, Begin(t, size, now), calls, decode);
            var (latest, began) := (w.session.remote.latest, w.session.remote.delivered.initial);
            && latest in server.ends && server.ends[latest] <= |server.log|
            && RemoteState.ValidBatch(HostEffects.Prefix(server, latest))
            && HostRuns.Heard(effects)
               == Operations.Flatten(RemoteState.BatchOperations(HostEffects.Prefix(server, latest), began))
            && t.ReplaySymbols(t.blank(began), HostRuns.Heard(effects)) == w.session.remote.delivered.screen
  {
    hide CallAll, Inv, Sensible, Serves, HostRuns.Heard, R.Inv;
    AllCallsKeepGood(t, server, sent, size, now, calls, decode);
    var (w, effects) := CallAll(t, Begin(t, size, now), calls, decode);
    HeldIsShown(t, server, w.session.remote);
  }

  lemma HeldIsShown(t: RemoteState.Terminal, server: Sender.Sender, c: HostEffects.Client)
    requires Holds(t, server, c)
    ensures var (latest, began) := (c.latest, c.delivered.initial);
            && latest in server.ends && server.ends[latest] <= |server.log|
            && RemoteState.ValidBatch(HostEffects.Prefix(server, latest))
            && HostEffects.Told(c.delivered)
               == Operations.Flatten(RemoteState.BatchOperations(HostEffects.Prefix(server, latest), began))
            && t.ReplaySymbols(t.blank(began), HostEffects.Told(c.delivered)) == c.delivered.screen
  {
    hide R.Inv;
    RemoteState.ReplayIsSymbols(t, t.blank(c.delivered.initial), c.delivered.history.operations);
  }

  /** And an update whose last missing fragment gets through reaches the runtime as it was sealed. */
  lemma CompletedUpdateIsReceived<S>(rules: R.Rules<S>, w: Whole<S>, s: Sealing, k: nat, now: nat, decode: Decoder)
    requires CanSeal(s) && k < ChunkCount(s.content.message) && Agreeing(s.content, w.transport)
    requires w.session.lifecycle == Running && Gets(s, w.transport, k) && decode(s.content.message).Some?
    ensures var here := With(ProgressOf(Assembly(w.transport, s.content.stateId)), k, ChunkCount(s.content.message));
            var (next, r) := ReceivePacket(rules, w, PacketOfSealing(s, k), now, decode);
            (next.session, r) == Receive(rules, w.session,
              if IsComplete(here, ChunkCount(s.content.message)) then Full(s.echoed, decode(s.content.message).value)
                else Bare(s.echoed),
              now)
  {
    hide Take, Receive, Agreeing, IsComplete, With, Gets, ChunkCount, PacketOfSealing, ProgressOf, Assembly;
    OursStep(s, w.transport, k, decode);
  }

  // ---- The object -----------------------------------------------------------

  /** The packet path and the runtime as one object, as the host holds it. */
  class PacketRuntime<S(!new)> {
    const packets: PacketIngest
    const runtime: RuntimeObject.SessionRuntime<S>

    ghost predicate Valid()
      reads packets, packets.window, packets.assemblies.Values, runtime, runtime.protocol, runtime.estimator
    {
      packets.Valid() && runtime.Valid()
    }

    ghost function Value(): Whole<S>
      reads packets, packets.window, packets.assemblies.Values, runtime, runtime.protocol, runtime.estimator
    {
      Whole(packets.Value(), runtime.Value())
    }

    constructor (rules: R.Rules<S>, initial: S, now: nat, decode: Decoder)
      ensures Valid() && fresh(packets) && fresh(runtime)
      ensures runtime.protocol.rules == rules && packets.decode == decode
      ensures Value() == Whole(Transport({}, None, map[], None), Begun(initial, now))
    {
      packets := new PacketIngest(decode);
      runtime := new RuntimeObject.SessionRuntime(rules, initial, now);
    }

    method ReceiveDatagram(packet: Packet, now: nat) returns (r: Result<seq<Effect>, RuntimeError>)
      requires Valid()
      modifies packets, packets.window, packets.assemblies.Values, runtime, runtime.protocol, runtime.estimator
      ensures Valid() && fresh(packets.assemblies.Values - old(packets.assemblies.Values))
      ensures Value() == ReceivePacket(runtime.protocol.rules, old(Value()), packet, now, packets.decode).0
      ensures r == ReceivePacket(runtime.protocol.rules, old(Value()), packet, now, packets.decode).1
    {
      hide Take, Receive, Inv, Bounded;
      if runtime.lifecycle == Paused { return Err(SessionPaused); }
      if runtime.lifecycle == Cancelled { return Err(SessionCancelled); }
      var receipt := packets.IngestPacket(packet);
      r := runtime.ReceiveDatagram(AsDatagram(receipt), now);
    }
  }
}
