/**
 A sender and a peer that runs the receive rule, over a network that may lose,
 repeat and reorder everything either of them says.
 */
module TwoParty {
  import opened Prelude
  import opened Wire
  import opened Sender
  import R = Receiver
  import RemoteState

  type Log = seq<Instruction>

  /**
   The peer's states are the instructions applied so far, so any peer whose state
   is a fold over instructions behaves like this one; `refuses` says which
   batches it rejects (a bad viewport, a full history, ...).
   */
  function PeerRules(refuses: (Log, Log) -> bool): R.Rules<Log> {
    R.Rules(
      state => state,
      (state, batch) => if refuses(state, batch) then Err(RemoteState.HistoryLimitExceeded) else Ok(state + batch),
      (target: Log, delivered: Log) => if delivered <= target then Some(target[|delivered|..]) else None)
  }

  /** `wire` and `acks` hold everything ever said: what is never delivered is lost, what is delivered stays. */
  datatype System = System(sender: Sender, peer: R.Receiver<Log>, wire: set<StateUpdate>, acks: set<u64>)

  const START := System(NEW, R.New([]), {}, {})

  datatype Step =
    | Send(action: Action, remote: u64)   // the sender builds or repeats an update
    | Deliver(update: StateUpdate)        // something once sent reaches the peer
    | PeerAcknowledges                    // the peer reports its latest state
    | DeliverAck(id: u64)                 // some such report reaches the sender

  function Next(refuses: (Log, Log) -> bool, s: System, step: Step): System
    requires Valid(s.sender)
  {
    match step
    case Send(action, remote) =>
      if action.Acknowledge? then s
      else
        var (sender, update) := Act(s.sender, action, remote);
        s.(sender := sender, wire := s.wire + if update.Some? then {update.value} else {})
    case Deliver(update) =>
      if update !in s.wire then s else s.(peer := R.Accept(PeerRules(refuses), s.peer, update).0)
    case PeerAcknowledges => s.(acks := s.acks + {s.peer.latest})
    case DeliverAck(id) => if id !in s.acks then s else s.(sender := Acknowledged(s.sender, id))
  }

  // ---- Invariant ------------------------------------------------------------

  /** Every state the peer holds is the prefix of the log its id stands for, and the newest is the latest. */
  predicate HoldsPrefixes(sender: Sender, peer: R.Receiver<Log>) {
    && (forall id :: id in peer.received ==>
          id in sender.ends && sender.ends[id] <= |sender.log|
          && peer.received[id] == sender.log[..sender.ends[id]] && id <= peer.latest)
    && peer.latest in peer.received && peer.delivered == peer.received[peer.latest]
  }

  /** The sender's confirmed state is one the peer still holds, and the peer has pruned nothing from it on. */
  predicate FrontIsHeld(sender: Sender, peer: R.Receiver<Log>)
    requires sender.marks != []
  {
    peer.floor <= Front(sender).id && Front(sender).id in peer.received
  }

  predicate WireIsSound(s: System)
    requires s.sender.marks != []
  {
    forall u :: u in s.wire ==> Carries(s.sender, u) && u.discardBefore <= Front(s.sender).id
  }

  /** An acknowledgement on its way names a state that is held, or one the sender is already past. */
  predicate AcksAreSound(s: System) {
    forall id :: id in s.acks ==> id in s.peer.received || id < s.peer.floor
  }

  predicate Inv(s: System) {
    && Valid(s.sender) && R.Valid(s.peer)
    && HoldsPrefixes(s.sender, s.peer)
    && FrontIsHeld(s.sender, s.peer)
    && WireIsSound(s)
    && AcksAreSound(s)
  }

  lemma SendKeepsInv(s: System, action: Action, remote: u64)
    requires Inv(s) && !action.Acknowledge?
    ensures var (sender, update) := Act(s.sender, action, remote);
            Inv(s.(sender := sender, wire := s.wire + if update.Some? then {update.value} else {}))
  {
    hide Act, Ordered, Agree, Monotone, R.Valid;
    var (sender, update) := Act(s.sender, action, remote);
    var next := s.(sender := sender, wire := s.wire + if update.Some? then {update.value} else {});
    ActIsSound(s.sender, action, remote);
    FrontStays(s.sender, action, remote);
    assert HoldsPrefixes(sender, s.peer) by {
      forall id | id in s.peer.received ensures s.peer.received[id] == sender.log[..sender.ends[id]] {
        SliceOfPrefix(s.sender.log, sender.log, 0, s.sender.ends[id]);
      }
    }
    forall u | u in next.wire ensures Carries(sender, u) && u.discardBefore <= Front(sender).id {
      if u in s.wire { CarriesStays(s.sender, sender, u); }
    }
  }

  /** Only an acknowledgement moves the confirmed state. */
  lemma FrontStays(s: Sender, action: Action, remote: u64)
    requires Valid(s) && !action.Acknowledge?
    ensures Valid(Act(s, action, remote).0) && Front(Act(s, action, remote).0) == Front(s)
  {
    ActIsSound(s, action, remote);
    match action {
      case Fresh(batch) =>
        if Enabled(s, action) { SentIsValid(s.(next := s.next + 1), batch, s.next); }
      case Shutdown(batch) =>
        if Enabled(s, action) { SentIsValid(s, batch, SHUTDOWN_STATE); }
      case _ =>
    }
  }

  /** Applying a carried slice to the prefix its base stands for gives the prefix its target stands for. */
  lemma SliceExtendsPrefix(s: Sender, u: StateUpdate)
    requires Carries(s, u)
    ensures s.log[..s.ends[u.base]] + u.delta == s.log[..s.ends[u.target]]
  {
    var a, b := s.ends[u.base], s.ends[u.target];
    assert s.log[..a] + s.log[a..b] == s.log[..b];
  }

  function Prefix(s: Sender, id: u64): Log
    requires id in s.ends && s.ends[id] <= |s.log|
  {
    s.log[..s.ends[id]]
  }

  /** Whether the peer gets to store the update's target: it is understood, not refused, and there is room. */
  predicate Stores(refuses: (Log, Log) -> bool, peer: R.Receiver<Log>, u: StateUpdate) {
    R.Reaches(PeerRules(refuses), peer, u)
    && |R.Pruned(peer.received, Max(peer.floor, u.discardBefore))| < R.MAXIMUM_RECEIVED_STATES
  }

  /** What an honest update does to a sound peer: at most prune below the confirmed state, and store one more prefix. */
  lemma HonestDelivery(refuses: (Log, Log) -> bool, s: System, u: StateUpdate)
    requires Inv(s) && u in s.wire
    ensures var peer := R.Accept(PeerRules(refuses), s.peer, u).0;
            var floor := Max(s.peer.floor, u.discardBefore);
            var kept := R.Pruned(s.peer.received, floor);
            if !R.Reaches(PeerRules(refuses), s.peer, u) then peer == s.peer
            else if !Stores(refuses, s.peer, u) then peer == s.peer.(received := kept, floor := floor)
            else
              peer == R.Receiver(kept[u.target := Prefix(s.sender, u.target)], floor, Max(s.peer.latest, u.target),
                                 if u.target > s.peer.latest then Prefix(s.sender, u.target) else s.peer.delivered)
  {
    if R.Reaches(PeerRules(refuses), s.peer, u) {
      SliceExtendsPrefix(s.sender, u);
      assert s.peer.received[u.base] == Prefix(s.sender, u.base);
      if u.target > s.peer.latest {
        assert s.peer.delivered == Prefix(s.sender, s.peer.latest);
        assert s.peer.delivered <= Prefix(s.sender, u.target);
      }
    }
  }

  lemma DeliverKeepsInv(refuses: (Log, Log) -> bool, s: System, u: StateUpdate)
    requires Inv(s) && u in s.wire
    ensures Inv(s.(peer := R.Accept(PeerRules(refuses), s.peer, u).0))
  {
    HonestDelivery(refuses, s, u);
    R.AcceptKeepsRetention(PeerRules(refuses), s.peer, u);
    var peer := R.Accept(PeerRules(refuses), s.peer, u).0;
    assert u.discardBefore <= Front(s.sender).id <= s.peer.latest;
    PeerStaysSound(s, u, peer);
  }

  lemma PeerStaysSound(s: System, u: StateUpdate, peer: R.Receiver<Log>)
    requires Inv(s) && u.target in s.sender.ends && s.sender.ends[u.target] <= |s.sender.log|
    requires u.discardBefore <= Front(s.sender).id && R.Valid(peer)
    requires var floor := Max(s.peer.floor, u.discardBefore);
             var kept := R.Pruned(s.peer.received, floor);
             || peer == s.peer
             || peer == s.peer.(received := kept, floor := floor)
             || peer == R.Receiver(kept[u.target := Prefix(s.sender, u.target)], floor, Max(s.peer.latest, u.target),
                                   if u.target > s.peer.latest then Prefix(s.sender, u.target) else s.peer.delivered)
    ensures Inv(s.(peer := peer))
  {
    hide Valid, R.Valid, Carries;
  }

  lemma AckKeepsInv(s: System, id: u64)
    requires Inv(s) && id in s.acks
    ensures Inv(s.(sender := Acknowledged(s.sender, id)))
  {
    AcknowledgedIsValid(s.sender, id);
    var sender := Acknowledged(s.sender, id);
    forall u | u in s.wire ensures Carries(sender, u) {
      CarriesStays(s.sender, sender, u);
    }
  }

  lemma NextKeepsInv(refuses: (Log, Log) -> bool, s: System, step: Step)
    requires Inv(s)
    ensures Inv(Next(refuses, s, step))
  {
    match step {
      case Send(action, remote) => if !action.Acknowledge? { SendKeepsInv(s, action, remote); }
      case Deliver(u) => if u in s.wire { DeliverKeepsInv(refuses, s, u); }
      case PeerAcknowledges =>
      case DeliverAck(id) => if id in s.acks { AckKeepsInv(s, id); }
    }
  }

  function Run(refuses: (Log, Log) -> bool, steps: seq<Step>): (s: System)
    ensures Inv(s)
  {
    if steps == [] then START
    else
      var before := Run(refuses, steps[..|steps| - 1]);
      NextKeepsInv(refuses, before, steps[|steps| - 1]);
      Next(refuses, before, steps[|steps| - 1])
  }

  // ---- Consequences over every run -----------------------------------------

  /** The peer always still holds the sender's confirmed state, as exactly the confirmed input. */
  lemma ConfirmedStateIsHeld(refuses: (Log, Log) -> bool, steps: seq<Step>)
    ensures var s := Run(refuses, steps);
            var front := Front(s.sender);
            front.id in s.peer.received && front.end <= |s.sender.log|
            && s.peer.received[front.id] == s.sender.log[..front.end]
  {
    var s := Run(refuses, steps);
    assert s.sender.ends[s.sender.marks[0].id] == s.sender.marks[0].end;
  }

  /** What the peer has delivered is a prefix of the input: each instruction once, in order. */
  lemma DeliveredIsPrefixOfInput(refuses: (Log, Log) -> bool, steps: seq<Step>)
    ensures var s := Run(refuses, steps); s.peer.delivered <= s.sender.log
  {
    var s := Run(refuses, steps);
    assert s.peer.latest in s.peer.received;
  }

  lemma Understood(refuses: (Log, Log) -> bool, s: System, remote: u64)
    requires Inv(s) && Pending(s.sender)
    ensures var u := Retransmission(s.sender, remote);
            && u.base in s.peer.received && u.discardBefore <= u.base < u.target
            && R.Accept(PeerRules(refuses), s.peer, u).1 != Err(R.InvalidStateTransition)
            && (u.target !in s.peer.received ==>
                  (R.Accept(PeerRules(refuses), s.peer, u).1.Ok? <==> Stores(refuses, s.peer, u)))
  {
  }

  /**
   A retransmission is never refused for an unknown base or a bad transition: the
   peer already holds its target, or stores it, or its own apply or cap refuses it.
   */
  lemma RetransmissionIsUnderstood(refuses: (Log, Log) -> bool, steps: seq<Step>, remote: u64)
    requires Pending(Run(refuses, steps).sender)
    ensures var s := Run(refuses, steps);
            var u := Retransmission(s.sender, remote);
            && u.base in s.peer.received && u.discardBefore <= u.base < u.target
            && R.Accept(PeerRules(refuses), s.peer, u).1 != Err(R.InvalidStateTransition)
            && (u.target !in s.peer.received ==>
                  (R.Accept(PeerRules(refuses), s.peer, u).1.Ok? <==> Stores(refuses, s.peer, u)))
  {
    Understood(refuses, Run(refuses, steps), remote);
  }

  /** The peer after one delivered retransmission, and the sender after the acknowledgement of its latest state. */
  function Recovered(refuses: (Log, Log) -> bool, s: System, remote: u64): System
    requires Valid(s.sender)
  {
    var peer := R.Accept(PeerRules(refuses), s.peer, Retransmission(s.sender, remote)).0;
    s.(sender := Acknowledged(s.sender, peer.latest), peer := peer)
  }

  /** There is room below the cap, and the peer does not refuse what the retransmission carries. */
  predicate CanRecover(refuses: (Log, Log) -> bool, s: System, remote: u64)
    requires Inv(s)
  {
    |s.peer.received| < R.MAXIMUM_RECEIVED_STATES
    && !refuses(s.peer.received[Front(s.sender).id], Retransmission(s.sender, remote).delta)
  }

  lemma NewestReachesPeer(refuses: (Log, Log) -> bool, s: System, remote: u64)
    requires Inv(s) && Pending(s.sender) && CanRecover(refuses, s, remote)
    ensures var peer := R.Accept(PeerRules(refuses), s.peer, Retransmission(s.sender, remote)).0;
            peer.latest == Back(s.sender).id && peer.delivered == s.sender.log
  {
    var u := Retransmission(s.sender, remote);
    RepeatIsSound(s.sender, remote);
    Understood(refuses, s, remote);
    var sent := s.(wire := s.wire + {u});
    assert Inv(sent);
    HonestDelivery(refuses, sent, u);
    DeliverKeepsInv(refuses, sent, u);
    assert u.target == Back(s.sender).id && Prefix(s.sender, u.target) == s.sender.log;
    if u.target in s.peer.received {
      assert s.peer.received[s.peer.latest] == Prefix(s.sender, s.peer.latest);
    } else {
      assert Stores(refuses, s.peer, u);
    }
  }

  lemma LastPosition(marks: seq<Mark>)
    requires marks != [] && Ordered(marks)
    ensures Position(marks, marks[|marks| - 1].id) == Some(|marks| - 1)
  {
  }

  /**
   From any reachable state, below the cap and unless the peer refuses the batch,
   one delivered retransmission and one delivered acknowledgement clear everything
   pending, and leave the peer with the whole input.
   */
  lemma OneRoundTripRecovers(refuses: (Log, Log) -> bool, steps: seq<Step>, remote: u64)
    requires Pending(Run(refuses, steps).sender) && CanRecover(refuses, Run(refuses, steps), remote)
    ensures var s := Recovered(refuses, Run(refuses, steps), remote);
            && !Pending(s.sender) && s.peer.latest == Back(s.sender).id && s.peer.delivered == s.sender.log
  {
    var s := Run(refuses, steps);
    NewestReachesPeer(refuses, s, remote);
    LastPosition(s.sender.marks);
  }
}
