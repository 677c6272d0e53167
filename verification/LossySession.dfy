/**
 The session runtime at one end of a network that loses, repeats and reorders, and a peer that runs
 the receive rule at the other: every run of host calls is a run of the two parties.
 */
module LossySession {
  import opened Prelude
  import opened Wire
  import opened Sender
  import opened Runtime
  import opened RuntimeRuns
  import R = Receiver
  import InputQueue
  import Shutdown
  import TwoParty

  type Log = TwoParty.Log

  /** `wire` and `acks` hold everything ever said; what is never delivered is lost. */
  datatype Link<S> = Link(session: State<S>, peer: R.Receiver<Log>, wire: set<StateUpdate>, acks: set<u64>)

  /** The updates in the datagrams among the effects. */
  function Spoken(effects: seq<Effect>): set<StateUpdate> {
    set k | 0 <= k < |effects| && effects[k].SendDatagram? :: effects[k].update
  }

  datatype Move<S> =
    | Call(event: Event<S>)          // the host calls, or hands in a datagram
    | Deliver(update: StateUpdate)   // something once sent reaches the peer
    | PeerAcknowledges               // the peer reports its latest state

  /** A datagram acknowledges something the peer has reported. */
  predicate Possible<S>(link: Link<S>, event: Event<S>) {
    event.Datagrams? && event.datagram.Full? ==> event.datagram.update.acknowledged in link.acks
  }

  ghost function Moved<S>(rules: R.Rules<S>, refuses: (Log, Log) -> bool, link: Link<S>, move: Move<S>): Link<S>
    requires Valid(link.session.local)
  {
    match move
    case Call(event) =>
      if !Possible(link, event) then link
      else
        var (session, effects) := Step(rules, link.session, event);
        link.(session := session, wire := link.wire + Spoken(effects))
    case Deliver(u) =>
      if u !in link.wire then link else link.(peer := R.Accept(TwoParty.PeerRules(refuses), link.peer, u).0)
    case PeerAcknowledges => link.(acks := link.acks + {link.peer.latest})
  }

  function Open<S>(initial: S, now: nat): (link: Link<S>)
    ensures Inv(link.session)
  {
    Link(Begun(initial, now), R.New([]), {}, {})
  }

  lemma MovedKeepsInv<S>(rules: R.Rules<S>, refuses: (Log, Log) -> bool, link: Link<S>, move: Move<S>)
    requires Inv(link.session)
    ensures Valid(link.session.local) && Inv(Moved(rules, refuses, link, move).session)
  {
    hide Inv, Step, Valid;
    InvIsValid(link.session);
    if move.Call? { StepKeepsInv(rules, link.session, move.event); }
  }

  ghost function RunLink<S>(rules: R.Rules<S>, refuses: (Log, Log) -> bool, start: Link<S>, moves: seq<Move<S>>)
    : (link: Link<S>)
    requires Inv(start.session)
    ensures Inv(link.session)
  {
    if moves == [] then start
    else
      var before := RunLink(rules, refuses, start, moves[..|moves| - 1]);
      MovedKeepsInv(rules, refuses, before, moves[|moves| - 1]);
      Moved(rules, refuses, before, moves[|moves| - 1])
  }

  // ---- A poll as sender actions --------------------------------------------

  /** The sender after some actions, and what they sent. */
  function Acts(s: Sender, actions: seq<Action>, remote: u64): (r: (Sender, set<StateUpdate>))
    requires Valid(s)
    ensures Valid(r.0)
  {
    if actions == [] then (s, {})
    else
      var (before, sent) := Acts(s, actions[..|actions| - 1], remote);
      ActIsSound(before, actions[|actions| - 1], remote);
      var (next, update) := Act(before, actions[|actions| - 1], remote);
      (next, sent + if update.Some? then {update.value} else {})
  }

  lemma ActsOne(s: Sender, action: Action, remote: u64)
    requires Valid(s)
    ensures Acts(s, [action], remote)
            == (Act(s, action, remote).0,
                if Act(s, action, remote).1.Some? then {Act(s, action, remote).1.value} else {})
  {
    hide Act, Valid;
    assert [action][..0] == [];
    Nothing(if Act(s, action, remote).1.Some? then {Act(s, action, remote).1.value} else {});
  }

  lemma Nothing(sent: set<StateUpdate>)
    ensures {} + sent == sent == sent + {}
  {
  }

  lemma ActsBeatFirst(s: Sender, main: seq<Action>, remote: u64)
    requires Valid(s) && |main| <= 1
    ensures var (next, sent) := Acts(s, main, remote);
            Acts(s, [Beat] + main, remote) == (next, {Heartbeat(s, remote)} + sent)
  {
    BeatIs(s, remote);
    hide Act, Valid;
    ActsOne(s, Beat, remote);
    if main == [] {
      assert [Beat] + main == [Beat];
      NothingActs(s, remote);
      Nothing({Heartbeat(s, remote)});
    } else {
      assert ([Beat] + main)[..1] == [Beat] && main == [main[0]];
      ActsOne(s, main[0], remote);
    }
  }

  lemma BeatIs(s: Sender, remote: u64)
    requires Valid(s)
    ensures s.marks != [] && Act(s, Beat, remote) == (s, Some(Heartbeat(s, remote)))
  {
  }

  lemma SpokenConcat(a: seq<Effect>, b: seq<Effect>)
    ensures Spoken(a + b) == Spoken(a) + Spoken(b)
  {
    forall u | u in Spoken(a) + Spoken(b) ensures u in Spoken(a + b) {
      if u in Spoken(a) {
        var k :| 0 <= k < |a| && a[k].SendDatagram? && a[k].update == u;
        assert (a + b)[k] == a[k];
      } else {
        var k :| 0 <= k < |b| && b[k].SendDatagram? && b[k].update == u;
        assert (a + b)[|a| + k] == b[k];
      }
    }
  }

  lemma NothingSpoken(effects: seq<Effect>)
    requires InputQueue.NoDatagram(effects)
    ensures Spoken(effects) == {}
  {
  }

  lemma SendingSpeaks<S>(s: State<S>, now: nat, update: StateUpdate, counted: bool)
    ensures var (next, effects) := Sending(s, now, update, counted);
            Spoken(effects) == {update} && next.local == s.local
  {
    var effects := Sending(s, now, update, counted).1;
    assert effects[0] == SendDatagram(update);
    assert forall k :: 1 <= k < |effects| ==> effects[k].ShutdownComplete?;
  }

  /** A queued send is a fresh state or the shutdown state. */
  lemma BuildIsAct<S>(s: State<S>, now: nat, encodes: bool)
    requires Inv(s) && Choose(s, now) == SendQueued && Build(s, encodes).Ok?
    ensures Valid(s.local)
    ensures var action: Action := if ShutdownUnsent(s) then Action.Shutdown(s.queue) else Fresh(s.queue);
            var (local, update) := Build(s, encodes).value;
            Act(s.local, action, s.remote.latest) == (local, Some(update))
  {
    QueuedSendIsFresh(s, now);
    hide Sent, Ordered, Agree, Monotone;
  }

  /** What the last part of a poll says and does to the sender is one action, or none. */
  lemma ContinueActs<S>(s: State<S>, now: nat, encodes: bool) returns (main: seq<Action>)
    requires Inv(s)
    ensures Valid(s.local) && |main| <= 1 && (main != [] ==> !main[0].Acknowledge?)
    ensures var (next, r) := Continue(s, now, encodes);
            Acts(s.local, main, s.remote.latest) == (next.local, if r.Ok? then Spoken(r.value) else {})
    ensures Continue(s, now, encodes).1.Err? ==> main == []
  {
    InvIsValid(s);
    main := [];
    var (next, r) := Continue(s, now, encodes);
    if r.Ok? && Choose(s, now) != Wait { main := [MainAction(s, now)]; }
    MainActs(s, now, encodes);
    hide Inv, Valid, Sending, Build, Act, Choose;
    if main != [] { ActsOne(s.local, main[0], s.remote.latest); }
    NothingSpoken([]);
  }

  function MainAction<S>(s: State<S>, now: nat): Action
    requires Valid(s.local)
  {
    match Choose(s, now)
    case Resend => Retransmit
    case SendQueued => if ShutdownUnsent(s) then Action.Shutdown(s.queue) else Fresh(s.queue)
    case _ => Beat
  }

  lemma MainActs<S>(s: State<S>, now: nat, encodes: bool)
    requires Inv(s)
    ensures Valid(s.local)
    ensures var (next, r) := Continue(s, now, encodes);
            if r.Ok? && Choose(s, now) != Wait then
              var (local, update) := Act(s.local, MainAction(s, now), s.remote.latest);
              next.local == local && update.Some? && Spoken(r.value) == {update.value}
            else next.local == s.local && (r.Ok? ==> r.value == [])
  {
    InvIsValid(s);
    BeatIs(s.local, s.remote.latest);
    var drained := s.(queue := [], queuedBytes := 0, ackDue := false);
    match Choose(s, now) {
      case SendQueued =>
        if Build(s, encodes).Ok? {
          BuildIsAct(s, now, encodes);
          var (local, update) := Build(s, encodes).value;
          SendingSpeaks(drained.(local := local), now, update, true);
        }
      case Resend => SendingSpeaks(s, now, Retransmission(s.local, s.remote.latest), true);
      case SendAck => SendingSpeaks(s, now, Heartbeat(s.local, s.remote.latest), false);
      case Wait =>
    }
    hide Inv, Valid, Sending, Build, Spoken;
  }

  lemma PollActs<S>(s: State<S>, now: nat, encoding: Encoding) returns (actions: seq<Action>)
    requires Inv(s)
    ensures Valid(s.local) && forall a :: a in actions ==> !a.Acknowledge?
    ensures var (next, r) := Poll(s, now, encoding);
            && Acts(s.local, actions, s.remote.latest) == (next.local, if r.Ok? then Spoken(r.value) else {})
            && next.remote == s.remote
  {
    InvIsValid(s);
    Shutdown.PollAnswers(s, now, encoding);
    actions := [];
    if Works(s, encoding) {
      actions := WorkingPollActs(s, now, encoding);
    } else {
      hide Inv, Valid;
      NothingSpoken([]);
    }
    hide Inv, Valid, Poll, Spoken;
  }

  lemma WorkingPollActs<S>(s: State<S>, now: nat, encoding: Encoding) returns (actions: seq<Action>)
    requires Inv(s) && Works(s, encoding)
    ensures Valid(s.local) && forall a :: a in actions ==> !a.Acknowledge?
    ensures var (next, r) := Poll(s, now, encoding);
            Acts(s.local, actions, s.remote.latest) == (next.local, if r.Ok? then Spoken(r.value) else {})
  {
    hide Inv, Valid, Continue, Acts, Spoken, Ending, Poll;
    InvIsValid(s);
    PollPreludeKeepsInv(s, now);
    MarksStay(s, now);
    var associated := Associated(s, now).0;
    PollPreludeKeepsInv(associated, now);
    var (noticed, silence) := NoticeSilence(associated, now);
    InvIsValid(associated);
    var main := ContinueActs(noticed, now, encoding.main);
    actions := [];
    WorkingPoll(s, now, encoding);
    NothingActs(s.local, s.remote.latest);
    if Ending(associated, now).Some? {
      NothingSpoken([ShutdownComplete(Ending(associated, now).value)]);
    } else if Continue(noticed, now, encoding.main).1.Ok? {
      actions := (if s.associationDue then [Beat] else []) + main;
      ActsAndSpeaks(s, now, main, Continue(noticed, now, encoding.main).1.value);
    }
  }

  lemma MarksStay<S>(s: State<S>, now: nat)
    requires Valid(s.local)
    ensures s.local.marks != []
    ensures var noticed := NoticeSilence(Associated(s, now).0, now).0;
            noticed.local == s.local && noticed.remote == s.remote
  {
    hide Ordered, Agree, Monotone;
  }

  lemma WorkingPoll<S>(s: State<S>, now: nat, encoding: Encoding)
    requires Valid(s.local) && s.local.marks != [] && Works(s, encoding)
    requires Valid(Associated(s, now).0.local) && Valid(NoticeSilence(Associated(s, now).0, now).0.local)
    ensures var (associated, association) := Associated(s, now);
            var (noticed, silence) := NoticeSilence(associated, now);
            var (next, r) := Continue(noticed, now, encoding.main);
            Poll(s, now, encoding) ==
            match Ending(associated, now)
            case Some(outcome) => (associated.(shutdown := Complete(outcome)), Ok([ShutdownComplete(outcome)]))
            case None => (next, if r.Ok? then Ok(association + silence + r.value) else r)
  {
    hide Valid, Continue, Ending, Associated, NoticeSilence;
    GoesOn(Associated(s, now).0, Associated(s, now).1, now, encoding.main);
    hide Proceed;
  }

  /** Association, silence and the main part of a poll, put together. */
  lemma ActsAndSpeaks<S>(s: State<S>, now: nat, main: seq<Action>, effects: seq<Effect>)
    requires Valid(s.local) && s.local.marks != [] && |main| <= 1
    requires Acts(s.local, main, s.remote.latest).1 == Spoken(effects)
    ensures var silence := NoticeSilence(Associated(s, now).0, now).1;
            Acts(s.local, (if s.associationDue then [Beat] else []) + main, s.remote.latest)
            == (Acts(s.local, main, s.remote.latest).0, Spoken(Associated(s, now).1 + silence + effects))
  {
    hide Valid, Acts, Spoken;
    PreludeSpeaks(s, now);
    var association, silence := Associated(s, now).1, NoticeSilence(Associated(s, now).0, now).1;
    ActsBeatFirst(s.local, main, s.remote.latest);
    SpokenConcat(association, silence);
    SpokenConcat(association + silence, effects);
    Nothing(Spoken(association));
    Nothing(Spoken(effects));
    assert [] + main == main;
  }

  lemma NothingActs(s: Sender, remote: u64)
    requires Valid(s)
    ensures Acts(s, [], remote) == (s, {})
  {
  }

  lemma PreludeSpeaks<S>(s: State<S>, now: nat)
    requires s.local.marks != []
    ensures Spoken(Associated(s, now).1) == if s.associationDue then {Heartbeat(s.local, s.remote.latest)} else {}
    ensures Spoken(NoticeSilence(Associated(s, now).0, now).1) == {}
  {
    if s.associationDue {
      var association := Associated(s, now).1;
      assert association[0] == SendDatagram(Heartbeat(s.local, s.remote.latest));
    }
  }

  // ---- A run of host calls is a run of the two parties ----------------------

  function View<S>(link: Link<S>): TwoParty.System {
    TwoParty.System(link.session.local, link.peer, link.wire, link.acks)
  }

  function Sends(actions: seq<Action>, remote: u64): (steps: seq<TwoParty.Step>)
    ensures |steps| == |actions| && forall k :: 0 <= k < |actions| ==> steps[k] == TwoParty.Send(actions[k], remote)
  {
    seq(|actions|, k requires 0 <= k < |actions| => TwoParty.Send(actions[k], remote))
  }

  lemma OneMoreStep(refuses: (Log, Log) -> bool, steps: seq<TwoParty.Step>, step: TwoParty.Step)
    ensures TwoParty.Run(refuses, steps + [step]) == TwoParty.Next(refuses, TwoParty.Run(refuses, steps), step)
  {
    hide TwoParty.Next, TwoParty.Inv;
    DropPrefix(steps, [step]);
  }

  lemma {:induction false} ActsAreSteps(refuses: (Log, Log) -> bool, steps: seq<TwoParty.Step>, actions: seq<Action>,
                                        remote: u64)
    requires forall a :: a in actions ==> !a.Acknowledge?
    ensures var s := TwoParty.Run(refuses, steps);
            Valid(s.sender)
            && var (sender, sent) := Acts(s.sender, actions, remote);
               TwoParty.Run(refuses, steps + Sends(actions, remote)) == s.(sender := sender, wire := s.wire + sent)
    decreases |actions|
  {
    hide TwoParty.Run, TwoParty.Inv, TwoParty.Next, Act, Valid;
    var s := TwoParty.Run(refuses, steps);
    SystemIsValid(s);
    if actions == [] {
      assert steps + Sends(actions, remote) == steps;
      Nothing(s.wire);
    } else {
      var n := |actions| - 1;
      var (before, sent) := Acts(s.sender, actions[..n], remote);
      var update := Act(before, actions[n], remote).1;
      ActsAreSteps(refuses, steps, actions[..n], remote);
      assert Sends(actions, remote) == Sends(actions[..n], remote) + [TwoParty.Send(actions[n], remote)];
      Associate(steps, Sends(actions[..n], remote), [TwoParty.Send(actions[n], remote)]);
      OneMoreStep(refuses, steps + Sends(actions[..n], remote), TwoParty.Send(actions[n], remote));
      SendIsAct(refuses, s.(sender := before, wire := s.wire + sent), actions[n], remote);
      SetsAssociate(s.wire, sent, if update.Some? then {update.value} else {});
    }
  }

  lemma SetsAssociate(a: set<StateUpdate>, b: set<StateUpdate>, c: set<StateUpdate>)
    ensures a + b + c == a + (b + c)
  {
  }

  lemma SendIsAct(refuses: (Log, Log) -> bool, s: TwoParty.System, action: Action, remote: u64)
    requires Valid(s.sender) && !action.Acknowledge?
    ensures var (sender, update) := Act(s.sender, action, remote);
            TwoParty.Next(refuses, s, TwoParty.Send(action, remote))
            == s.(sender := sender, wire := s.wire + if update.Some? then {update.value} else {})
  {
    hide Act, Valid;
  }

  lemma SystemIsValid(s: TwoParty.System)
    requires TwoParty.Inv(s)
    ensures Valid(s.sender)
  {
  }

  /** A host call other than a poll sends nothing, and touches the sender only to acknowledge. */
  lemma OtherCalls<S>(rules: R.Rules<S>, s: State<S>, event: Event<S>)
    requires Inv(s) && !event.PollAt?
    ensures Valid(s.local)
    ensures var (next, effects) := Step(rules, s, event);
            && Spoken(effects) == {}
            && next.local == if event.Datagrams? && event.datagram.Full? && s.lifecycle == Running
                             then Acknowledged(s.local, event.datagram.update.acknowledged) else s.local
  {
    InvIsValid(s);
    hide Inv, Valid, Acknowledged;
    if event.Datagrams? {
      InputQueue.ReceiveMovesNothing(rules, s, event.datagram, event.now);
      ReceivedLocal(rules, s, event.datagram, event.now);
      hide Receive;
      NothingSpoken(Step(rules, s, event).1);
    } else {
      NothingSpoken(Step(rules, s, event).1);
    }
  }

  lemma ReceivedLocal<S>(rules: R.Rules<S>, s: State<S>, datagram: Datagram, now: nat)
    ensures Receive(rules, s, datagram, now).0.local
            == if datagram.Full? && s.lifecycle == Running then Acknowledged(s.local, datagram.update.acknowledged)
              else s.local
  {
    hide R.Accept, Acknowledged;
  }

  lemma PollIsSteps<S>(rules: R.Rules<S>, refuses: (Log, Log) -> bool, link: Link<S>, now: nat, encoding: Encoding,
                       steps: seq<TwoParty.Step>) returns (more: seq<TwoParty.Step>)
    requires Inv(link.session) && TwoParty.Run(refuses, steps) == View(link)
    ensures Valid(link.session.local)
    ensures TwoParty.Run(refuses, steps + more) == View(Moved(rules, refuses, link, Call(PollAt(now, encoding))))
  {
    hide Inv, Valid, Poll, TwoParty.Run, TwoParty.Inv, Acts, Spoken, R.Accept;
    InvIsValid(link.session);
    var s := link.session;
    var actions := PollActs(s, now, encoding);
    more := Sends(actions, s.remote.latest);
    ActsAreSteps(refuses, steps, actions, s.remote.latest);
    NothingSpoken([]);
  }

  lemma OtherIsSteps<S>(rules: R.Rules<S>, refuses: (Log, Log) -> bool, link: Link<S>, event: Event<S>,
                        steps: seq<TwoParty.Step>) returns (more: seq<TwoParty.Step>)
    requires Inv(link.session) && Possible(link, event) && !event.PollAt? && TwoParty.Run(refuses, steps) == View(link)
    ensures Valid(link.session.local)
    ensures TwoParty.Run(refuses, steps + more) == View(Moved(rules, refuses, link, Call(event)))
  {
    hide Inv, Valid, Step, TwoParty.Run, TwoParty.Inv, Acts, Spoken, R.Accept, Acknowledged;
    InvIsValid(link.session);
    OtherCalls(rules, link.session, event);
    Nothing(link.wire);
    more := [];
    assert steps + more == steps;
    if event.Datagrams? && event.datagram.Full? && link.session.lifecycle == Running {
      more := [TwoParty.DeliverAck(event.datagram.update.acknowledged)];
      OneMoreStep(refuses, steps, more[0]);
    }
  }

  lemma MoveIsSteps<S>(rules: R.Rules<S>, refuses: (Log, Log) -> bool, link: Link<S>, move: Move<S>,
                       steps: seq<TwoParty.Step>) returns (more: seq<TwoParty.Step>)
    requires Inv(link.session) && TwoParty.Run(refuses, steps) == View(link)
    ensures Valid(link.session.local)
    ensures TwoParty.Run(refuses, steps + more) == View(Moved(rules, refuses, link, move))
  {
    hide Inv, Valid, Step, TwoParty.Run, TwoParty.Inv, R.Accept, Spoken, Act;
    InvIsValid(link.session);
    more := [];
    assert steps + more == steps;
    match move {
      case Call(event) =>
        if Possible(link, event) {
          if event.PollAt? {
            more := PollIsSteps(rules, refuses, link, event.now, event.encoding, steps);
          } else {
            more := OtherIsSteps(rules, refuses, link, event, steps);
          }
        }
      case Deliver(u) =>
        more := [TwoParty.Deliver(u)];
        OneMoreStep(refuses, steps, more[0]);
      case PeerAcknowledges =>
        more := [TwoParty.PeerAcknowledges];
        OneMoreStep(refuses, steps, more[0]);
    }
  }

  /** Whatever the host calls and the network does, sender, peer and network go through a run of the two parties. */
  lemma {:induction false} RunIsTwoParty<S>(rules: R.Rules<S>, refuses: (Log, Log) -> bool, initial: S, now: nat,
                                            moves: seq<Move<S>>) returns (steps: seq<TwoParty.Step>)
    ensures TwoParty.Run(refuses, steps) == View(RunLink(rules, refuses, Open(initial, now), moves))
    decreases |moves|
  {
    hide Inv, Moved, TwoParty.Next, TwoParty.Inv;
    steps := [];
    if moves != [] {
      var n := |moves| - 1;
      steps := RunIsTwoParty(rules, refuses, initial, now, moves[..n]);
      var more := MoveIsSteps(rules, refuses, RunLink(rules, refuses, Open(initial, now), moves[..n]), moves[n], steps);
      steps := steps + more;
    }
  }

  // ---- What the peer has of the input ---------------------------------------

  /** The host calls that took place. */
  ghost function Calls<S>(rules: R.Rules<S>, refuses: (Log, Log) -> bool, start: Link<S>, moves: seq<Move<S>>)
    : seq<Event<S>>
    requires Inv(start.session)
  {
    if moves == [] then []
    else
      var n := |moves| - 1;
      var before := RunLink(rules, refuses, start, moves[..n]);
      Calls(rules, refuses, start, moves[..n])
      + if moves[n].Call? && Possible(before, moves[n].event) then [moves[n].event] else []
  }

  lemma {:induction false} CallsAreTheSession<S>(rules: R.Rules<S>, refuses: (Log, Log) -> bool, start: Link<S>,
                                                 moves: seq<Move<S>>)
    requires Inv(start.session)
    ensures RunAll(rules, start.session, Calls(rules, refuses, start, moves)).0
            == RunLink(rules, refuses, start, moves).session
    decreases |moves|
  {
    hide Inv, Step, R.Accept, Spoken, Possible;
    if moves != [] {
      var n := |moves| - 1;
      CallsAreTheSession(rules, refuses, start, moves[..n]);
      var events := Calls(rules, refuses, start, moves[..n]);
      if moves[n].Call? { CallAppended(rules, start.session, events, moves[n].event); }
      assert events + [] == events;
    }
  }

  lemma CallAppended<S>(rules: R.Rules<S>, start: State<S>, events: seq<Event<S>>, event: Event<S>)
    requires Inv(start)
    ensures Valid(RunAll(rules, start, events).0.local)
    ensures RunAll(rules, start, events + [event]).0 == Step(rules, RunAll(rules, start, events).0, event).0
  {
    hide Step, Inv, Valid;
    InvIsValid(RunAll(rules, start, events).0);
    DropPrefix(events, [event]);
  }

  /**
   Over a network that loses, repeats and reorders, what the peer has delivered is a prefix of what
   was sent, and that together with what is still queued has the effect of all the input accepted:
   each item once, in order, under its viewport, as long as no call loses or discards any.
   */
  lemma PeerHasAcceptedInput<S>(rules: R.Rules<S>, refuses: (Log, Log) -> bool, initial: S, now: nat,
                                moves: seq<Move<S>>)
    requires InputQueue.AlwaysKeeps(rules, Begun(initial, now), Calls(rules, refuses, Open(initial, now), moves))
    ensures var link := RunLink(rules, refuses, Open(initial, now), moves);
            var events := Calls(rules, refuses, Open(initial, now), moves);
            && link.peer.delivered <= link.session.local.log
            && InputQueue.SameEffect(link.session.local.log + link.session.queue,
                                     InputQueue.Given(rules, Begun(initial, now), events))
  {
    var steps := RunIsTwoParty(rules, refuses, initial, now, moves);
    TwoParty.DeliveredIsPrefixOfInput(refuses, steps);
    CallsAreTheSession(rules, refuses, Open(initial, now), moves);
    hide Inv, RunLink, Calls, RunAll, InputQueue.AlwaysKeeps, TwoParty.Run, InputQueue.Given;
    var events := Calls(rules, refuses, Open(initial, now), moves);
    assert Begun(initial, now).local.log == [] == Begun(initial, now).queue;
    InputQueue.RunKeepsEffect(rules, Begun(initial, now), events);
  }

  // ---- One exchange ---------------------------------------------------------

  /** The poll at `now` resends what is pending. */
  predicate Resends<S>(s: State<S>, now: nat, encoding: Encoding)
    requires s.local.marks != []
  {
    && Works(s, encoding) && encoding.main && Pending(s.local)
    && Ending(s, now).None? && (s.ackDue || IntervalOver(s, now))
  }

  lemma ResendingPoll<S>(s: State<S>, now: nat, encoding: Encoding)
    requires Inv(s) && Valid(s.local) && Resends(s, now, encoding)
    ensures var (next, r) := Poll(s, now, encoding);
            && r.Ok? && Retransmission(s.local, s.remote.latest) in Spoken(r.value)
            && next.local == s.local && next.lifecycle == Running
  {
    InvIsValid(s);
    var noticed, silence := NoticeSilence(s, now).0, NoticeSilence(s, now).1;
    assert !s.associationDue && Associated(s, now) == (s, []);
    hide Inv, Valid, Ending;
    GoesOn(s, [], now, true);
    var update := Retransmission(s.local, s.remote.latest);
    SendingSpeaks(noticed, now, update, true);
    SpokenConcat([], silence);
    SpokenConcat([] + silence, Sending(noticed, now, update, true).1);
    hide Spoken;
  }

  /** The four moves of an exchange: the poll, its retransmission, the peer's report, and a datagram that brings it. */
  ghost function Exchanged<S>(rules: R.Rules<S>, refuses: (Log, Log) -> bool, link: Link<S>, now: nat,
                              encoding: Encoding,
                              echoed: u16, answer: StateUpdate, later: nat): Link<S>
    requires Inv(link.session)
  {
    InvIsValid(link.session);
    RunLink(rules, refuses, link,
            [Call(PollAt(now, encoding)), Deliver(Retransmission(link.session.local, link.session.remote.latest)),
             PeerAcknowledges, Call(Datagrams(Full(echoed, answer), later))])
  }

  /** What the exchange's retransmission makes of the peer. */
  function Reached<S>(refuses: (Log, Log) -> bool, link: Link<S>): R.Receiver<Log>
    requires Valid(link.session.local)
  {
    var u := Retransmission(link.session.local, link.session.remote.latest);
    R.Accept(TwoParty.PeerRules(refuses), link.peer, u).0
  }

  lemma FourMoves<S>(rules: R.Rules<S>, refuses: (Log, Log) -> bool, link: Link<S>, m0: Move<S>, m1: Move<S>,
                     m2: Move<S>,
                     m3: Move<S>)
    requires Inv(link.session)
    ensures var l1 := RunLink(rules, refuses, link, [m0]);
            var l2 := RunLink(rules, refuses, link, [m0, m1]);
            var l3 := RunLink(rules, refuses, link, [m0, m1, m2]);
            && Valid(link.session.local) && Valid(l1.session.local) && Valid(l2.session.local)
               && Valid(l3.session.local)
            && l1 == Moved(rules, refuses, link, m0) && l2 == Moved(rules, refuses, l1, m1)
            && l3 == Moved(rules, refuses, l2, m2)
            && RunLink(rules, refuses, link, [m0, m1, m2, m3]) == Moved(rules, refuses, l3, m3)
  {
    hide Inv, Moved, Valid;
    assert [m0, m1, m2, m3][..3] == [m0, m1, m2] && [m0, m1, m2][..2] == [m0, m1] && [m0, m1][..1] == [m0]
           && [m0][..0] == [];
    InvIsValid(link.session);
    InvIsValid(RunLink(rules, refuses, link, [m0]).session);
    InvIsValid(RunLink(rules, refuses, link, [m0, m1]).session);
    InvIsValid(RunLink(rules, refuses, link, [m0, m1, m2]).session);
  }

  lemma ExchangeIs<S>(rules: R.Rules<S>, refuses: (Log, Log) -> bool, link: Link<S>, now: nat, encoding: Encoding,
                      echoed: u16, answer: StateUpdate, later: nat)
    requires Inv(link.session) && Valid(link.session.local) && Resends(link.session, now, encoding)
    requires answer.acknowledged == Reached(refuses, link).latest
    ensures var after := Exchanged(rules, refuses, link, now, encoding, echoed, answer, later);
            && after.peer == Reached(refuses, link)
            && after.session.local == Acknowledged(link.session.local, Reached(refuses, link).latest)
  {
    hide Inv, Poll, Receive, R.Accept, Acknowledged, Valid, RunLink, Spoken, Resends, Moved, Step;
    CanRepeat(link.session.local);
    var u := Retransmission(link.session.local, link.session.remote.latest);
    var m0: Move<S>, m1: Move<S>, m2: Move<S>, m3: Move<S> :=
      Call(PollAt(now, encoding)), Deliver(u), PeerAcknowledges, Call(Datagrams(Full(echoed, answer), later));
    FourMoves(rules, refuses, link, m0, m1, m2, m3);
    ResendingMove(rules, refuses, link, now, encoding);
    var l1, l3 := RunLink(rules, refuses, link, [m0]), RunLink(rules, refuses, link, [m0, m1, m2]);
    PeerMoves(rules, refuses, l1, RunLink(rules, refuses, link, [m0, m1]), u);
    AnswerMove(rules, refuses, l3, echoed, answer, later);
  }

  lemma CanRepeat(s: Sender)
    requires Valid(s)
    ensures s.marks != [] && Front(s).end <= Back(s).end <= |s.log|
  {
  }

  lemma ResendingMove<S>(rules: R.Rules<S>, refuses: (Log, Log) -> bool, link: Link<S>, now: nat, encoding: Encoding)
    requires Inv(link.session) && Valid(link.session.local) && Resends(link.session, now, encoding)
    ensures var next := Moved(rules, refuses, link, Call(PollAt(now, encoding)));
            && Retransmission(link.session.local, link.session.remote.latest) in next.wire && next.peer == link.peer
            && next.session.local == link.session.local && next.session.lifecycle == Running
  {
    hide Inv, Poll, Valid, Spoken, Resends;
    ResendingPoll(link.session, now, encoding);
  }

  /** The retransmission reaches the peer, which reports; the session is not touched. */
  lemma PeerMoves<S>(rules: R.Rules<S>, refuses: (Log, Log) -> bool, link: Link<S>, next: Link<S>, u: StateUpdate)
    requires Valid(link.session.local) && Valid(next.session.local) && u in link.wire
    requires next == Moved(rules, refuses, link, Deliver(u))
    ensures next.session == link.session && next.peer == R.Accept(TwoParty.PeerRules(refuses), link.peer, u).0
    ensures var last := Moved(rules, refuses, next, PeerAcknowledges);
            last.session == link.session && last.peer == next.peer && next.peer.latest in last.acks
  {
    hide Valid, Step, R.Accept;
  }

  lemma AnswerMove<S>(rules: R.Rules<S>, refuses: (Log, Log) -> bool, link: Link<S>, echoed: u16, answer: StateUpdate,
                      later: nat)
    requires Valid(link.session.local) && link.session.lifecycle == Running && answer.acknowledged in link.acks
    ensures var next := Moved(rules, refuses, link, Call(Datagrams(Full(echoed, answer), later)));
            next.peer == link.peer && next.session.local == Acknowledged(link.session.local, answer.acknowledged)
  {
    hide Valid, Receive, Acknowledged;
    ReceivedLocal(rules, link.session, Full(echoed, answer), later);
  }

  /**
   From any state a run reaches, below the peer's cap and unless it refuses the batch: one poll that
   resends, delivered once, and one datagram that brings the peer's report leave nothing pending and
   the peer with everything that was ever sent.
   */
  lemma ExchangeRecovers<S>(rules: R.Rules<S>, refuses: (Log, Log) -> bool, initial: S, start: nat, moves: seq<Move<S>>,
                            now: nat, encoding: Encoding, echoed: u16, answer: StateUpdate, later: nat)
    requires var link := RunLink(rules, refuses, Open(initial, start), moves);
             && Valid(link.session.local) && Resends(link.session, now, encoding) && HasRoom(refuses, link)
             && answer.acknowledged == Reached(refuses, link).latest
    ensures var link := RunLink(rules, refuses, Open(initial, start), moves);
            var after := Exchanged(rules, refuses, link, now, encoding, echoed, answer, later);
            !Pending(after.session.local) && after.peer.delivered == link.session.local.log == after.session.local.log
  {
    var link := RunLink(rules, refuses, Open(initial, start), moves);
    var steps := RunIsTwoParty(rules, refuses, initial, start, moves);
    var s := TwoParty.Run(refuses, steps);
    assert Pending(link.session.local);
    hide RunLink, Exchanged, TwoParty.Run, TwoParty.Inv, Inv, Valid, R.Accept, Acknowledged, Resends;
    ExchangeIs(rules, refuses, link, now, encoding, echoed, answer, later);
    RoomToRecover(refuses, link);
    NewestIsConfirmed(refuses, s, link.session.remote.latest);
  }

  /** The peer is below its cap and does not refuse what is pending. */
  predicate HasRoom<S>(refuses: (Log, Log) -> bool, link: Link<S>)
    requires Valid(link.session.local)
  {
    var u := Retransmission(link.session.local, link.session.remote.latest);
    && |link.peer.received| < R.MAXIMUM_RECEIVED_STATES
    && (u.base in link.peer.received ==> !refuses(link.peer.received[u.base], u.delta))
  }

  lemma RoomToRecover<S>(refuses: (Log, Log) -> bool, link: Link<S>)
    requires Valid(link.session.local) && TwoParty.Inv(View(link)) && HasRoom(refuses, link)
    ensures TwoParty.CanRecover(refuses, View(link), link.session.remote.latest)
  {
  }

  lemma NewestIsConfirmed(refuses: (Log, Log) -> bool, s: TwoParty.System, remote: u64)
    requires TwoParty.Inv(s) && Pending(s.sender) && TwoParty.CanRecover(refuses, s, remote)
    ensures var peer := R.Accept(TwoParty.PeerRules(refuses), s.peer, Retransmission(s.sender, remote)).0;
            var sender := Acknowledged(s.sender, peer.latest);
            !Pending(sender) && sender.log == s.sender.log && peer.delivered == s.sender.log
  {
    TwoParty.NewestReachesPeer(refuses, s, remote);
    TwoParty.LastPosition(s.sender.marks);
  }
}
