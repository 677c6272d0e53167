/** The association datagram a session starts with: when its first poll sends it, and how it is lost. */
module Association {
  import opened Prelude
  import opened Wire
  import opened Sender
  import opened Runtime
  import opened RuntimeRuns
  import opened InputQueue
  import opened Shutdown
  import R = Receiver
  import Rto

  /**
   What the poll has to send behind the association cannot be sent: queued input, the shutdown
   state, or an acknowledgement.
   */
  predicate MainFails<S>(s: State<S>, encoding: Encoding)
    requires s.local.marks != []
  {
    if s.queue != [] || ShutdownUnsent(s) then CannotSend(s, encoding.main) else s.ackDue && !encoding.main
  }

  /** The poll succeeds and its first action is the association datagram. */
  predicate Associates<S>(s: State<S>, now: nat, encoding: Encoding)
    requires Valid(s.local)
  {
    var r := Poll(s, now, encoding).1;
    r.Ok? && r.value != [] && r.value[0] == SendDatagram(Heartbeat(s.local, s.remote.latest))
  }

  lemma FirstChoice<S>(s: State<S>, now: nat)
    requires Inv(s) && s.associationDue
    ensures Valid(s.local)
    ensures var associated := Associated(s, now).0;
            && Inv(associated) && associated.local == s.local
            && (Ending(associated, now).None? <==> s.peerAckDue || !ShutdownTimedOut(s, now))
            && Choose(NoticeSilence(associated, now).0, now)
               == if s.queue != [] || ShutdownUnsent(s) then SendQueued else if s.ackDue then SendAck else Wait
  {
    PollPreludeKeepsInv(s, now);
    hide Ordered, Agree, Monotone;
  }

  /** Behind an association the rest of the poll fails exactly when there is something to send that cannot be sent. */
  lemma RestFailsIff<S>(s: State<S>, now: nat, encoding: Encoding)
    requires Inv(s) && s.associationDue
    ensures Valid(s.local)
    ensures var noticed := NoticeSilence(Associated(s, now).0, now).0;
            && Valid(noticed.local)
            && (Continue(noticed, now, encoding.main).1.Err? <==> MainFails(s, encoding))
  {
    FirstChoice(s, now);
    var associated := Associated(s, now).0;
    var noticed := NoticeSilence(associated, now).0;
    PollPreludeKeepsInv(associated, now);
    InvIsValid(s);
    hide Inv, Valid, Sending, Build;
    if Choose(noticed, now) == SendQueued { BuildFailsIff(noticed, now, encoding.main); }
  }

  /**
   The first poll sends the association datagram exactly when it can be encoded, no unanswered
   shutdown deadline has passed, and whatever else there is to send can be sent. A poll that gets
   past its encoding never leaves it for a later one, whether or not it was sent.
   */
  lemma AssociationIsSentIff<S>(s: State<S>, now: nat, encoding: Encoding)
    requires Inv(s) && s.associationDue
    ensures Valid(s.local)
    ensures Associates(s, now, encoding)
            <==> Works(s, encoding) && (s.peerAckDue || !ShutdownTimedOut(s, now)) && !MainFails(s, encoding)
    ensures Poll(s, now, encoding).0.associationDue <==> !Works(s, encoding)
  {
    InvIsValid(s);
    FirstChoice(s, now);
    RestFailsIff(s, now, encoding);
    hide Inv, Valid, Continue, MainFails, ShutdownTimedOut, Choose, Ending;
    if Works(s, encoding) {
      var (associated, association) := Associated(s, now);
      InvIsValid(associated);
      GoesOn(associated, association, now, encoding.main);
      ContinueKeepsAssociation(NoticeSilence(associated, now).0, now, encoding.main);
    } else {
      IdleSendsNothing(s, now, encoding);
    }
  }

  lemma ContinueKeepsAssociation<S>(s: State<S>, now: nat, encodes: bool)
    requires Valid(s.local)
    ensures Continue(s, now, encodes).0.associationDue == s.associationDue
  {
    hide Build, Valid;
  }

  lemma IdleSendsNothing<S>(s: State<S>, now: nat, encoding: Encoding)
    requires Valid(s.local) && !Works(s, encoding)
    ensures Poll(s, now, encoding).0 == s && !Associates(s, now, encoding)
  {
    hide Valid;
  }

  // ---- Both ways to lose it -------------------------------------------------

  /** A shutdown requested before the first poll can time out before the session was ever associated. */
  lemma AssociationCanBeDropped(rules: R.Rules<int>, initial: int)
    ensures var events := [ShutdownAt(0), PollAt(SHUTDOWN_TIMEOUT_MILLISECONDS, WORKS)];
            var (s, effects) := RunAll(rules, Begun(initial, 0), events);
            effects == [ShutdownComplete(TimedOut)] && !s.associationDue
  {
    hide Poll, Inv, Valid;
    var start := Begun(initial, 0);
    InvIsValid(start);
    var e0: Event<int>, e1: Event<int> := ShutdownAt(0), PollAt(SHUTDOWN_TIMEOUT_MILLISECONDS, WORKS);
    var asked := start.(shutdown := LocalRequested(0, 0));
    DeadlineFirst(initial);
    var none: seq<Effect> := [];
    assert Step(rules, start, e0) == (asked, none);
    assert [e0, e1][..1] == [e0] && [e0][..0] == [] && none + none == none;
    assert RunAll(rules, start, [e0]) == (asked, none);
    assert none + [ShutdownComplete(TimedOut)] == [ShutdownComplete(TimedOut)];
  }

  lemma DeadlineFirst(initial: int)
    ensures var asked := Runtime.New(initial, 0).(shutdown := LocalRequested(0, 0));
            var (next, r) := Poll(asked, SHUTDOWN_TIMEOUT_MILLISECONDS, WORKS);
            r == Ok([ShutdownComplete(TimedOut)]) && !next.associationDue
  {
  }

  /**
   Input queued before the first poll takes the association with it when its encoding fails; no
   deadline is involved.
   */
  lemma AssociationCanFailWithInput(rules: R.Rules<int>, initial: int)
    ensures var events := [Input([1]), PollAt(0, Encoding(true, false))];
            var (s, effects) := RunAll(rules, Begun(initial, 0), events);
            effects == [] && !s.associationDue && !ShutdownTimedOut(s, 0)
  {
    hide Poll, Inv, Step, Valid;
    var start := Begun(initial, 0);
    var e0: Event<int>, e1: Event<int> := Input([1]), PollAt(0, Encoding(true, false));
    InputIsTaken(rules, initial);
    LosingPoll(rules, initial);
    AssociationIsGone(rules, initial);
    assert [e0, e1][..1] == [e0] && [e0][..0] == [];
  }

  lemma AssociationIsGone(rules: R.Rules<int>, initial: int)
    ensures Valid(OneQueued(initial).local)
    ensures var next := Step(rules, OneQueued(initial), PollAt(0, Encoding(true, false))).0;
            !next.associationDue && next.shutdown == Open
  {
    hide Sent;
  }
}
