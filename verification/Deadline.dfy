/** When a local shutdown gives up: ten seconds after it was asked for, or after sixteen transmissions. */
module Deadline {
  import opened Prelude
  import opened Wire
  import opened Sender
  import opened Runtime
  import opened RuntimeRuns
  import opened Shutdown
  import R = Receiver
  import Rto

  // ---- When it was asked for ------------------------------------------------

  /** When a run first asked a running session, not yet shutting down, to shut down. */
  function AskedAt<S>(rules: R.Rules<S>, start: State<S>, events: seq<Event<S>>): Option<nat>
    requires Inv(start)
    decreases |events|
  {
    if events == [] then None
    else
      var n := |events| - 1;
      var before := RunAll(rules, start, events[..n]).0;
      if AskedAt(rules, start, events[..n]).Some? then AskedAt(rules, start, events[..n])
      else if events[n].ShutdownAt? && before.lifecycle == Running && before.shutdown == Open then Some(events[n].now)
      else None
  }

  /** What the shutdown state says about when it was asked for. */
  predicate AskedIs(shutdown: ShutdownState, asked: Option<nat>) {
    match shutdown
    case Open => asked == None
    case PeerAsked => asked == None
    case LocalRequested(startedAt, _) => asked == Some(startedAt)
    case Complete(outcome) => outcome == PeerRequested || asked.Some?
  }

  /** A part of a poll never opens a shutdown, nor moves the time it was asked for. */
  predicate KeepsAsked(before: ShutdownState, after: ShutdownState) {
    match before
    case Open => after in {Open, Complete(PeerRequested)}
    case PeerAsked => after in {PeerAsked, Complete(PeerRequested)}
    case LocalRequested(startedAt, _) =>
      after.Complete? || (after.LocalRequested? && after.startedAt == startedAt)
    case Complete(_) => after == before
  }

  lemma ContinueKeepsAsked<S>(s: State<S>, now: nat, encodes: bool)
    requires Valid(s.local) && !s.shutdown.Complete?
    ensures KeepsAsked(s.shutdown, Continue(s, now, encodes).0.shutdown)
  {
    hide Build;
  }

  lemma PollKeepsAsked<S>(s: State<S>, now: nat, encoding: Encoding)
    requires Inv(s)
    ensures Valid(s.local) && KeepsAsked(s.shutdown, Poll(s, now, encoding).0.shutdown)
  {
    InvIsValid(s);
    assert s.local.marks != [];
    if Works(s, encoding) {
      EndingNeedsRequest(s, now);
      var (associated, association) := Associated(s, now);
      var noticed := NoticeSilence(associated, now).0;
      assert Ending(associated, now) == Ending(s, now);
      hide Continue, Proceed, Inv, Valid, Ending;
      GoesOn(associated, association, now, encoding.main);
      ContinueKeepsAsked(noticed, now, encoding.main);
    }
  }

  lemma EndingNeedsRequest<S>(s: State<S>, now: nat)
    requires Inv(s) && s.local.marks != [] && !s.shutdown.Complete?
    ensures Ending(s, now).Some? ==> s.shutdown.LocalRequested?
  {
    hide Agree, Monotone;
  }

  lemma StepKeepsAsked<S>(rules: R.Rules<S>, s: State<S>, event: Event<S>)
    requires Inv(s)
    ensures var next := Step(rules, s, event).0;
            if event.ShutdownAt? then
              next.shutdown == if s.lifecycle == Running && s.shutdown == Open then LocalRequested(event.now, 0)
                               else s.shutdown
            else KeepsAsked(s.shutdown, next.shutdown) || (s.shutdown == Open && next.shutdown == PeerAsked)
  {
    hide Poll, Receive, Inv, Valid;
    InvIsValid(s);
    match event {
      case PollAt(now, encoding) => PollKeepsAsked(s, now, encoding);
      case Datagrams(datagram, now) => ReceiveDoesNotComplete(rules, s, datagram, now);
      case _ =>
    }
  }

  lemma {:induction false} RunIsAsked<S>(rules: R.Rules<S>, start: State<S>, events: seq<Event<S>>)
    requires Inv(start) && start.shutdown == Open
    ensures AskedIs(RunAll(rules, start, events).0.shutdown, AskedAt(rules, start, events))
    decreases |events|
  {
    hide Step, Inv;
    if events != [] {
      var n := |events| - 1;
      RunIsAsked(rules, start, events[..n]);
      StepKeepsAsked(rules, RunAll(rules, start, events[..n]).0, events[n]);
    }
  }

  // ---- When it gives up -----------------------------------------------------

  predicate TimesOut(r: Result<seq<Effect>, RuntimeError>) {
    r.Ok? && ShutdownComplete(TimedOut) in r.value
  }

  lemma ContinueNeverTimesOut<S>(s: State<S>, now: nat, encodes: bool)
    requires Valid(s.local) && !s.shutdown.Complete?
    ensures !TimesOut(Continue(s, now, encodes).1)
  {
    hide Build;
  }

  lemma PollTimesOutIff<S>(s: State<S>, now: nat, encoding: Encoding)
    requires Valid(s.local) && Works(s, encoding)
    ensures TimesOut(Poll(s, now, encoding).1) <==> Ending(s, now) == Some(TimedOut)
  {
    assert s.local.marks != [];
    var (associated, association) := Associated(s, now);
    var (noticed, silence) := NoticeSilence(associated, now);
    assert Ending(associated, now) == Ending(s, now);
    hide Continue, Proceed, Valid, Ending;
    GoesOn(associated, association, now, encoding.main);
    ContinueNeverTimesOut(noticed, now, encoding.main);
  }

  /**
   Over every run from a new session, a poll gives a local shutdown up exactly when ten seconds have gone by
   since it was asked for or sixteen transmissions have been counted, unless the peer has confirmed it or
   waits for an answer itself.
   */
  lemma TimesOutIff<S>(rules: R.Rules<S>, initial: S, begun: nat, events: seq<Event<S>>, now: nat, encoding: Encoding)
    requires Works(RunAll(rules, Begun(initial, begun), events).0, encoding)
    ensures var start := Begun(initial, begun);
            var s := RunAll(rules, start, events).0;
            var asked := AskedAt(rules, start, events);
            var overdue := asked.Some? && (now >= asked.value + 10_000 || Transmissions(rules, start, events) >= 16);
            && Valid(s.local)
            && (TimesOut(Poll(s, now, encoding).1) <==> overdue && !s.peerAckDue && !ShutdownAcknowledged(s.local))
  {
    var start := Begun(initial, begun);
    var s := RunAll(rules, start, events).0;
    assert start.shutdown == Open;
    InvIsValid(s);
    assert s.local.marks != [];
    hide RunAll, Inv, Valid, Poll, Transmissions, AskedAt, ShutdownAcknowledged;
    RunIsAsked(rules, start, events);
    RunCounts(rules, start, events);
    PollTimesOutIff(s, now, encoding);
  }

  // ---- Without a word from the peer -----------------------------------------

  /** The peer neither asks for a shutdown nor confirms one. */
  predicate NoWord<S>(event: Event<S>) {
    event.Datagrams? && event.datagram.Full? ==>
      event.datagram.update.target != SHUTDOWN_STATE && event.datagram.update.acknowledged != SHUTDOWN_STATE
  }

  /** A session whose peer has said nothing about shutting down: it is open, asked to shut down, or gave up. */
  predicate Unanswered<S>(s: State<S>)
    requires s.local.marks != []
  {
    !s.peerAckDue && !ShutdownAcknowledged(s.local)
    && s.shutdown != PeerAsked && (s.shutdown.Complete? ==> s.shutdown.outcome == TimedOut)
  }

  lemma FreshKeepsFront(local: Sender, queue: seq<Instruction>, target: u64)
    requires Valid(local) && !Pending(local)
    ensures Sent(local, queue, target).marks != [] && Front(Sent(local, queue, target)) == Front(local)
  {
    hide Ordered, Agree, Monotone;
  }

  lemma ContinueKeepsFront<S>(s: State<S>, now: nat, encodes: bool)
    requires Inv(s)
    ensures var next := Continue(s, now, encodes).0;
            && Valid(s.local) && next.local.marks != [] && Front(next.local).id == Front(s.local).id
            && (!s.peerAckDue ==> !next.peerAckDue && (next.shutdown.Complete? ==> s.shutdown.Complete?))
  {
    hide Sent, Ordered, Agree, Monotone;
    if Choose(s, now) == SendQueued {
      FreshKeepsFront(s.local, s.queue, if ShutdownUnsent(s) then SHUTDOWN_STATE else s.local.next);
    }
  }

  lemma PreludeStaysUnanswered<S>(s: State<S>, now: nat)
    requires Inv(s) && Valid(s.local) && Unanswered(s)
    ensures var associated := Associated(s, now).0;
            var noticed := NoticeSilence(associated, now).0;
            && Inv(associated) && Inv(noticed) && associated.local == noticed.local == s.local
            && associated.shutdown == noticed.shutdown == s.shutdown && !noticed.peerAckDue
            && Ending(associated, now) in {None, Some(TimedOut)}
  {
    assert s.local.marks != [];
    PollPreludeKeepsInv(s, now);
    PollPreludeKeepsInv(Associated(s, now).0, now);
    hide Inv, Valid, ShutdownTimedOut;
  }

  lemma PollStaysUnanswered<S>(s: State<S>, now: nat, encoding: Encoding)
    requires Inv(s) && Valid(s.local) && Unanswered(s)
    ensures var next := Poll(s, now, encoding).0; next.local.marks != [] && Unanswered(next)
  {
    assert s.local.marks != [];
    if Works(s, encoding) {
      PreludeStaysUnanswered(s, now);
      var (associated, association) := Associated(s, now);
      var noticed := NoticeSilence(associated, now).0;
      InvIsValid(associated);
      GoesOn(associated, association, now, encoding.main);
      ContinueKeepsFront(noticed, now, encoding.main);
      ContinueKeepsAsked(noticed, now, encoding.main);
    }
    hide Continue, Proceed, Inv, Valid, Associated, NoticeSilence, Ending;
  }

  lemma OthersDoNotConfirm(local: Sender, id: u64)
    requires Valid(local) && !ShutdownAcknowledged(local) && id != SHUTDOWN_STATE
    ensures var next := Acknowledged(local, id); next.marks != [] && !ShutdownAcknowledged(next)
  {
  }

  lemma ReceiveStaysUnanswered<S>(rules: R.Rules<S>, s: State<S>, datagram: Datagram, now: nat)
    requires Inv(s) && Valid(s.local) && Unanswered(s) && NoWord<S>(Datagrams(datagram, now))
    ensures var next := Receive(rules, s, datagram, now).0; next.local.marks != [] && Unanswered(next)
  {
    assert s.local.marks != [];
    if datagram.Full? {
      OthersDoNotConfirm(s.local, datagram.update.acknowledged);
      R.TargetIsKept(rules, s.remote, datagram.update);
    }
    hide R.Accept, HostEffects, Acknowledged, Rto.Sampled, Inv, Valid;
  }

  lemma StepStaysUnanswered<S>(rules: R.Rules<S>, s: State<S>, event: Event<S>)
    requires Inv(s) && Valid(s.local) && Unanswered(s) && NoWord(event)
    ensures var next := Step(rules, s, event).0; next.local.marks != [] && Unanswered(next)
  {
    assert s.local.marks != [];
    hide Poll, Receive, Inv, Valid;
    match event {
      case PollAt(now, encoding) => PollStaysUnanswered(s, now, encoding);
      case Datagrams(datagram, now) => ReceiveStaysUnanswered(rules, s, datagram, now);
      case _ =>
    }
  }

  predicate NeverAWord<S>(events: seq<Event<S>>) {
    forall k :: 0 <= k < |events| ==> NoWord(events[k])
  }

  lemma {:induction false} RunIsUnanswered<S>(rules: R.Rules<S>, initial: S, begun: nat, events: seq<Event<S>>)
    requires NeverAWord(events)
    ensures var s := RunAll(rules, Begun(initial, begun), events).0; Valid(s.local) && Unanswered(s)
    decreases |events|
  {
    var start := Begun(initial, begun);
    assert Valid(start.local) && Unanswered(start);
    hide Step, Inv, Valid, Unanswered, NoWord, Begun;
    if events != [] {
      var n := |events| - 1;
      var before := RunAll(rules, start, events[..n]).0;
      RunIsUnanswered(rules, initial, begun, events[..n]);
      StepStaysUnanswered(rules, before, events[n]);
      InvIsValid(RunAll(rules, start, events).0);
    }
  }

  /**
   A session asked to shut down whose peer never says a word about it has given up once a poll comes ten seconds
   later: over the run and that poll it has reported that it timed out, that once, and nothing else.
   */
  lemma SilentPeerTimesOut<S>(rules: R.Rules<S>, initial: S, begun: nat, events: seq<Event<S>>, now: nat,
                              encoding: Encoding)
    requires NeverAWord(events)
    requires var start := Begun(initial, begun);
             var (s, asked) := (RunAll(rules, start, events).0, AskedAt(rules, start, events));
             && asked.Some? && now >= asked.value + 10_000
             && s.lifecycle == Running && (s.associationDue ==> encoding.association)
    ensures var (s, effects) := RunAll(rules, Begun(initial, begun), events + [PollAt(now, encoding)]);
            s.shutdown == Complete(TimedOut) && Completions(effects) == [TimedOut]
    ensures var s := RunAll(rules, Begun(initial, begun), events).0;
            Valid(s.local) && (!s.shutdown.Complete? ==> TimesOut(Poll(s, now, encoding).1))
  {
    var start := Begun(initial, begun);
    var s := RunAll(rules, start, events).0;
    var all := events + [PollAt(now, encoding)];
    DropPrefix(events, [PollAt(now, encoding)]);
    RunIsUnanswered(rules, initial, begun, events);
    assert s.local.marks != [];
    assert start.shutdown == Open;
    RunIsAsked(rules, start, events);
    if !s.shutdown.Complete? { TimesOutIff(rules, initial, begun, events, now, encoding); }
    hide Inv, Valid, Poll, Completions, AskedAt, Begun;
    OneCompletion(rules, start, all);
    StepCompletes(rules, s, PollAt(now, encoding));
    if !s.shutdown.Complete? { EndsAsTimedOut(s, now, encoding); }
  }

  lemma EndsAsTimedOut<S>(s: State<S>, now: nat, encoding: Encoding)
    requires Valid(s.local) && Works(s, encoding) && TimesOut(Poll(s, now, encoding).1)
    ensures Poll(s, now, encoding).0.shutdown == Complete(TimedOut)
  {
    PollTimesOutIff(s, now, encoding);
    assert s.local.marks != [];
    var (associated, association) := Associated(s, now);
    assert Ending(associated, now) == Ending(s, now);
    hide Continue, Proceed, Valid, Ending;
    GoesOn(associated, association, now, encoding.main);
  }
}
