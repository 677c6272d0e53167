/**
 What the peer sends is acknowledged: an update that advances makes an acknowledgement due, and the
 next poll sends it.
 */
module Acknowledging {
  import opened Prelude
  import opened Wire
  import opened Sender
  import opened Runtime
  import opened RuntimeRuns
  import opened InputQueue
  import R = Receiver
  import Rto
  import Shutdown
  import Timer

  /** Nothing ends the session before it sends: a peer waits for an answer, or no shutdown is confirmed or overdue. */
  predicate Continues<S>(s: State<S>, now: nat)
    requires s.local.marks != []
  {
    s.peerAckDue || (!ShutdownAcknowledged(s.local) && !ShutdownTimedOut(s, now))
  }

  // ---- One advance ----------------------------------------------------------

  /** An update that advances a running session wakes it at once, whenever it is asked. */
  lemma AdvanceIsUrgent<S>(rules: R.Rules<S>, s: State<S>, echoed: u16, u: StateUpdate, now: nat, later: nat)
    requires Inv(s) && s.lifecycle == Running && Shutdown.Advances(rules, s, u)
    ensures var next := Receive(rules, s, Full(echoed, u), now).0;
            && Inv(next) && Valid(next.local) && next.ackDue && next.remote.latest == u.target
            && (!s.shutdown.Complete? ==> MillisecondsUntilNextPoll(next, later) == 0)
  {
    ReceiveKeepsInv(rules, s, Full(echoed, u), now);
    InvIsValid(Receive(rules, s, Full(echoed, u), now).0);
    Shutdown.AdvancedIsLatest(rules, s, echoed, u, now);
    hide R.Accept, Acknowledged, Rto.Sampled, HostEffects, Inv, Valid;
  }

  /** With an acknowledgement due, what a poll that goes on sends first is a datagram. */
  lemma DueIsSent<S>(s: State<S>, now: nat)
    requires Valid(s.local) && s.ackDue && Continue(s, now, true).1.Ok?
    ensures Continue(s, now, true).1.value != [] && Continue(s, now, true).1.value[0].SendDatagram?
  {
    Timer.ContinueEmitsIff(s, now);
    hide Continue, Valid;
  }

  lemma DuePollSends<S>(s: State<S>, now: nat)
    requires Valid(s.local) && Works(s, WORKS) && s.ackDue && Continues(s, now) && Poll(s, now, WORKS).1.Ok?
    ensures Timer.HasDatagram(Poll(s, now, WORKS).1.value)
  {
    assert s.local.marks != [];
    var (associated, association) := Associated(s, now);
    var (noticed, silence) := NoticeSilence(associated, now);
    GoesOn(associated, association, now, true);
    assert Ending(associated, now).None?;
    hide Continue, Proceed, Valid, ShutdownTimedOut, ShutdownAcknowledged;
    DueIsSent(noticed, now);
    var sent := Continue(noticed, now, true).1.value;
    assert (association + silence + sent)[|association + silence|] == sent[0];
  }

  /**
   With an acknowledgement due, a poll whose encodings work sends it: a datagram goes out and every one
   says how far the peer's states have come, unless the poll ends the session or loses input.
   */
  lemma DueIsAcknowledged<S>(s: State<S>, now: nat)
    requires Inv(s) && Works(s, WORKS) && s.ackDue
    ensures Valid(s.local)
    ensures Continues(s, now) && !LosesInput(s, now, WORKS) ==>
              var r := Poll(s, now, WORKS).1;
              r.Ok? && Timer.HasDatagram(r.value) && Shutdown.AllAcknowledge(r.value, s.remote.latest)
  {
    InvIsValid(s);
    hide Inv, Valid, Poll, LosesInput, Continues, Timer.HasDatagram, Shutdown.AllAcknowledge;
    assert s.estimate.timeout > 0 by { TimeoutIsPositive(s); }
    if !LosesInput(s, now, WORKS) && Continues(s, now) {
      Timer.PollFailsIff(s, now);
      DuePollSends(s, now);
      Shutdown.PollAnswers(s, now, WORKS);
    }
  }

  /** An update that advances is acknowledged by name in the next poll, at whatever time. */
  lemma AdvanceIsAnswered<S>(rules: R.Rules<S>, s: State<S>, echoed: u16, u: StateUpdate, at: nat, now: nat)
    requires Inv(s) && s.lifecycle == Running && !s.shutdown.Complete? && Shutdown.Advances(rules, s, u)
    ensures var next := Receive(rules, s, Full(echoed, u), at).0;
            && Valid(next.local)
            && (Continues(next, now) && !LosesInput(next, now, WORKS) ==>
                var r := Poll(next, now, WORKS).1;
                r.Ok? && Timer.HasDatagram(r.value) && Shutdown.AllAcknowledge(r.value, u.target))
  {
    var next := Receive(rules, s, Full(echoed, u), at).0;
    AdvanceIsUrgent(rules, s, echoed, u, at, now);
    ReceivingLives(rules, s, Full(echoed, u), at);
    hide Receive, Poll, LosesInput, Inv, Valid, Continues, Shutdown.Advances, Timer.HasDatagram,
         Shutdown.AllAcknowledge;
    DueIsAcknowledged(next, now);
  }

  lemma ReceivingLives<S>(rules: R.Rules<S>, s: State<S>, datagram: Datagram, now: nat)
    ensures var next := Receive(rules, s, datagram, now).0;
            && next.lifecycle == s.lifecycle && (next.shutdown.Complete? <==> s.shutdown.Complete?)
            && next.associationDue == s.associationDue && (s.ackDue ==> next.ackDue)
  {
    hide R.Accept, Acknowledged, Rto.Sampled, HostEffects;
  }

  // ---- Over runs ------------------------------------------------------------

  /** Any host call but a poll that gets as far as sending, or as taking input off the queue. */
  predicate LeavesDue<S>(s: State<S>, event: Event<S>)
    requires s.local.marks != []
  {
    event.PollAt? && Works(s, event.encoding) ==>
      !event.encoding.main && (Pending(s.local) || (s.queue == [] && !ShutdownUnsent(s)))
  }

  lemma ContinueLeavesDue<S>(s: State<S>, now: nat)
    requires Valid(s.local) && s.ackDue && (Pending(s.local) || (s.queue == [] && !ShutdownUnsent(s)))
    ensures Continue(s, now, false).0.ackDue
  {
  }

  lemma PollLeavesDue<S>(s: State<S>, now: nat, encoding: Encoding)
    requires Valid(s.local) && s.ackDue && LeavesDue(s, PollAt(now, encoding))
    ensures Poll(s, now, encoding).0.ackDue
  {
    assert s.local.marks != [];
    if Works(s, encoding) {
      var (associated, association) := Associated(s, now);
      var noticed := NoticeSilence(associated, now).0;
      assert noticed.local == s.local && noticed.queue == s.queue && noticed.ackDue;
      assert ShutdownUnsent(noticed) == ShutdownUnsent(s);
      hide Continue, Proceed, Valid, Ending, ShutdownUnsent;
      GoesOn(associated, association, now, false);
      ContinueLeavesDue(noticed, now);
    }
  }

  lemma StepLeavesDue<S>(rules: R.Rules<S>, s: State<S>, event: Event<S>)
    requires Inv(s) && Valid(s.local) && s.ackDue && LeavesDue(s, event)
    ensures Step(rules, s, event).0.ackDue
  {
    hide Poll, Receive, Inv, Valid, LeavesDue;
    match event {
      case PollAt(now, encoding) => PollLeavesDue(s, now, encoding);
      case Datagrams(datagram, now) => ReceivingLives(rules, s, datagram, now);
      case _ =>
    }
  }

  /** From call `i` up to call `j`, no poll gets as far as sending or as taking input off the queue. */
  ghost predicate NothingSent<S>(rules: R.Rules<S>, start: State<S>, events: seq<Event<S>>, i: nat, j: nat)
    requires Inv(start)
  {
    forall k :: i <= k < j <= |events| ==>
      var s := RunAll(rules, start, events[..k]).0; s.local.marks != [] && LeavesDue(s, events[k])
  }

  lemma {:induction false} DueStays<S>(rules: R.Rules<S>, start: State<S>, events: seq<Event<S>>, i: nat, j: nat)
    requires Inv(start) && i <= j <= |events| && RunAll(rules, start, events[..i]).0.ackDue
    requires NothingSent(rules, start, events, i, j)
    ensures RunAll(rules, start, events[..j]).0.ackDue
    decreases j
  {
    hide Step, RunAll, Inv, Valid, LeavesDue;
    if i < j {
      DueStays(rules, start, events, i, j - 1);
      var s := RunAll(rules, start, events[..j - 1]).0;
      InvIsValid(s);
      Shutdown.RunSnoc(rules, start, events, j - 1);
      StepLeavesDue(rules, s, events[j - 1]);
    }
  }

  /**
   In any run, once a datagram has advanced the peer's state to `u.target`, the first poll after it that
   gets as far as sending acknowledges that state or a later one, unless it ends the session or loses input.
   */
  lemma AdvanceIsAcknowledged<S>(rules: R.Rules<S>, start: State<S>, events: seq<Event<S>>, i: nat, now: nat)
    requires Inv(start) && i < |events| && events[i].Datagrams? && events[i].datagram.Full?
    requires var s := RunAll(rules, start, events[..i]).0;
             s.lifecycle == Running && Shutdown.Advances(rules, s, events[i].datagram.update)
    requires NothingSent(rules, start, events, i + 1, |events|)
    requires Works(RunAll(rules, start, events).0, WORKS)
    ensures var s := RunAll(rules, start, events).0;
            && Valid(s.local) && s.ackDue && MillisecondsUntilNextPoll(s, now) == 0
            && events[i].datagram.update.target <= s.remote.latest
            && (Continues(s, now) && !LosesInput(s, now, WORKS) ==>
                var r := Poll(s, now, WORKS).1;
                r.Ok? && Timer.HasDatagram(r.value) && Shutdown.AllAcknowledge(r.value, s.remote.latest))
  {
    var before, s := RunAll(rules, start, events[..i]).0, RunAll(rules, start, events).0;
    InvIsValid(before);
    InvIsValid(s);
    assert s.local.marks != [];
    hide Step, RunAll, Receive, Inv, Valid, Poll, LosesInput, Continues, Shutdown.Advances, Timer.HasDatagram,
         Shutdown.AllAcknowledge, LeavesDue;
    AdvanceIsUrgent(rules, before, events[i].datagram.echoed, events[i].datagram.update, events[i].now, now);
    Shutdown.DatagramStep(rules, before, events[i]);
    Shutdown.RunSnoc(rules, start, events, i);
    DueStays(rules, start, events, i + 1, |events|);
    assert events[..|events|] == events;
    Shutdown.LatestStays(rules, start, events, i + 1);
    DueIsAcknowledged(s, now);
  }
}
