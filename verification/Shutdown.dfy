/** The shutdown handshake over whole runs of host calls. */
module Shutdown {
  import opened Prelude
  import opened Wire
  import opened Sender
  import opened Runtime
  import opened RuntimeRuns
  import R = Receiver
  import Rto

  // ---- One completion -------------------------------------------------------

  /** The completions reported among some effects, in order. */
  function Completions(effects: seq<Effect>): seq<Outcome> {
    if effects == [] then []
    else
      Completions(effects[..|effects| - 1])
      + match effects[|effects| - 1] { case ShutdownComplete(outcome) => [outcome] case _ => [] }
  }

  lemma {:induction false} CompletionsConcat(a: seq<Effect>, b: seq<Effect>)
    ensures Completions(a + b) == Completions(a) + Completions(b)
  {
    if b == [] {
      assert a + b == a;
    } else {
      CompletionsConcat(a, b[..|b| - 1]);
      assert (a + b)[..|a + b| - 1] == a + b[..|b| - 1];
    }
  }

  predicate NoCompletion(effects: seq<Effect>) {
    forall k :: 0 <= k < |effects| ==> !effects[k].ShutdownComplete?
  }

  lemma {:induction false} NoCompletions(effects: seq<Effect>)
    requires NoCompletion(effects)
    ensures Completions(effects) == []
  {
    if effects != [] { NoCompletions(effects[..|effects| - 1]); }
  }

  lemma CompletesLast(front: seq<Effect>, outcome: Outcome)
    requires NoCompletion(front)
    ensures Completions(front + [ShutdownComplete(outcome)]) == [outcome]
  {
    CompletionsConcat(front, [ShutdownComplete(outcome)]);
    NoCompletions(front);
    assert [ShutdownComplete(outcome)][..0] == [];
  }

  /** The completion a step reports: the outcome it enters, if it enters one. */
  function Entered<S>(s: State<S>, next: State<S>): seq<Outcome> {
    if !s.shutdown.Complete? && next.shutdown.Complete? then [next.shutdown.outcome] else []
  }

  lemma ContinueCompletes<S>(s: State<S>, now: nat, encodes: bool)
    requires Valid(s.local) && !s.shutdown.Complete?
    ensures var (next, r) := Continue(s, now, encodes);
            && (r.Err? ==> !next.shutdown.Complete?)
            && (r.Ok? ==> if next.shutdown.Complete?
                          then s.peerAckDue && next.shutdown.outcome == PeerRequested && |r.value| == 2
                               && r.value[0].SendDatagram? && r.value[1] == ShutdownComplete(PeerRequested)
                          else NoCompletion(r.value))
  {
  }

  lemma ProceedCompletes<S>(s: State<S>, collected: seq<Effect>, now: nat, encodes: bool)
    requires Valid(s.local) && !s.shutdown.Complete? && NoCompletion(collected)
    ensures var (next, r) := Proceed(s, collected, now, encodes);
            Entered(s, next) == if r.Ok? then Completions(r.value) else []
  {
    hide Continue, Completions;
    if Ending(s, now).Some? {
      CompletesLast([], Ending(s, now).value);
      assert [] + [ShutdownComplete(Ending(s, now).value)] == [ShutdownComplete(Ending(s, now).value)];
    } else {
      var (noticed, silence) := NoticeSilence(s, now);
      ContinueCompletes(noticed, now, encodes);
      var (next, r) := Continue(noticed, now, encodes);
      if r.Ok? { TailCompletes(collected + silence, r.value, next.shutdown); }
    }
  }

  lemma TailCompletes(front: seq<Effect>, tail: seq<Effect>, shutdown: ShutdownState)
    requires NoCompletion(front)
    requires if shutdown.Complete?
             then shutdown.outcome == PeerRequested && |tail| == 2
                  && tail[0].SendDatagram? && tail[1] == ShutdownComplete(PeerRequested)
             else NoCompletion(tail)
    ensures Completions(front + tail) == if shutdown.Complete? then [shutdown.outcome] else []
  {
    hide Completions;
    if shutdown.Complete? {
      CompletesLast(front + [tail[0]], PeerRequested);
      assert front + tail == front + [tail[0]] + [ShutdownComplete(PeerRequested)];
    } else {
      NoCompletions(front + tail);
    }
  }

  lemma PollCompletes<S>(s: State<S>, now: nat, encoding: Encoding)
    requires Valid(s.local)
    ensures var (next, r) := Poll(s, now, encoding);
            && Entered(s, next) == (if r.Ok? then Completions(r.value) else [])
            && (s.shutdown.Complete? ==> next == s)
  {
    hide Proceed;
    if Works(s, encoding) {
      var (associated, association) := Associated(s, now);
      ProceedCompletes(associated, association, now, encoding.main);
    }
  }

  lemma {:induction false} HostEffectsDoNotComplete(batch: seq<Instruction>)
    ensures NoCompletion(HostEffects(batch))
  {
    if batch != [] { HostEffectsDoNotComplete(batch[..|batch| - 1]); }
  }

  lemma ReceiveDoesNotComplete<S>(rules: R.Rules<S>, s: State<S>, datagram: Datagram, now: nat)
    ensures var (next, r) := Receive(rules, s, datagram, now);
            && (r.Ok? ==> NoCompletion(r.value))
            && (next.shutdown == s.shutdown || (s.shutdown == Open && next.shutdown == PeerAsked))
  {
    hide R.Accept, HostEffects, Acknowledged, Rto.Sampled;
    if datagram.Full? {
      var outcome := R.Accept(rules, s.remote, datagram.update).1;
      if outcome.Ok? { HostEffectsDoNotComplete(outcome.value.1.delta); }
    }
  }

  lemma StepCompletes<S>(rules: R.Rules<S>, s: State<S>, event: Event<S>)
    requires Inv(s)
    ensures var (next, effects) := Step(rules, s, event);
            && Completions(effects) == Entered(s, next)
            && (s.shutdown.Complete? ==> next.shutdown == s.shutdown)
  {
    hide Poll, Receive, Inv;
    assert Valid(s.local) by { InvIsValid(s); }
    match event {
      case PollAt(now, encoding) => PollCompletes(s, now, encoding);
      case Datagrams(datagram, now) =>
        ReceiveDoesNotComplete(rules, s, datagram, now);
        NoCompletions(Step(rules, s, event).1);
      case _ => NoCompletions(Step(rules, s, event).1);
    }
  }

  /** Over any run at most one completion is ever reported, and it is the outcome the session keeps. */
  lemma {:induction false} OneCompletion<S>(rules: R.Rules<S>, start: State<S>, events: seq<Event<S>>)
    requires Inv(start) && !start.shutdown.Complete?
    ensures var (s, effects) := RunAll(rules, start, events);
            Completions(effects) == if s.shutdown.Complete? then [s.shutdown.outcome] else []
    decreases |events|
  {
    if events != [] {
      var n := |events| - 1;
      OneCompletion(rules, start, events[..n]);
      var (before, effects) := RunAll(rules, start, events[..n]);
      StepCompletes(rules, before, events[n]);
      CompletionsConcat(effects, Step(rules, before, events[n]).1);
    }
  }

  // ---- The reserved state ---------------------------------------------------

  /** What a step may do to the sender: nothing, acknowledge, or drain the whole queue into one fresh state. */
  predicate SenderStep<S>(s: State<S>, next: State<S>)
    requires Valid(s.local) && Valid(next.local)
  {
    || (next.local.log == s.local.log && next.local.next == s.local.next
        && (ShutdownSent(next.local) <==> ShutdownSent(s.local)))
    || (&& !ShutdownSent(s.local) && next.queue == []
        && next.local.log == s.local.log + s.queue
        && (if ShutdownUnsent(s) then ShutdownSent(next.local) && next.local.next == s.local.next
            else !ShutdownSent(next.local) && Back(next.local).id == s.local.next && next.local.next == s.local.next + 1
                 && s.queue != []))
  }

  lemma ContinueSenderStep<S>(s: State<S>, now: nat, encodes: bool)
    requires Inv(s) && !s.associationDue && !s.shutdown.Complete? && Ending(s, now).None? && s.lifecycle == Running
    ensures Inv(Continue(s, now, encodes).0) && SenderStep(s, Continue(s, now, encodes).0)
  {
    hide Ordered, Agree, Monotone;
    ContinueKeepsInv(s, now, encodes);
    if Choose(s, now) == SendQueued {
      QueuedSendIsFresh(s, now);
      if Build(s, encodes).Ok? { BuildIsSound(s, encodes); }
    }
  }

  lemma NoticingStep<S>(s: State<S>, now: nat, next: State<S>)
    requires Valid(s.local) && Valid(next.local) && SenderStep(NoticeSilence(s, now).0, next)
    ensures SenderStep(s, next)
  {
    hide Valid;
  }

  lemma EndingStep<S>(s: State<S>, outcome: Outcome)
    requires Valid(s.local)
    ensures SenderStep(s, s.(shutdown := Complete(outcome)))
  {
  }

  lemma ProceedSenderStep<S>(s: State<S>, collected: seq<Effect>, now: nat, encodes: bool)
    requires Inv(s) && !s.associationDue && !s.shutdown.Complete? && s.lifecycle == Running
    ensures Inv(Proceed(s, collected, now, encodes).0) && SenderStep(s, Proceed(s, collected, now, encodes).0)
  {
    PollPreludeKeepsInv(s, now);
    NoticedIsLive(s, now);
    hide Proceed, Continue, Inv, Valid, Ending, SenderStep;
    GoesOn(s, collected, now, encodes);
    ProceedKeepsInv(s, collected, now, encodes);
    if Ending(s, now).None? {
      var noticed := NoticeSilence(s, now).0;
      ContinueSenderStep(noticed, now, encodes);
      NoticingStep(s, now, Continue(noticed, now, encodes).0);
    } else {
      EndingStep(s, Ending(s, now).value);
    }
  }

  lemma NoticedIsLive<S>(s: State<S>, now: nat)
    requires Inv(s)
    ensures var noticed := NoticeSilence(s, now).0;
            && Valid(s.local) && noticed.local == s.local && noticed.associationDue == s.associationDue
            && noticed.shutdown == s.shutdown && noticed.lifecycle == s.lifecycle && noticed.remote == s.remote
            && Ending(noticed, now) == Ending(s, now)
  {
    hide Valid;
  }

  lemma PollSenderStep<S>(s: State<S>, now: nat, encoding: Encoding)
    requires Inv(s)
    ensures Inv(Poll(s, now, encoding).0) && SenderStep(s, Poll(s, now, encoding).0)
  {
    assert s.local.marks != [];
    hide Proceed, Inv, Valid;
    PollKeepsInv(s, now, encoding);
    InvIsValid(s);
    InvIsValid(Poll(s, now, encoding).0);
    if Works(s, encoding) {
      PollPreludeKeepsInv(s, now);
      ProceedSenderStep(Associated(s, now).0, Associated(s, now).1, now, encoding.main);
    }
  }

  lemma ReceiveSenderStep<S>(rules: R.Rules<S>, s: State<S>, datagram: Datagram, now: nat)
    requires Inv(s)
    ensures Inv(Receive(rules, s, datagram, now).0) && SenderStep(s, Receive(rules, s, datagram, now).0)
  {
    hide R.Accept, HostEffects, Acknowledged, Rto.Sampled, Ordered, Agree, Monotone;
    ReceiveKeepsInv(rules, s, datagram, now);
    if datagram.Full? { AcknowledgedKeepsInv(s, datagram.update.acknowledged); }
  }

  lemma StepSenderStep<S>(rules: R.Rules<S>, s: State<S>, event: Event<S>)
    requires Inv(s)
    ensures Inv(Step(rules, s, event).0) && SenderStep(s, Step(rules, s, event).0)
  {
    hide Poll, Receive, Ordered, Agree, Monotone;
    StepKeepsInv(rules, s, event);
    match event {
      case PollAt(now, encoding) => PollSenderStep(s, now, encoding);
      case Datagrams(datagram, now) => ReceiveSenderStep(rules, s, datagram, now);
      case _ =>
    }
  }

  /** The step at position `i` of a run is the one that sends the reserved state as a fresh state. */
  predicate SendsShutdown<S>(rules: R.Rules<S>, start: State<S>, events: seq<Event<S>>, i: nat)
    requires Inv(start) && i < |events|
  {
    !ShutdownSent(RunAll(rules, start, events[..i]).0.local)
      && ShutdownSent(RunAll(rules, start, events[..i + 1]).0.local)
  }

  lemma RunSnoc<S>(rules: R.Rules<S>, start: State<S>, events: seq<Event<S>>, i: nat)
    requires Inv(start) && i < |events|
    ensures RunAll(rules, start, events[..i + 1]).0 == Step(rules, RunAll(rules, start, events[..i]).0, events[i]).0
  {
    assert events[..i + 1][..i] == events[..i];
  }

  lemma {:induction false} ShutdownStaysSent<S>(rules: R.Rules<S>, start: State<S>, events: seq<Event<S>>, i: nat,
                                                j: nat)
    requires Inv(start) && i <= j <= |events| && ShutdownSent(RunAll(rules, start, events[..i]).0.local)
    ensures ShutdownSent(RunAll(rules, start, events[..j]).0.local)
    ensures RunAll(rules, start, events[..j]).0.local.log == RunAll(rules, start, events[..i]).0.local.log
    decreases j
  {
    hide Step, RunAll, Ordered, Agree, Monotone;
    if i < j {
      ShutdownStaysSent(rules, start, events, i, j - 1);
      RunSnoc(rules, start, events, j - 1);
      StepSenderStep(rules, RunAll(rules, start, events[..j - 1]).0, events[j - 1]);
    }
  }

  /**
   The reserved state is sent as a fresh state at most once, it takes everything
   still queued along, and no input ever follows it.
   */
  lemma ShutdownIsSentOnce<S>(rules: R.Rules<S>, start: State<S>, events: seq<Event<S>>, i: nat, j: nat)
    requires Inv(start) && i < |events| && j < |events|
    requires SendsShutdown(rules, start, events, i) && SendsShutdown(rules, start, events, j)
    ensures i == j
    ensures var (before, after, last) := (RunAll(rules, start, events[..i]).0, RunAll(rules, start, events[..i + 1]).0,
                                          RunAll(rules, start, events).0);
            && before.shutdown.LocalRequested?
            && after.local.log == before.local.log + before.queue && after.queue == []
            && last.local.log == after.local.log && last.queue == []
  {
    hide Step, RunAll, Ordered, Agree, Monotone;
    if i < j { ShutdownStaysSent(rules, start, events, i + 1, j); }
    if j < i { ShutdownStaysSent(rules, start, events, j + 1, i); }
    RunSnoc(rules, start, events, i);
    StepSenderStep(rules, RunAll(rules, start, events[..i]).0, events[i]);
    assert events[..|events|] == events;
    ShutdownStaysSent(rules, start, events, i + 1, |events|);
  }

  // ---- Counting transmissions ----------------------------------------------

  /** Whether a step is a poll whose transmission is counted against the local shutdown. */
  predicate Counts<S>(s: State<S>, event: Event<S>)
    requires Valid(s.local)
  {
    event.PollAt? && Works(s, event.encoding)
    && ProceedCountsOne(Associated(s, event.now).0, event.now, event.encoding.main)
  }

  predicate ProceedCountsOne<S>(s: State<S>, now: nat, encodes: bool)
    requires Valid(s.local)
  {
    && s.shutdown.LocalRequested? && Ending(s, now).None? && Choose(s, now) in {SendQueued, Resend}
    && Continue(NoticeSilence(s, now).0, now, encodes).1.Ok?
  }

  function Transmissions<S>(rules: R.Rules<S>, start: State<S>, events: seq<Event<S>>): nat
    requires Inv(start)
    decreases |events|
  {
    if events == [] then 0
    else
      var n := |events| - 1;
      Transmissions(rules, start, events[..n]) + if Counts(RunAll(rules, start, events[..n]).0, events[n]) then 1 else 0
  }

  /** What the shutdown state knows about the number of counted transmissions so far. */
  predicate CountIs(shutdown: ShutdownState, count: nat) {
    match shutdown
    case Open => count == 0
    case PeerAsked => count == 0
    case LocalRequested(_, transmissions) => count == transmissions <= SHUTDOWN_RETRY_LIMIT
    case Complete(outcome) => count <= if outcome == PeerRequested then SHUTDOWN_RETRY_LIMIT + 1
      else SHUTDOWN_RETRY_LIMIT
  }

  lemma ContinueCounts<S>(s: State<S>, now: nat, encodes: bool, count: nat)
    requires Inv(s) && !s.associationDue && !s.shutdown.Complete? && Ending(s, now).None? && s.lifecycle == Running
    requires CountIs(s.shutdown, count)
    ensures var (next, r) := Continue(s, now, encodes);
            var counted := s.shutdown.LocalRequested? && Choose(s, now) in {SendQueued, Resend} && r.Ok?;
            CountIs(next.shutdown, count + if counted then 1 else 0)
  {
    hide Valid;
  }

  lemma ProceedCounts<S>(s: State<S>, collected: seq<Effect>, now: nat, encodes: bool, count: nat)
    requires Inv(s) && !s.associationDue && !s.shutdown.Complete? && s.lifecycle == Running
    requires CountIs(s.shutdown, count)
    ensures CountIs(Proceed(s, collected, now, encodes).0.shutdown,
                    count + if ProceedCountsOne(s, now, encodes) then 1 else 0)
  {
    hide Continue, Inv;
    PollPreludeKeepsInv(s, now);
    InvIsValid(s);
    if Ending(s, now).None? {
      ContinueCounts(NoticeSilence(s, now).0, now, encodes, count);
    }
  }

  lemma StepCounts<S>(rules: R.Rules<S>, s: State<S>, event: Event<S>, count: nat)
    requires Inv(s) && CountIs(s.shutdown, count)
    ensures CountIs(Step(rules, s, event).0.shutdown, count + if Counts(s, event) then 1 else 0)
  {
    hide Proceed, ProceedCountsOne, Receive, Inv;
    InvIsValid(s);
    match event {
      case PollAt(now, encoding) =>
        if Works(s, encoding) {
          PollPreludeKeepsInv(s, now);
          ProceedCounts(Associated(s, now).0, Associated(s, now).1, now, encoding.main, count);
        }
      case Datagrams(datagram, now) => ReceiveDoesNotComplete(rules, s, datagram, now);
      case _ =>
    }
  }

  lemma {:induction false} RunCounts<S>(rules: R.Rules<S>, start: State<S>, events: seq<Event<S>>)
    requires Inv(start) && start.shutdown == Open
    ensures CountIs(RunAll(rules, start, events).0.shutdown, Transmissions(rules, start, events))
    decreases |events|
  {
    if events != [] {
      var n := |events| - 1;
      RunCounts(rules, start, events[..n]);
      StepCounts(rules, RunAll(rules, start, events[..n]).0, events[n], Transmissions(rules, start, events[..n]));
    }
  }

  /** At most 16 transmissions are counted in any run; a 17th only answers a peer's request and ends the session. */
  lemma TransmissionsAreBounded<S>(rules: R.Rules<S>, start: State<S>, events: seq<Event<S>>)
    requires Inv(start) && start.shutdown == Open
    ensures Transmissions(rules, start, events) <= SHUTDOWN_RETRY_LIMIT + 1
    ensures Transmissions(rules, start, events) == SHUTDOWN_RETRY_LIMIT + 1 ==>
              RunAll(rules, start, events).0.shutdown == Complete(PeerRequested)
  {
    RunCounts(rules, start, events);
  }

  // ---- Answering the peer ---------------------------------------------------

  predicate AllAcknowledge(effects: seq<Effect>, id: u64) {
    forall k :: 0 <= k < |effects| && effects[k].SendDatagram? ==> effects[k].update.acknowledged == id
  }

  /** A datagram that acknowledges `id`, and right after it the peer-requested completion. */
  predicate AnswersPeer(effects: seq<Effect>, id: u64) {
    var n := |effects|;
    && n >= 2 && effects[n - 1] == ShutdownComplete(PeerRequested)
    && effects[n - 2].SendDatagram? && effects[n - 2].update.acknowledged == id
  }

  /** What a poll, or part of one, owes the peer: remote state untouched and acknowledged, its request answered. */
  ghost predicate Answers<S>(s: State<S>, next: State<S>, r: Result<seq<Effect>, RuntimeError>) {
    && next.remote == s.remote
    && (r.Ok? ==> AllAcknowledge(r.value, s.remote.latest))
    && (r.Ok? && !s.shutdown.Complete? && next.shutdown == Complete(PeerRequested) ==>
        AnswersPeer(r.value, s.remote.latest))
    && (r.Err? && !s.shutdown.Complete? ==> !next.shutdown.Complete?)
  }

  lemma BuildAcknowledges<S>(s: State<S>, encodes: bool)
    requires Valid(s.local) && Build(s, encodes).Ok?
    ensures Build(s, encodes).value.1.acknowledged == s.remote.latest
  {
    hide Valid, Sent;
  }

  lemma ContinueAnswers<S>(s: State<S>, now: nat, encodes: bool)
    requires Valid(s.local)
    ensures Answers(s, Continue(s, now, encodes).0, Continue(s, now, encodes).1)
  {
    hide Build;
    if Choose(s, now) == SendQueued && Build(s, encodes).Ok? { BuildAcknowledges(s, encodes); }
  }

  lemma AllAcknowledgeConcat(a: seq<Effect>, b: seq<Effect>, id: u64)
    requires AllAcknowledge(a, id) && AllAcknowledge(b, id)
    ensures AllAcknowledge(a + b, id)
    ensures AnswersPeer(b, id) ==> AnswersPeer(a + b, id)
  {
  }

  lemma ProceedAnswers<S>(s: State<S>, collected: seq<Effect>, now: nat, encodes: bool)
    requires Valid(s.local) && AllAcknowledge(collected, s.remote.latest)
    ensures Answers(s, Proceed(s, collected, now, encodes).0, Proceed(s, collected, now, encodes).1)
  {
    assert s.local.marks != [];
    hide Proceed, Continue, Valid, AllAcknowledge, AnswersPeer;
    GoesOn(s, collected, now, encodes);
    if Ending(s, now).None? {
      var (noticed, silence) := NoticeSilence(s, now);
      ContinueAnswers(noticed, now, encodes);
      SilenceAcknowledges(s, now);
      AllAcknowledgeConcat(collected, silence, s.remote.latest);
      var r := Continue(noticed, now, encodes).1;
      if r.Ok? { AllAcknowledgeConcat(collected + silence, r.value, s.remote.latest); }
    } else {
      CompletionAcknowledges(Ending(s, now).value, s.remote.latest);
    }
  }

  lemma SilenceAcknowledges<S>(s: State<S>, now: nat)
    ensures AllAcknowledge(NoticeSilence(s, now).1, s.remote.latest)
  {
  }

  lemma CompletionAcknowledges(outcome: Outcome, id: u64)
    ensures AllAcknowledge([ShutdownComplete(outcome)], id)
  {
  }

  /** Every datagram of a poll acknowledges the latest remote state; a peer's request is answered right behind one. */
  lemma PollAnswers<S>(s: State<S>, now: nat, encoding: Encoding)
    requires Valid(s.local)
    ensures Answers(s, Poll(s, now, encoding).0, Poll(s, now, encoding).1)
  {
    assert s.local.marks != [];
    hide Proceed, Valid;
    if Works(s, encoding) {
      ProceedAnswers(Associated(s, now).0, Associated(s, now).1, now, encoding.main);
    }
  }

  /** An update the receiver takes as an advance makes its target the latest remote state. */
  lemma AdvancedIsLatest<S>(rules: R.Rules<S>, s: State<S>, echoed: u16, u: StateUpdate, now: nat)
    requires s.lifecycle == Running && Advances(rules, s, u)
    ensures Receive(rules, s, Full(echoed, u), now).0.remote.latest == u.target
  {
    hide R.Pruned, R.Target, Acknowledged, Rto.Sampled, HostEffects;
  }

  predicate Advances<S>(rules: R.Rules<S>, s: State<S>, u: StateUpdate) {
    var outcome := R.Accept(rules, s.remote, u).1;
    outcome.Ok? && outcome.value.0
  }

  lemma ReceiveNeverFalls<S>(rules: R.Rules<S>, s: State<S>, datagram: Datagram, now: nat)
    ensures s.remote.latest <= Receive(rules, s, datagram, now).0.remote.latest
  {
    hide R.Accept, Acknowledged, Rto.Sampled, HostEffects;
    if datagram.Full? { R.LatestNeverFalls(rules, s.remote, datagram.update); }
  }

  /** The latest remote state never goes back. */
  lemma LatestNeverFalls<S>(rules: R.Rules<S>, s: State<S>, event: Event<S>)
    requires Inv(s)
    ensures s.remote.latest <= Step(rules, s, event).0.remote.latest
  {
    hide Poll, Receive, Inv, Valid;
    InvIsValid(s);
    match event {
      case PollAt(now, encoding) => PollAnswers(s, now, encoding);
      case Datagrams(datagram, now) => ReceiveNeverFalls(rules, s, datagram, now);
      case _ =>
    }
  }

  lemma {:induction false} LatestStays<S>(rules: R.Rules<S>, start: State<S>, events: seq<Event<S>>, i: nat)
    requires Inv(start) && i <= |events|
    ensures RunAll(rules, start, events[..i]).0.remote.latest <= RunAll(rules, start, events).0.remote.latest
    decreases |events|
  {
    hide Step, Inv;
    if i < |events| {
      var n := |events| - 1;
      LatestStays(rules, start, events[..n], i);
      assert events[..n][..i] == events[..i];
      LatestNeverFalls(rules, RunAll(rules, start, events[..n]).0, events[n]);
    } else {
      assert events[..i] == events;
    }
  }

  /**
   Once some datagram of a run has advanced the remote state to the reserved
   number, the poll that reports the peer-requested completion sends its
   acknowledgement right before it.
   */
  lemma AdvancedShutdownIsAcknowledged<S>(rules: R.Rules<S>, start: State<S>, events: seq<Event<S>>, i: nat,
                                          now: nat, encoding: Encoding)
    requires Inv(start) && i < |events| && events[i].Datagrams? && events[i].datagram.Full?
    requires var s := RunAll(rules, start, events[..i]).0;
             s.lifecycle == Running && events[i].datagram.update.target == SHUTDOWN_STATE
             && Advances(rules, s, events[i].datagram.update)
    requires var s := RunAll(rules, start, events).0;
             Valid(s.local) && !s.shutdown.Complete? && Poll(s, now, encoding).0.shutdown == Complete(PeerRequested)
    ensures var r := Poll(RunAll(rules, start, events).0, now, encoding).1;
            r.Ok? && AnswersPeer(r.value, SHUTDOWN_STATE)
  {
    hide Step, Receive, Poll, Inv, Valid, Advances;
    var s := RunAll(rules, start, events[..i]).0;
    AdvancedIsLatest(rules, s, events[i].datagram.echoed, events[i].datagram.update, events[i].now);
    DatagramStep(rules, s, events[i]);
    RunSnoc(rules, start, events, i);
    LatestStays(rules, start, events, i + 1);
    PollAnswers(RunAll(rules, start, events).0, now, encoding);
  }

  lemma DatagramStep<S>(rules: R.Rules<S>, s: State<S>, event: Event<S>)
    requires Inv(s) && event.Datagrams?
    ensures Step(rules, s, event).0 == Receive(rules, s, event.datagram, event.now).0
  {
    hide Receive;
  }

  /**
   The embedding contract says that a peer shutdown completes only after its
   acknowledgement datagram. That holds exactly when the reserved state is the
   latest remote state by then.
   */
  lemma PeerShutdownIsAcknowledgedIff<S>(s: State<S>, now: nat, encoding: Encoding)
    requires Valid(s.local) && !s.shutdown.Complete? && Poll(s, now, encoding).0.shutdown == Complete(PeerRequested)
    ensures var r := Poll(s, now, encoding).1;
            r.Ok? && ((exists k :: 0 <= k < |r.value| && r.value[k].SendDatagram?
                                   && r.value[k].update.acknowledged == SHUTDOWN_STATE)
                      <==> s.remote.latest == SHUTDOWN_STATE)
  {
    hide Poll, Valid;
    PollAnswers(s, now, encoding);
    var effects := Poll(s, now, encoding).1.value;
    assert effects[|effects| - 2].SendDatagram?;
  }

  // ---- A shutdown nobody acknowledged --------------------------------------

  const STRAY := StateUpdate(5, SHUTDOWN_STATE, 0, 0, [])

  /** A session that has associated and then been sent a shutdown update on a base it never had. */
  function Misled(initial: int): State<int> {
    Runtime.New(initial, 0).(associationDue := false, lastSend := Some(0), lastReceive := 1, connection := Connected,
                             peerAckDue := true, shutdown := PeerAsked)
  }

  lemma AssociatesFirst(initial: int)
    ensures var s := Runtime.New(initial, 0);
            Poll(s, 0, WORKS)
              == (s.(associationDue := false, lastSend := Some(0)), Ok([SendDatagram(Heartbeat(NEW, 0))]))
  {
    var associate: Effect := SendDatagram(Heartbeat(NEW, 0));
    assert [associate] + [] + [] == [associate];
  }

  lemma StrayIsNoted(rules: R.Rules<int>, initial: int)
    ensures var s := Runtime.New(initial, 0).(associationDue := false, lastSend := Some(0));
            Receive(rules, s, Full(NO_ECHO_TIMESTAMP, STRAY), 1)
            == (Misled(initial), Ok([ConnectionStateChanged(Connected)]))
  {
    hide Rto.Sampled;
    assert Acknowledged(NEW, 0) == NEW;
    assert [ConnectionStateChanged(Connected)] + [] == [ConnectionStateChanged(Connected)];
  }

  lemma MisledEnds(initial: int)
    ensures Valid(Misled(initial).local)
    ensures Poll(Misled(initial), 2000, WORKS).0.shutdown == Complete(PeerRequested)
    ensures Misled(initial).remote.latest == 0
  {
  }

  /** A shutdown update with an unknown base: the session ends as peer-requested, with only state zero acknowledged. */
  lemma UnknownBaseShutdownIsNotAcknowledged(rules: R.Rules<int>, initial: int)
    ensures var events := [PollAt(0, WORKS), Datagrams(Full(NO_ECHO_TIMESTAMP, STRAY), 1), PollAt(2000, WORKS)];
            var (s, effects) := RunAll(rules, Begun(initial, 0), events);
            s.shutdown == Complete(PeerRequested) && AllAcknowledge(effects, 0)
  {
    hide Poll, Receive, Inv, Valid;
    AssociatesFirst(initial);
    StrayIsNoted(rules, initial);
    MisledEnds(initial);
    PollAnswers(Misled(initial), 2000, WORKS);
    var e0: Event<int>, e1: Event<int>, e2: Event<int> :=
      PollAt(0, WORKS), Datagrams(Full(NO_ECHO_TIMESTAMP, STRAY), 1), PollAt(2000, WORKS);
    var start := Begun(initial, 0);
    assert [e0, e1, e2][..2] == [e0, e1] && [e0, e1][..1] == [e0] && [e0][..0] == [];
    var f0, f1 := Step(rules, start, e0).1, Step(rules, Step(rules, start, e0).0, e1).1;
    var f2 := Step(rules, Misled(initial), e2).1;
    assert RunAll(rules, start, [e0]) == (Step(rules, start, e0).0, [] + f0);
    assert RunAll(rules, start, [e0, e1]) == (Misled(initial), [] + f0 + f1);
    assert AllAcknowledge([] + f0 + f1, 0);
    AllAcknowledgeConcat([] + f0 + f1, f2, 0);
  }
}
