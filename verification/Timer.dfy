/** The closed-form timer query against the poll it stands for. */
module Timer {
  import opened Prelude
  import opened Wire
  import opened Sender
  import opened Runtime
  import opened RuntimeRuns
  import R = Receiver
  import Rto
  import InputQueue
  import Shutdown

  predicate IsOutput(effect: Effect) {
    effect.SendDatagram? || effect.ShutdownComplete?
  }

  predicate HasOutput(effects: seq<Effect>) {
    exists k :: 0 <= k < |effects| && IsOutput(effects[k])
  }

  predicate HasDatagram(effects: seq<Effect>) {
    exists k :: 0 <= k < |effects| && effects[k].SendDatagram?
  }

  /** A session the host keeps polling, with a timeout the estimator can produce. */
  predicate Live<S>(s: State<S>) {
    Valid(s.local) && s.lifecycle == Running && !s.shutdown.Complete? && s.estimate.timeout > 0
  }

  /** A poll at `now` that encodes successfully emits a datagram or ends the session. */
  predicate Emits<S>(s: State<S>, now: nat)
    requires Valid(s.local)
  {
    var r := Poll(s, now, WORKS).1;
    r.Ok? && HasOutput(r.value)
  }

  /** Something is due on its own account, shutdown deadlines aside. */
  predicate SendDue<S>(s: State<S>, now: nat)
    requires Valid(s.local)
  {
    s.associationDue || s.ackDue || IntervalOver(s, now)
    || (!Pending(s.local) && (s.queue != [] || ShutdownUnsent(s)))
  }

  lemma OutputAt(effects: seq<Effect>, k: nat)
    requires k < |effects| && IsOutput(effects[k])
    ensures HasOutput(effects)
  {
  }

  /** What a going-on poll sends, it sends first; a waiting one sends nothing. */
  lemma ContinueEmitsIff<S>(s: State<S>, now: nat)
    requires Valid(s.local) && Continue(s, now, true).1.Ok?
    ensures var effects := Continue(s, now, true).1.value;
            if Choose(s, now) == Wait then effects == [] else effects != [] && effects[0].SendDatagram?
  {
  }

  lemma OutputIn(front: seq<Effect>, back: seq<Effect>)
    ensures HasOutput(front + back) <==> HasOutput(front) || HasOutput(back)
  {
    assert forall k :: 0 <= k < |front| ==> (front + back)[k] == front[k];
    assert forall k :: 0 <= k < |back| ==> (front + back)[|front| + k] == back[k];
    if HasOutput(front + back) {
      var k :| 0 <= k < |front + back| && IsOutput((front + back)[k]);
      if k >= |front| { assert back[k - |front|] == (front + back)[k]; }
    }
  }

  lemma SilenceIsNoOutput<S>(s: State<S>, now: nat)
    ensures !HasOutput(NoticeSilence(s, now).1) && !HasOutput([])
  {
  }

  lemma ProceedEmitsIff<S>(s: State<S>, collected: seq<Effect>, now: nat)
    requires Valid(s.local) && Proceed(s, collected, now, true).1.Ok?
    ensures HasOutput(Proceed(s, collected, now, true).1.value)
            <==> Ending(s, now).Some? || HasOutput(collected) || Choose(s, now) != Wait
  {
    var effects := Proceed(s, collected, now, true).1.value;
    hide Continue, HasOutput;
    if Ending(s, now).Some? {
      OutputAt(effects, 0);
    } else {
      var (noticed, silence) := NoticeSilence(s, now);
      var sent := Continue(noticed, now, true).1.value;
      ContinueEmitsIff(noticed, now);
      SilenceIsNoOutput(s, now);
      OutputIn(collected, silence);
      OutputIn(collected + silence, sent);
      if sent != [] { OutputAt(sent, 0); }
    }
  }

  lemma SuccessEmitsIff<S>(s: State<S>, now: nat)
    requires Live(s) && Poll(s, now, WORKS).1.Ok?
    ensures Emits(s, now) <==> SendDue(s, now) || Ending(s, now).Some?
  {
    hide Proceed, HasOutput;
    var (s1, association) := Associated(s, now);
    ProceedEmitsIff(s1, association, now);
    if s.associationDue { OutputAt(association, 0); } else { SilenceIsNoOutput(s, now); }
  }

  /** A poll whose encodings work fails exactly when it loses input that can no longer be numbered or counted. */
  lemma PollFailsIff<S>(s: State<S>, now: nat)
    requires Inv(s) && Live(s)
    ensures Poll(s, now, WORKS).1.Err? <==> InputQueue.LosesInput(s, now, WORKS)
  {
    hide Inv, Poll, InputQueue.LosesInput;
    InputQueue.PollLosesInputIff(s, now, WORKS);
    if Poll(s, now, WORKS).1.Err? { FailingPollLoses(s, now); }
  }

  lemma FailingPollLoses<S>(s: State<S>, now: nat)
    requires Inv(s) && Live(s) && Poll(s, now, WORKS).1.Err?
    ensures InputQueue.LosesInput(s, now, WORKS)
  {
    InvIsValid(s);
    PollPreludeKeepsInv(s, now);
    var (associated, association) := Associated(s, now);
    PollPreludeKeepsInv(associated, now);
    InvIsValid(associated);
    GoesOn(associated, association, now, true);
    var noticed := NoticeSilence(associated, now).0;
    FailsOnlyWithInput(noticed, now);
    if s.queue != [] { InputQueue.PreludeChangesNothing(s, now, WORKS); }
    hide Inv, Valid, Continue, Proceed, Choose, Ending, ShutdownTimedOut, InputQueue.CannotSend;
  }

  lemma FailsOnlyWithInput<S>(s: State<S>, now: nat)
    requires Inv(s) && Continue(s, now, true).1.Err?
    ensures s.queue != [] && Choose(s, now) == SendQueued && InputQueue.CannotSend(s, true)
  {
    hide Sending, Sent, Ordered, Agree, Monotone;
    if Choose(s, now) == SendQueued { InputQueue.BuildFailsIff(s, now, true); }
  }

  /** A poll whose encodings work emits exactly when something is due or over, and it does not fail. */
  lemma EmitsIff<S>(s: State<S>, now: nat)
    requires Inv(s) && Live(s)
    ensures Emits(s, now) <==> (SendDue(s, now) || Ending(s, now).Some?) && !InputQueue.LosesInput(s, now, WORKS)
  {
    hide Inv, Poll, HasOutput, InputQueue.LosesInput;
    PollFailsIff(s, now);
    if Poll(s, now, WORKS).1.Ok? { SuccessEmitsIff(s, now); }
  }

  lemma WaitIsZeroIff<S>(s: State<S>, now: nat)
    requires Live(s)
    ensures MillisecondsUntilNextPoll(s, now) == 0 <==> SendDue(s, now) || ShutdownTimedOut(s, now)
  {
  }

  /**
   The timer says "now" exactly when a poll has something to emit, except in three
   corners, and this is all of them: a shutdown deadline that passes while a peer's
   request is still to be answered, a local shutdown already acknowledged, and input
   queued when the state numbers, or the count of a log, have run out.
   */
  lemma TimerAgreesExactlyWhen<S>(s: State<S>, now: nat)
    requires Inv(s) && Live(s)
    ensures (MillisecondsUntilNextPoll(s, now) == 0 <==> Emits(s, now))
            <==> !InputQueue.LosesInput(s, now, WORKS)
                 && (SendDue(s, now)
                     || (if ShutdownTimedOut(s, now) then !s.peerAckDue
                         else s.peerAckDue || !ShutdownAcknowledged(s.local)))
  {
    EmitsIff(s, now);
    WaitIsZeroIff(s, now);
    hide Inv, Emits;
  }

  // ---- The corners, reached -------------------------------------------------

  /** A new session that associated at time zero and was then asked to shut down. */
  function Asked(initial: int): State<int> {
    Runtime.New(initial, 0).(associationDue := false, lastSend := Some(0), shutdown := LocalRequested(0, 0))
  }

  /** The same with its shutdown state sent. */
  function ShutdownIsOut(initial: int, now: nat): State<int> {
    Asked(initial).(
      local := Sender([], [Mark(0, 0), Mark(SHUTDOWN_STATE, 0)], 1, map[0 := 0, SHUTDOWN_STATE := 0]),
      lastSend := Some(now), shutdown := LocalRequested(0, 1))
  }

  lemma ShutdownGoesOut(initial: int, now: nat)
    requires now < SHUTDOWN_TIMEOUT_MILLISECONDS
    ensures Poll(Asked(initial), now, WORKS)
            == (ShutdownIsOut(initial, now), Ok([SendDatagram(StateUpdate(0, SHUTDOWN_STATE, 0, 0, []))]))
  {
    var s := Asked(initial);
    var none: seq<Instruction> := [];
    assert none + none == none;
    assert Sent(NEW, none, SHUTDOWN_STATE) == ShutdownIsOut(initial, now).local;
    assert FreshUpdate(NEW, none, SHUTDOWN_STATE, 0) == StateUpdate(0, SHUTDOWN_STATE, 0, 0, []);
    hide Sent, Thinned, Valid;
    assert Valid(NEW);
    var out: Effect := SendDatagram(StateUpdate(0, SHUTDOWN_STATE, 0, 0, []));
    var quiet: seq<Effect> := [];
    assert quiet + quiet + ([out] + quiet) == [out];
    GoesOn(s, quiet, now, true);
  }

  lemma NoCalls<S>(rules: R.Rules<S>, start: State<S>)
    requires Inv(start)
    ensures RunAll(rules, start, []).0 == start
  {
    hide Inv, Step;
  }

  lemma OneMoreCall<S>(rules: R.Rules<S>, start: State<S>, events: seq<Event<S>>, event: Event<S>)
    requires Inv(start)
    ensures RunAll(rules, start, events + [event]).0 == Step(rules, RunAll(rules, start, events).0, event).0
  {
    hide Step, Inv, Valid;
    DropPrefix(events, [event]);
  }

  lemma FirstCalls(rules: R.Rules<int>, initial: int, at: nat, u: StateUpdate, later: nat)
    requires at < SHUTDOWN_TIMEOUT_MILLISECONDS
    ensures Valid(Runtime.New(initial, 0).local) && Valid(Asked(initial).local)
            && Valid(ShutdownIsOut(initial, at).local)
    ensures var associated := Runtime.New(initial, 0).(associationDue := false, lastSend := Some(0));
            && Step(rules, Runtime.New(initial, 0), PollAt(0, WORKS)).0 == associated
            && Step(rules, associated, ShutdownAt(0)).0 == Asked(initial)
            && Step(rules, Asked(initial), PollAt(at, WORKS)).0 == ShutdownIsOut(initial, at)
            && Step(rules, ShutdownIsOut(initial, at), Datagrams(Full(NO_ECHO_TIMESTAMP, u), later)).0
               == Receive(rules, ShutdownIsOut(initial, at), Full(NO_ECHO_TIMESTAMP, u), later).0
  {
    hide Poll, Receive, Valid;
    FirstStates(initial, at);
    Shutdown.AssociatesFirst(initial);
    ShutdownGoesOut(initial, at);
  }

  lemma FirstStates(initial: int, at: nat)
    ensures Valid(Runtime.New(initial, 0).local) && Valid(Asked(initial).local)
            && Valid(ShutdownIsOut(initial, at).local)
  {
  }

  /** The session after its shutdown state went out at `at` and `u` arrived at `later`. */
  lemma Shuts(rules: R.Rules<int>, initial: int, at: nat, u: StateUpdate, later: nat)
    requires at < SHUTDOWN_TIMEOUT_MILLISECONDS
    ensures var events :=
            [PollAt(0, WORKS), ShutdownAt(0), PollAt(at, WORKS), Datagrams(Full(NO_ECHO_TIMESTAMP, u), later)];
            RunAll(rules, Begun(initial, 0), events).0
            == Receive(rules, ShutdownIsOut(initial, at), Full(NO_ECHO_TIMESTAMP, u), later).0
  {
    hide Poll, Receive, Inv, Valid, RunAll, Step, Asked, ShutdownIsOut;
    var start := Begun(initial, 0);
    NoCalls(rules, start);
    FirstCalls(rules, initial, at, u, later);
    var e0: Event<int>, e1: Event<int>, e2: Event<int>, e3: Event<int> :=
      PollAt(0, WORKS), ShutdownAt(0), PollAt(at, WORKS), Datagrams(Full(NO_ECHO_TIMESTAMP, u), later);
    OneMoreCall(rules, start, [], e0);
    OneMoreCall(rules, start, [e0], e1);
    OneMoreCall(rules, start, [e0, e1], e2);
    OneMoreCall(rules, start, [e0, e1, e2], e3);
    assert [] + [e0] == [e0] && [e0] + [e1] == [e0, e1] && [e0, e1] + [e2] == [e0, e1, e2];
    assert [e0, e1, e2] + [e3] == [e0, e1, e2, e3];
  }

  // Confirms the shutdown state and brings nothing new.
  const CONFIRMATION := StateUpdate(0, 0, SHUTDOWN_STATE, 0, [])

  /**
   One corner, reached: once the peer has confirmed the shutdown state, the completion is due,
   but the timer lets the host sleep out the retransmission interval.
   */
  lemma TimerCanOversleep(rules: R.Rules<int>, initial: int)
    ensures var events := [PollAt(0, WORKS), ShutdownAt(0), PollAt(10, WORKS),
                           Datagrams(Full(NO_ECHO_TIMESTAMP, CONFIRMATION), 11)];
            var s := RunAll(rules, Begun(initial, 0), events).0;
            Live(s) && MillisecondsUntilNextPoll(s, 11) == 999
            && Poll(s, 11, WORKS).1 == Ok([ShutdownComplete(LocalAcknowledged)])
  {
    Shuts(rules, initial, 10, CONFIRMATION, 11);
    hide Inv, RunAll, Poll;
    Confirmed(rules, initial);
  }

  function IsConfirmed(initial: int): State<int> {
    var out := ShutdownIsOut(initial, 10);
    out.(local := out.local.(marks := [Mark(SHUTDOWN_STATE, 0)]), lastReceive := 11, connection := Connected)
  }

  lemma Confirmed(rules: R.Rules<int>, initial: int)
    ensures var s := Receive(rules, ShutdownIsOut(initial, 10), Full(NO_ECHO_TIMESTAMP, CONFIRMATION), 11).0;
            Live(s) && MillisecondsUntilNextPoll(s, 11) == 999
            && Poll(s, 11, WORKS).1 == Ok([ShutdownComplete(LocalAcknowledged)])
  {
    ConfirmationArrives(rules, initial);
    hide Receive;
  }

  lemma ConfirmationArrives(rules: R.Rules<int>, initial: int)
    ensures Receive(rules, ShutdownIsOut(initial, 10), Full(NO_ECHO_TIMESTAMP, CONFIRMATION), 11).0
            == IsConfirmed(initial)
  {
    var marks := ShutdownIsOut(initial, 10).local.marks;
    assert marks[1..] == [Mark(SHUTDOWN_STATE, 0)] && Position(marks[1..], SHUTDOWN_STATE) == Some(0);
    assert Position(marks, SHUTDOWN_STATE) == Some(1);
    assert Acknowledged(ShutdownIsOut(initial, 10).local, SHUTDOWN_STATE) == IsConfirmed(initial).local;
    hide Acknowledged, Rto.Sampled, Position;
  }

  /**
   The other corner, reached: a peer's shutdown request is to be answered when the deadline
   passes, the timer says "now", and the poll has nothing to send yet.
   */
  lemma TimerCanSpin(rules: R.Rules<int>, initial: int)
    ensures var events := [PollAt(0, WORKS), ShutdownAt(0), PollAt(9500, WORKS),
                           Datagrams(Full(NO_ECHO_TIMESTAMP, Shutdown.STRAY), 9600)];
            var s := RunAll(rules, Begun(initial, 0), events).0;
            Live(s) && MillisecondsUntilNextPoll(s, 10_000) == 0 && Poll(s, 10_000, WORKS).1 == Ok([])
  {
    Shuts(rules, initial, 9500, Shutdown.STRAY, 9600);
    hide Inv, RunAll, Poll;
    AskedBack(rules, initial);
  }

  lemma AskedBack(rules: R.Rules<int>, initial: int)
    ensures var s := Receive(rules, ShutdownIsOut(initial, 9500), Full(NO_ECHO_TIMESTAMP, Shutdown.STRAY), 9600).0;
            Live(s) && MillisecondsUntilNextPoll(s, 10_000) == 0 && Poll(s, 10_000, WORKS).1 == Ok([])
  {
    AnswerIsDue(rules, initial);
    hide Receive;
    var s := AnswerDue(initial);
    var quiet: seq<Effect> := [];
    assert quiet + quiet + quiet == quiet;
    GoesOn(s, quiet, 10_000, true);
    hide Proceed;
  }

  function AnswerDue(initial: int): State<int> {
    ShutdownIsOut(initial, 9500).(lastReceive := 9600, connection := Connected, peerAckDue := true)
  }

  lemma AnswerIsDue(rules: R.Rules<int>, initial: int)
    ensures Receive(rules, ShutdownIsOut(initial, 9500), Full(NO_ECHO_TIMESTAMP, Shutdown.STRAY), 9600).0
            == AnswerDue(initial)
  {
    var out := ShutdownIsOut(initial, 9500);
    assert Acknowledged(out.local, 0) == out.local;
    hide Acknowledged, Rto.Sampled;
  }

  // ---- Running out of numbers ----------------------------------------------

  /** Nothing queued, pending or asked for, and `number` is the next state. */
  ghost predicate Idle<S>(s: State<S>, initial: S, number: nat) {
    && s.local.next == number && !Pending(s.local) && s.queue == [] && s.queuedBytes == 0
    && s.lifecycle == Running && s.shutdown == Open && !s.peerAckDue && s.remote == R.New(initial)
  }

  function Confirming(number: u64): StateUpdate {
    StateUpdate(0, 0, number, 0, [])
  }

  lemma EmptyInput<S>(rules: R.Rules<S>, s: State<S>, initial: S, number: nat)
    requires Inv(s) && Idle(s, initial, number)
    ensures Valid(s.local)
    ensures Step(rules, s, Input([])).0 == s.(queue := [HostBytes([])])
  {
    hide Valid;
    assert [] + [HostBytes([])] == [HostBytes([])];
  }

  /** One poll sends what is queued as the next state. */
  lemma SendsNext<S>(rules: R.Rules<S>, s: State<S>, initial: S, number: nat)
    requires Inv(s) && Idle(s.(queue := []), initial, number) && number < SHUTDOWN_STATE && |s.queue| == 1
    ensures Valid(s.local)
    ensures var next := Step(rules, s, PollAt(0, WORKS)).0;
            && Valid(next.local) && |next.local.marks| == 2 && Back(next.local).id == number
            && next.local.next == number + 1 && next.queue == [] && next.queuedBytes == 0
            && next.lifecycle == Running && next.shutdown == Open && !next.peerAckDue && next.remote == s.remote
  {
    InvIsValid(s);
    PollPreludeKeepsInv(s, 0);
    var (associated, association) := Associated(s, 0);
    PollPreludeKeepsInv(associated, 0);
    var noticed := NoticeSilence(associated, 0).0;
    InputQueue.PreludeChangesNothing(s, 0, WORKS);
    InvIsValid(associated);
    InvIsValid(noticed);
    IdleIsOpen(noticed, initial, number);
    InputQueue.BuildFailsIff(noticed, 0, true);
    BuildIsSound(noticed, true);
    hide Inv, Valid, Build, Choose, Ending, Proceed;
    GoesOn(associated, association, 0, true);
  }

  lemma IdleIsOpen<S>(s: State<S>, initial: S, number: nat)
    requires Inv(s) && Idle(s.(queue := []), initial, number) && s.queue != []
    ensures Choose(s, 0) == SendQueued && !ShutdownUnsent(s) && !ShutdownSent(s.local)
  {
    hide Ordered, Agree, Monotone;
  }

  /** An acknowledgement of the newest of two marks leaves nothing pending. */
  lemma NewestConfirmed(local: Sender)
    requires Valid(local) && |local.marks| == 2
    ensures !Pending(Acknowledged(local, Back(local).id)) && Acknowledged(local, Back(local).id).next == local.next
  {
    var marks := local.marks;
    assert marks[0].id < marks[1].id;
    assert Position(marks[1..], marks[1].id) == Some(0);
  }

  lemma Confirms<S>(rules: R.Rules<S>, s: State<S>, initial: S, number: nat)
    requires Valid(s.local) && |s.local.marks| == 2 && Back(s.local).id == number < SHUTDOWN_STATE
    requires s.local.next == number + 1 && s.queue == [] && s.queuedBytes == 0 && s.lifecycle == Running
    requires s.shutdown == Open && !s.peerAckDue && s.remote == R.New(initial)
    ensures Idle(Step(rules, s, Datagrams(Full(NO_ECHO_TIMESTAMP, Confirming(number)), 0)).0, initial, number + 1)
  {
    NewestConfirmed(s.local);
    hide Acknowledged, Rto.Sampled, Valid;
  }

  /** Any state number can be the next one: a session that is kept busy gets there. */
  lemma {:induction false} NumbersRunOut(rules: R.Rules<int>, initial: int, number: nat)
    returns (events: seq<Event<int>>)
    requires 1 <= number <= SHUTDOWN_STATE
    ensures Idle(RunAll(rules, Begun(initial, 0), events).0, initial, number)
    decreases number
  {
    hide Step, Inv, Valid, Idle, RunAll;
    var start := Begun(initial, 0);
    if number == 1 {
      events := [];
      NoCalls(rules, start);
      BegunIsIdle(initial);
    } else {
      var before := NumbersRunOut(rules, initial, number - 1);
      var idle := RunAll(rules, start, before).0;
      var e0: Event<int>, e1: Event<int>, e2: Event<int> :=
        Input([]), PollAt(0, WORKS), Datagrams(Full(NO_ECHO_TIMESTAMP, Confirming(number - 1)), 0);
      OneMoreCall(rules, start, before, e0);
      OneMoreCall(rules, start, before + [e0], e1);
      OneMoreCall(rules, start, before + [e0] + [e1], e2);
      EmptyInput(rules, idle, initial, number - 1);
      QueuedIsIdle(idle, initial, number - 1);
      SendsNext(rules, idle.(queue := [HostBytes([])]), initial, number - 1);
      var sent := RunAll(rules, start, before + [e0] + [e1]).0;
      IdleRemote(idle, initial, number - 1);
      Confirms(rules, sent, initial, number - 1);
      events := before + [e0] + [e1] + [e2];
    }
  }

  lemma BegunIsIdle(initial: int)
    ensures Idle(Begun(initial, 0), initial, 1)
  {
  }

  lemma QueuedIsIdle<S>(s: State<S>, initial: S, number: nat)
    requires Idle(s, initial, number)
    ensures Idle(s.(queue := [HostBytes([])]).(queue := []), initial, number)
  {
  }

  lemma IdleRemote<S>(s: State<S>, initial: S, number: nat)
    requires Idle(s, initial, number)
    ensures s.remote == R.New(initial)
  {
  }

  /**
   The third corner, reached: once all state numbers are used up, input can be queued, the timer
   says "now", and no poll can send it.
   */
  lemma TimerCanBeStuck(rules: R.Rules<int>, initial: int)
    ensures exists events ::
              var s := RunAll(rules, Begun(initial, 0), events).0;
              Live(s) && MillisecondsUntilNextPoll(s, 0) == 0 && !Emits(s, 0) && InputQueue.LosesInput(s, 0, WORKS)
  {
    hide RunAll, Inv, Poll;
    var start := Begun(initial, 0);
    var events := NumbersRunOut(rules, initial, SHUTDOWN_STATE);
    var idle := RunAll(rules, start, events).0;
    OneMoreCall(rules, start, events, Input([1]));
    InvIsValid(idle);
    var s := RunAll(rules, start, events + [Input([1])]).0;
    InputIsStuck(rules, idle, initial);
  }

  lemma InputIsStuck(rules: R.Rules<int>, idle: State<int>, initial: int)
    requires Inv(idle) && Idle(idle, initial, SHUTDOWN_STATE)
    ensures Valid(idle.local)
    ensures var s := Step(rules, idle, Input([1])).0;
            Live(s) && MillisecondsUntilNextPoll(s, 0) == 0 && !Emits(s, 0) && InputQueue.LosesInput(s, 0, WORKS)
  {
    hide Emits, Valid, Inv, Idle, Poll;
    InvIsValid(idle);
    StepKeepsInv(rules, idle, Input([1]));
    OneByteQueued(rules, idle, initial);
    var s := Step(rules, idle, Input([1])).0;
    EmitsIff(s, 0);
  }

  lemma OneByteQueued(rules: R.Rules<int>, idle: State<int>, initial: int)
    requires Inv(idle) && Idle(idle, initial, SHUTDOWN_STATE)
    ensures Valid(idle.local)
    ensures var s := Step(rules, idle, Input([1])).0;
            Live(s) && MillisecondsUntilNextPoll(s, 0) == 0 && InputQueue.LosesInput(s, 0, WORKS)
  {
    InvIsValid(idle);
    assert idle.local.marks != [];
    hide Valid;
  }

  // ---- Waiting --------------------------------------------------------------

  /** An ordinary session: no peer shutdown to answer, no acknowledged shutdown, clocks that ran forward. */
  predicate Ordinary<S>(s: State<S>, now: nat) {
    && Live(s) && !s.peerAckDue && !ShutdownAcknowledged(s.local)
    && (s.lastSend.Some? ==> s.lastSend.value <= now)
    && (s.shutdown.LocalRequested? ==> s.shutdown.startedAt <= now)
  }

  /** A poll with nothing due changes at most the reported connection state. */
  lemma QuietPoll<S>(s: State<S>, now: nat)
    requires Live(s) && !SendDue(s, now) && Ending(s, now).None?
    ensures Poll(s, now, WORKS) == (NoticeSilence(s, now).0, Ok(NoticeSilence(s, now).1))
    ensures !HasOutput(NoticeSilence(s, now).1)
  {
    var silence := NoticeSilence(s, now).1;
    assert [] + silence + [] == silence;
  }

  /** Before the wait is over nothing is due; when it is over, something is. */
  lemma WaitIsExact<S>(s: State<S>, now: nat, later: nat)
    requires Ordinary(s, now) && now <= later && 0 < MillisecondsUntilNextPoll(s, now)
    ensures var wait := MillisecondsUntilNextPoll(s, now);
            && (later < now + wait ==> !SendDue(s, later) && Ending(s, later).None?)
            && (SendDue(s, now + wait) || Ending(s, now + wait).Some?)
  {
  }

  /** The state after polling at each of the given times in turn, and everything those polls emitted. */
  function PollAll<S>(s: State<S>, times: seq<nat>): (State<S>, seq<Effect>)
    decreases |times|
  {
    if times == [] || !Valid(s.local) then (s, [])
    else
      var (next, r) := Poll(s, times[0], WORKS);
      var (last, effects) := PollAll(next, times[1..]);
      (last, (if r.Ok? then r.value else []) + effects)
  }

  lemma ConnectionDoesNotMatter<S>(s: State<S>, connection: Connection, now: nat)
    requires Valid(s.local)
    ensures var t := s.(connection := connection);
            && MillisecondsUntilNextPoll(t, now) == MillisecondsUntilNextPoll(s, now)
            && (SendDue(t, now) <==> SendDue(s, now)) && Ending(t, now) == Ending(s, now)
            && (Ordinary(t, now) <==> Ordinary(s, now))
  {
  }

  lemma DuePollEmits<S>(s: State<S>, now: nat)
    requires Ordinary(s, now) && 0 < MillisecondsUntilNextPoll(s, now)
    ensures Emits(s, now + MillisecondsUntilNextPoll(s, now))
  {
    WaitIsExact(s, now, now);
    var due := now + MillisecondsUntilNextPoll(s, now);
    NothingQueuedWorks(s, due);
    hide Ordinary, SendDue, Poll;
    SuccessEmitsIff(s, due);
  }

  /** With nothing queued that could be sent, a poll whose encodings work does not fail. */
  lemma NothingQueuedWorks<S>(s: State<S>, now: nat)
    requires Live(s) && (Pending(s.local) || (s.queue == [] && !ShutdownUnsent(s)))
    ensures Poll(s, now, WORKS).1.Ok?
  {
    hide Valid, Sending, Build;
  }

  predicate AllBefore(times: seq<nat>, now: nat, due: nat) {
    forall k :: 0 <= k < |times| ==> now <= times[k] < due
  }

  /** Early polls, one after another, emit nothing and change only the reported connection state. */
  lemma {:induction false} EarlyPollsAreQuiet<S>(s: State<S>, now: nat, times: seq<nat>)
    requires Ordinary(s, now) && 0 < MillisecondsUntilNextPoll(s, now)
    requires AllBefore(times, now, now + MillisecondsUntilNextPoll(s, now))
    ensures var (last, effects) := PollAll(s, times);
            last == s.(connection := last.connection) && !HasOutput(effects)
    decreases |times|
  {
    if times != [] {
      WaitIsExact(s, now, times[0]);
      var next := FirstOfAll(s, times);
      ConnectionDoesNotMatter(s, next.connection, now);
      EarlyPollsAreQuiet(next, now, times[1..]);
    }
  }

  /**
   Polling any number of times before the announced wait is over emits nothing and
   changes nothing but the reported connection state; the poll when it is over emits.
   */
  lemma WaitIsHonoured<S>(s: State<S>, now: nat, times: seq<nat>)
    requires Ordinary(s, now) && 0 < MillisecondsUntilNextPoll(s, now)
    requires AllBefore(times, now, now + MillisecondsUntilNextPoll(s, now))
    ensures var (last, effects) := PollAll(s, times);
            var due := now + MillisecondsUntilNextPoll(s, now);
            && last == s.(connection := last.connection) && !HasOutput(effects)
            && Emits(last, due)
  {
    EarlyPollsAreQuiet(s, now, times);
    var last := PollAll(s, times).0;
    ConnectionDoesNotMatter(s, last.connection, now);
    DuePollEmits(last, now);
  }

  lemma FirstOfAll<S>(s: State<S>, times: seq<nat>) returns (next: State<S>)
    requires Live(s) && times != [] && !SendDue(s, times[0]) && Ending(s, times[0]).None?
    ensures next == s.(connection := next.connection)
    ensures PollAll(s, times).0 == PollAll(next, times[1..]).0
    ensures HasOutput(PollAll(s, times).1) <==> HasOutput(PollAll(next, times[1..]).1)
  {
    QuietPoll(s, times[0]);
    next := NoticeSilence(s, times[0]).0;
    OutputIn(NoticeSilence(s, times[0]).1, PollAll(next, times[1..]).1);
  }

  // ---- After sending --------------------------------------------------------

  /** Nothing more is due at `now` than what a shutdown still open at `now` may bring. */
  predicate Rested<S>(s: State<S>, now: nat) {
    && s.local.marks != []
    && s.lastSend == Some(now) && !s.ackDue && !s.associationDue && s.estimate.timeout > 0
    && (Pending(s.local) || (s.queue == [] && !ShutdownUnsent(s)))
    && (s.shutdown.LocalRequested? ==> Elapsed(now, s.shutdown.startedAt) < SHUTDOWN_TIMEOUT_MILLISECONDS)
  }

  lemma RestedWaits<S>(s: State<S>, now: nat)
    requires s.local.marks != [] && (s.shutdown.Complete? || Rested(s, now))
    ensures 0 < MillisecondsUntilNextPoll(s, now)
            || (s.shutdown.LocalRequested? && s.shutdown.transmissions >= SHUTDOWN_RETRY_LIMIT)
  {
  }

  lemma SendingRests<S>(s: State<S>, now: nat, encodes: bool)
    requires Live(s) && !s.associationDue && Ending(s, now).None?
    requires Choose(s, now) != Wait && Continue(s, now, encodes).1.Ok?
    ensures var next := Continue(s, now, encodes).0;
            next.local.marks != [] && (next.shutdown.Complete? || Rested(next, now))
  {
  }

  /** A datagram comes either from association or from the rest of the poll. */
  lemma DatagramSource<S>(s: State<S>, now: nat, encoding: Encoding)
    requires Live(s)
    requires var r := Poll(s, now, encoding).1; r.Ok? && HasDatagram(r.value)
    ensures var s2 := NoticeSilence(Associated(s, now).0, now).0;
            && Ending(s2, now).None? && Poll(s, now, encoding).0 == Continue(s2, now, encoding.main).0
            && Continue(s2, now, encoding.main).1.Ok?
            && (s.associationDue || Choose(s2, now) != Wait)
  {
    var (s1, association) := Associated(s, now);
    var (s2, silence) := NoticeSilence(s1, now);
    assert [] + silence + [] == silence;
  }

  /** After any poll that sent a datagram the timer waits, unless the shutdown retry limit has been reached. */
  lemma SendingPollIsFollowedByWait<S>(s: State<S>, now: nat, encoding: Encoding)
    requires Live(s) && (s.associationDue ==> !Pending(s.local) && !ShutdownSent(s.local))
    requires var r := Poll(s, now, encoding).1; r.Ok? && HasDatagram(r.value)
    ensures var next := Poll(s, now, encoding).0;
            next.local.marks != []
            && (0 < MillisecondsUntilNextPoll(next, now)
                || (next.shutdown.LocalRequested? && next.shutdown.transmissions >= SHUTDOWN_RETRY_LIMIT))
  {
    DatagramSource(s, now, encoding);
    var s2 := NoticeSilence(Associated(s, now).0, now).0;
    if Choose(s2, now) != Wait {
      SendingRests(s2, now, encoding.main);
    } else {
      assert Rested(s2, now);
    }
    RestedWaits(Poll(s, now, encoding).0, now);
  }
}
