/** What becomes of queued input: it is sent once, in order, in the state that was named for it. */
module InputQueue {
  import opened Prelude
  import opened Wire
  import opened Sender
  import opened Runtime
  import opened RuntimeRuns
  import opened Shutdown
  import R = Receiver
  import Rto

  // ---- What input means -----------------------------------------------------

  /** Played from the left: every item that is not just a resize, with the viewport in force, and the final viewport. */
  function Play(input: seq<Instruction>, viewport: Viewport): (seq<(Instruction, Viewport)>, Viewport) {
    if input == [] then ([], viewport)
    else
      var (items, before) := Play(input[..|input| - 1], viewport);
      var last := input[|input| - 1];
      var after := if last.viewport.Some? then last.viewport.value else before;
      (if IsResize(last) then items else items + [(last, after)], after)
  }

  lemma PlaySnoc(input: seq<Instruction>, last: Instruction, viewport: Viewport)
    ensures var (items, before) := Play(input, viewport);
            var after := if last.viewport.Some? then last.viewport.value else before;
            Play(input + [last], viewport) == (if IsResize(last) then items else items + [(last, after)], after)
  {
    DropPrefix(input, [last]);
  }

  /** The two inputs have the same effect wherever they start. */
  ghost predicate SameEffect(a: seq<Instruction>, b: seq<Instruction>) {
    forall viewport :: Play(a, viewport) == Play(b, viewport)
  }

  lemma SameEffectSnoc(a: seq<Instruction>, b: seq<Instruction>, last: Instruction)
    requires SameEffect(a, b)
    ensures SameEffect(a + [last], b + [last])
  {
    hide Play;
    forall viewport ensures Play(a + [last], viewport) == Play(b + [last], viewport) {
      PlaySnoc(a, last, viewport);
      PlaySnoc(b, last, viewport);
    }
  }

  /** Replacing a resize by the one right after it changes no effect. */
  lemma ResizesMerge(front: seq<Instruction>, first: Instruction, second: Viewport)
    requires IsResize(first)
    ensures SameEffect(front + [first.(viewport := Some(second))],
                       front + [first] + [Resize(second.columns, second.rows)])
  {
    hide Play;
    var merged, resize := first.(viewport := Some(second)), Resize(second.columns, second.rows);
    forall viewport ensures Play(front + [merged], viewport) == Play(front + [first] + [resize], viewport) {
      PlaySnoc(front, merged, viewport);
      PlaySnoc(front, first, viewport);
      PlaySnoc(front + [first], resize, viewport);
    }
  }

  /** Coalescing consecutive resizes has the effect of queueing the resize as it is. */
  lemma CoalescingKeepsEffect(sent: seq<Instruction>, queue: seq<Instruction>, viewport: Viewport)
    ensures SameEffect(sent + Coalesced(queue, viewport), sent + queue + [Resize(viewport.columns, viewport.rows)])
  {
    hide Play;
    if queue != [] && IsResize(queue[|queue| - 1]) {
      var front, first := queue[..|queue| - 1], queue[|queue| - 1];
      ResizesMerge(sent + front, first, viewport);
      assert sent + queue == sent + front + [first];
      Associate(sent, front, [first.(viewport := Some(viewport))]);
    } else {
      Associate(sent, queue, [Resize(viewport.columns, viewport.rows)]);
    }
  }

  // ---- One host call --------------------------------------------------------

  /** The input an event offers and gets accepted, as it was before any coalescing. */
  function Accepted<S>(s: State<S>, event: Event<S>): seq<Instruction> {
    match event
    case Input(bytes) => if QueueInput(s, bytes).1.Ok? then [HostBytes(bytes)] else []
    case ControlInput(control, negotiated) => if QueueControl(s, control, negotiated).1.Ok? then [Control(control)]
      else []
    case ResizeInput(columns, rows, _) => if InputRefusal(s).None? then [Resize(columns, rows)] else []
    case _ => []
  }

  /** The input in a datagram that goes on from `base`; repeats and acknowledgements start elsewhere or stay there. */
  function CarriedByOne(base: u64, effect: Effect): seq<Instruction> {
    if effect.SendDatagram? && effect.update.base == base != effect.update.target then effect.update.delta else []
  }

  function Carried(base: u64, effects: seq<Effect>): seq<Instruction> {
    if effects == [] then [] else Carried(base, effects[..|effects| - 1]) + CarriedByOne(base, effects[|effects| - 1])
  }

  lemma {:induction false} CarriedConcat(base: u64, a: seq<Effect>, b: seq<Effect>)
    ensures Carried(base, a + b) == Carried(base, a) + Carried(base, b)
  {
    hide CarriedByOne;
    if b == [] {
      assert a + b == a;
    } else {
      CarriedConcat(base, a, b[..|b| - 1]);
      assert (a + b)[..|a + b| - 1] == a + b[..|b| - 1];
    }
  }

  predicate NoDatagram(effects: seq<Effect>) {
    forall k :: 0 <= k < |effects| ==> !effects[k].SendDatagram?
  }

  lemma {:induction false} NothingCarried(base: u64, effects: seq<Effect>)
    requires NoDatagram(effects)
    ensures Carried(base, effects) == []
  {
    if effects != [] { NothingCarried(base, effects[..|effects| - 1]); }
  }

  /** The datagram a send starts with carries what `update` carries. */
  lemma SendingCarries<S>(s: State<S>, now: nat, update: StateUpdate, counted: bool, base: u64)
    ensures Carried(base, Sending(s, now, update, counted).1) == if update.base == base != update.target
            then update.delta else []
    ensures var next := Sending(s, now, update, counted).0; next.local == s.local && next.queue == s.queue
  {
    var ending := AnswerPeer(s).1;
    CarriedConcat(base, [SendDatagram(update)], ending);
    assert Carried(base, [SendDatagram(update)]) == CarriedByOne(base, SendDatagram(update));
    NothingCarried(base, ending);
  }

  /** Input goes from the queue to the log, or stays where it is; what reaches the log is what was carried. */
  predicate Moves<S>(s: State<S>, next: State<S>, carried: seq<Instruction>) {
    && next.local.log + next.queue == s.local.log + s.queue
    && next.local.log == s.local.log + carried
  }

  lemma FreshMoves<S>(s: State<S>, now: nat, encodes: bool)
    requires Inv(s) && Choose(s, now) == SendQueued && Build(s, encodes).Ok?
    ensures var (local, update) := Build(s, encodes).value;
            var (next, effects) :=
                Sending(s.(local := local, queue := [], queuedBytes := 0, ackDue := false), now, update, true);
            Moves(s, next, Carried(Back(s.local).id, effects))
  {
    assert s.local.marks != [];
    hide Carried, Sending, Valid;
    var (local, update) := Build(s, encodes).value;
    QueuedSendIsFresh(s, now);
    FreshBuild(s, encodes);
    SendingCarries(s.(local := local, queue := [], queuedBytes := 0, ackDue := false), now, update, true,
                   Back(s.local).id);
    assert s.local.log + s.queue + [] == s.local.log + s.queue;
  }

  lemma FreshBuild<S>(s: State<S>, encodes: bool)
    requires Inv(s) && !ShutdownSent(s.local) && !Pending(s.local) && Build(s, encodes).Ok?
    ensures var (local, update) := Build(s, encodes).value;
            && local.log == s.local.log + s.queue
            && update.base == Back(s.local).id != update.target && update.delta == s.queue
  {
    BuildIsSound(s, encodes);
  }

  lemma RepeatMoves<S>(s: State<S>, now: nat, update: StateUpdate, counted: bool)
    requires Valid(s.local) && (update.base == Back(s.local).id ==> update.target == update.base)
    ensures var (next, effects) := Sending(s, now, update, counted); Moves(s, next, Carried(Back(s.local).id, effects))
  {
    hide Carried, Sending;
    SendingCarries(s, now, update, counted, Back(s.local).id);
    assert s.local.log + [] == s.local.log;
  }

  lemma PendingEnds(s: Sender)
    requires Valid(s) && Pending(s)
    ensures Front(s).id < Back(s).id && Front(s).end <= Back(s).end <= |s.log|
  {
  }

  lemma StayingMoves<S>(s: State<S>, next: State<S>, effects: seq<Effect>)
    requires s.local.marks != [] && next.local == s.local && next.queue == s.queue && NoDatagram(effects)
    ensures Moves(s, next, Carried(Back(s.local).id, effects))
  {
    NothingCarried(Back(s.local).id, effects);
    assert s.local.log + [] == s.local.log;
  }

  /** A part of a poll moves input as it reports, and a failed one sends none. */
  predicate Reports<S>(s: State<S>, next: State<S>, r: Result<seq<Effect>, RuntimeError>)
    requires s.local.marks != []
  {
    && (r.Ok? ==> Moves(s, next, Carried(Back(s.local).id, r.value)))
    && (r.Err? ==> next.local.log == s.local.log && (next.queue == s.queue || next.queue == []))
  }

  lemma ContinueMoves<S>(s: State<S>, now: nat, encodes: bool)
    requires Inv(s)
    ensures Reports(s, Continue(s, now, encodes).0, Continue(s, now, encodes).1)
  {
    hide Carried, Sending, Build, Moves, Ordered, Agree, Monotone;
    match Choose(s, now) {
      case Wait => StayingMoves(s, s, []);
      case SendQueued => if Build(s, encodes).Ok? { FreshMoves(s, now, encodes); }
      case Resend =>
        PendingEnds(s.local);
        RepeatMoves(s, now, Retransmission(s.local, s.remote.latest), true);
      case SendAck => RepeatMoves(s, now, Heartbeat(s.local, s.remote.latest), false);
    }
  }

  lemma MovesBehind<S>(s: State<S>, now: nat, next: State<S>, collected: seq<Effect>, effects: seq<Effect>)
    requires s.local.marks != [] && Carried(Back(s.local).id, collected) == []
    requires var noticed := NoticeSilence(s, now).0; Moves(noticed, next, Carried(Back(s.local).id, effects))
    ensures Moves(s, next, Carried(Back(s.local).id, collected + NoticeSilence(s, now).1 + effects))
  {
    hide Carried;
    var base, silence := Back(s.local).id, NoticeSilence(s, now).1;
    CarriedConcat(base, collected, silence);
    CarriedConcat(base, collected + silence, effects);
    NothingCarried(base, silence);
    assert [] + [] + Carried(base, effects) == Carried(base, effects);
  }

  lemma ProceedMoves<S>(s: State<S>, collected: seq<Effect>, now: nat, encodes: bool)
    requires Inv(s) && Carried(Back(s.local).id, collected) == []
    ensures Reports(s, Proceed(s, collected, now, encodes).0, Proceed(s, collected, now, encodes).1)
  {
    NoticedIsLive(s, now);
    PollPreludeKeepsInv(s, now);
    hide Proceed, Continue, Inv, Valid, Ending, Moves, Carried;
    GoesOn(s, collected, now, encodes);
    if Ending(s, now).None? {
      var noticed := NoticeSilence(s, now).0;
      ContinueMoves(noticed, now, encodes);
      var (next, r) := Continue(noticed, now, encodes);
      if r.Ok? { MovesBehind(s, now, next, collected, r.value); }
    } else {
      var outcome := Ending(s, now).value;
      StayingMoves(s, s.(shutdown := Complete(outcome)), [ShutdownComplete(outcome)]);
    }
  }

  lemma AssociationCarriesNothing<S>(s: State<S>, now: nat)
    requires s.local.marks != []
    ensures Carried(Back(s.local).id, Associated(s, now).1) == []
    ensures Associated(s, now).0.local == s.local && Associated(s, now).0.queue == s.queue
  {
  }

  /** A poll sends what it takes from the queue, all of it and nothing else; a poll that fails sends nothing. */
  lemma PollMoves<S>(s: State<S>, now: nat, encoding: Encoding)
    requires Inv(s)
    ensures Reports(s, Poll(s, now, encoding).0, Poll(s, now, encoding).1)
  {
    hide Proceed, Ordered, Agree, Monotone, Carried, Associated;
    AssociationCarriesNothing(s, now);
    PollPreludeKeepsInv(s, now);
    if Works(s, encoding) {
      ProceedMoves(Associated(s, now).0, Associated(s, now).1, now, encoding.main);
    } else {
      StayingMoves(s, s, []);
    }
  }

  lemma ReceiveMovesNothing<S>(rules: R.Rules<S>, s: State<S>, datagram: Datagram, now: nat)
    requires Inv(s)
    ensures var (next, r) := Receive(rules, s, datagram, now);
            && next.local.log == s.local.log && next.queue == s.queue && (r.Ok? ==> NoDatagram(r.value))
  {
    hide R.Accept, Rto.Sampled, Acknowledged, HostEffects, Ordered, Agree, Monotone;
    if datagram.Full? {
      AcknowledgedKeepsInv(s, datagram.update.acknowledged);
      var outcome := R.Accept(rules, s.remote, datagram.update).1;
      if outcome.Ok? { HostEffectsSendNothing(outcome.value.1.delta); }
    }
  }

  lemma {:induction false} HostEffectsSendNothing(batch: seq<Instruction>)
    ensures NoDatagram(HostEffects(batch))
  {
    if batch != [] { HostEffectsSendNothing(batch[..|batch| - 1]); }
  }

  /** The log grows by exactly the fresh input of the datagrams a step returns. */
  lemma StepSendsLog<S>(rules: R.Rules<S>, s: State<S>, event: Event<S>)
    requires Inv(s)
    ensures var (next, effects) := Step(rules, s, event);
            next.local.log == s.local.log + Carried(Back(s.local).id, effects)
  {
    hide Poll, Receive, Ordered, Agree, Monotone, Carried;
    NothingCarried(Back(s.local).id, []);
    match event {
      case PollAt(now, encoding) => PollMoves(s, now, encoding);
      case Datagrams(datagram, now) =>
        ReceiveMovesNothing(rules, s, datagram, now);
        NothingCarried(Back(s.local).id, Step(rules, s, event).1);
      case _ => NothingCarried(Back(s.local).id, Step(rules, s, event).1);
    }
  }

  // ---- Losing input ---------------------------------------------------------

  /** The last part of a poll loses queued input exactly when it goes for a queued send that cannot be built. */
  lemma ContinueLosesInputIff<S>(s: State<S>, now: nat, encodes: bool)
    requires Inv(s)
    ensures var next := Continue(s, now, encodes).0;
            next.local.log + next.queue != s.local.log + s.queue
            <==> Choose(s, now) == SendQueued && s.queue != [] && Build(s, encodes).Err?
  {
    hide Build, Carried, Sending, Ordered, Agree, Monotone;
    ContinueMoves(s, now, encodes);
    assert s.local.log + [] == s.local.log;
    if s.queue != [] { assert |s.local.log + s.queue| > |s.local.log|; }
  }

  /** A queued send that has been drained but cannot be encoded or numbered. */
  predicate CannotSend<S>(s: State<S>, encodes: bool) {
    !encodes || |s.queue| > USIZE_MAX || (s.local.next == SHUTDOWN_STATE && !s.shutdown.LocalRequested?)
  }

  lemma BuildFailsIff<S>(s: State<S>, now: nat, encodes: bool)
    requires Inv(s) && Choose(s, now) == SendQueued
    ensures Build(s, encodes).Err? <==> CannotSend(s, encodes)
  {
    QueuedSendIsFresh(s, now);
    hide Sent, Ordered, Agree, Monotone;
  }

  /**
   The poll is going to drain the queue and then fail: it goes on, nothing is waiting to be
   confirmed, and the update it would send cannot be encoded, counted or numbered.
   */
  predicate LosesInput<S>(s: State<S>, now: nat, encoding: Encoding) {
    && Works(s, encoding) && s.queue != [] && !Pending(s.local)
    && (s.peerAckDue || !ShutdownTimedOut(s, now))
    && CannotSend(s, encoding.main)
  }

  /** What decides about sending is the same before and after association and the report of silence. */
  lemma PreludeChangesNothing<S>(s: State<S>, now: nat, encoding: Encoding)
    requires Inv(s) && s.queue != []
    ensures var associated := Associated(s, now).0;
            var noticed := NoticeSilence(associated, now).0;
            && noticed.local == associated.local == s.local && noticed.queue == associated.queue == s.queue
            && (CannotSend(noticed, encoding.main) <==> CannotSend(s, encoding.main))
            && (Ending(associated, now).None? <==> s.peerAckDue || !ShutdownTimedOut(s, now))
            && (Choose(noticed, now) == SendQueued <==> !Pending(s.local))
  {
    hide Agree, Monotone;
  }

  /**
   Where a working poll with input queued leaves the log and the queue: where its last part does,
   unless it ends the session.
   */
  lemma WorkingPoll<S>(s: State<S>, now: nat, encoding: Encoding)
    requires Inv(s) && s.queue != [] && Works(s, encoding)
    ensures var noticed := NoticeSilence(Associated(s, now).0, now).0;
            var next := Poll(s, now, encoding).0;
            Inv(noticed)
            && (if s.peerAckDue || !ShutdownTimedOut(s, now) then next == Continue(noticed, now, encoding.main).0
                else next.local == s.local && next.queue == s.queue)
  {
    InvIsValid(s);
    PreludeChangesNothing(s, now, encoding);
    PollPreludeKeepsInv(s, now);
    var associated := Associated(s, now).0;
    PollPreludeKeepsInv(associated, now);
    InvIsValid(associated);
    hide Proceed, Associated, NoticeSilence, Continue, Choose, CannotSend, Pending, ShutdownTimedOut, Ending, Inv,
         Valid;
    GoesOn(associated, Associated(s, now).1, now, encoding.main);
  }

  /** A poll loses input exactly then, and what it loses is everything that was queued. */
  lemma PollLosesInputIff<S>(s: State<S>, now: nat, encoding: Encoding)
    requires Inv(s)
    ensures var (next, r) := Poll(s, now, encoding);
            && (LosesInput(s, now, encoding) <==> next.local.log + next.queue != s.local.log + s.queue)
            && (LosesInput(s, now, encoding) ==> next.local.log == s.local.log && next.queue == [] && r.Err?)
  {
    InvIsValid(s);
    assert s.local.marks != [];
    hide Poll, Associated, NoticeSilence, Continue, Choose, Build, CannotSend, Pending, ShutdownTimedOut, Inv, Valid,
         Carried;
    PollMoves(s, now, encoding);
    assert s.local.log + [] == s.local.log;
    if Works(s, encoding) && s.queue != [] {
      PreludeChangesNothing(s, now, encoding);
      WorkingPoll(s, now, encoding);
      var noticed := NoticeSilence(Associated(s, now).0, now).0;
      ContinueLosesInputIff(noticed, now, encoding.main);
      if Choose(noticed, now) == SendQueued { BuildFailsIff(noticed, now, encoding.main); }
    } else {
      IdlePoll(s, now, encoding);
    }
  }

  lemma IdlePoll<S>(s: State<S>, now: nat, encoding: Encoding)
    requires Inv(s) && (!Works(s, encoding) || s.queue == [])
    ensures var next := Poll(s, now, encoding).0; next.local.log + next.queue == s.local.log + s.queue
  {
    hide Poll, Inv, Valid, Carried;
    InvIsValid(s);
    PollMoves(s, now, encoding);
    assert s.local.log + [] == s.local.log;
    if !Works(s, encoding) { RestingPoll(s, now, encoding); }
  }

  lemma RestingPoll<S>(s: State<S>, now: nat, encoding: Encoding)
    requires Valid(s.local) && !Works(s, encoding)
    ensures Poll(s, now, encoding).0 == s
  {
    hide Valid;
  }

  /** A host call that loses no queued input. */
  predicate Keeps<S>(s: State<S>, event: Event<S>) {
    match event
    case PollAt(now, encoding) => !LosesInput(s, now, encoding)
    case CancelNow => s.queue == []
    case _ => true
  }

  /** Sent and queued input together grow by exactly the input accepted, up to coalesced resizes. */
  lemma StepKeepsEffect<S>(rules: R.Rules<S>, s: State<S>, event: Event<S>, given: seq<Instruction>)
    requires Inv(s) && Keeps(s, event) && SameEffect(s.local.log + s.queue, given)
    ensures var next := Step(rules, s, event).0;
            SameEffect(next.local.log + next.queue, given + Accepted(s, event))
  {
    hide Poll, Receive, Inv, Ordered, Agree, Monotone, Carried, Play, LosesInput;
    assert given + [] == given;
    match event {
      case PollAt(now, encoding) => PollLosesInputIff(s, now, encoding);
      case Datagrams(datagram, now) => ReceiveMovesNothing(rules, s, datagram, now);
      case Input(bytes) => QueueingKeepsEffect(s.local.log, s.queue, given, HostBytes(bytes));
      case ControlInput(control, _) => QueueingKeepsEffect(s.local.log, s.queue, given, Control(control));
      case ResizeInput(columns, rows, _) =>
        CoalescingKeepsEffect(s.local.log, s.queue, Viewport(columns, rows));
        QueueingKeepsEffect(s.local.log, s.queue, given, Resize(columns, rows));
        Associate(s.local.log, s.queue, [Resize(columns, rows)]);
      case _ =>
    }
  }

  lemma QueueingKeepsEffect(sent: seq<Instruction>, queue: seq<Instruction>, given: seq<Instruction>, more: Instruction)
    requires SameEffect(sent + queue, given)
    ensures SameEffect(sent + (queue + [more]), given + [more])
  {
    hide Play;
    SameEffectSnoc(sent + queue, given, more);
    Associate(sent, queue, [more]);
  }

  // ---- Over runs ------------------------------------------------------------

  /** All input a run accepted, in order and uncoalesced. */
  function Given<S>(rules: R.Rules<S>, start: State<S>, events: seq<Event<S>>): seq<Instruction>
    requires Inv(start)
    decreases |events|
  {
    if events == [] then []
    else
      var n := |events| - 1;
      Given(rules, start, events[..n]) + Accepted(RunAll(rules, start, events[..n]).0, events[n])
  }

  /** The input in all fresh updates a run sent, in order. */
  function SentInput<S>(rules: R.Rules<S>, start: State<S>, events: seq<Event<S>>): seq<Instruction>
    requires Inv(start)
    decreases |events|
  {
    if events == [] then []
    else
      var n := |events| - 1;
      var before := RunAll(rules, start, events[..n]).0;
      InvIsValid(before);
      SentInput(rules, start, events[..n]) + Carried(Back(before.local).id, Step(rules, before, events[n]).1)
  }

  /** The sender's log is exactly what fresh updates have carried, whatever failed in between. */
  lemma {:induction false} LogIsWhatWasSent<S>(rules: R.Rules<S>, start: State<S>, events: seq<Event<S>>)
    requires Inv(start)
    ensures RunAll(rules, start, events).0.local.log == start.local.log + SentInput(rules, start, events)
    decreases |events|
  {
    hide Step, Inv, Carried, Ordered, Agree, Monotone;
    if events == [] {
      assert start.local.log + [] == start.local.log;
    } else {
      var n := |events| - 1;
      LogIsWhatWasSent(rules, start, events[..n]);
      var before := RunAll(rules, start, events[..n]).0;
      InvIsValid(before);
      StepSendsLog(rules, before, events[n]);
      var carried := Carried(Back(before.local).id, Step(rules, before, events[n]).1);
      Associate(start.local.log, SentInput(rules, start, events[..n]), carried);
    }
  }

  predicate AlwaysKeeps<S>(rules: R.Rules<S>, start: State<S>, events: seq<Event<S>>)
    requires Inv(start)
    decreases |events|
  {
    events == []
    || (var n := |events| - 1;
        AlwaysKeeps(rules, start, events[..n]) && Keeps(RunAll(rules, start, events[..n]).0, events[n]))
  }

  lemma {:induction false} RunKeepsEffect<S>(rules: R.Rules<S>, start: State<S>, events: seq<Event<S>>)
    requires Inv(start) && AlwaysKeeps(rules, start, events) && start.local.log == [] == start.queue
    ensures var s := RunAll(rules, start, events).0;
            SameEffect(s.local.log + s.queue, Given(rules, start, events))
    decreases |events|
  {
    hide Step, Inv, Valid, Keeps, Accepted;
    if events != [] {
      var n := |events| - 1;
      RunKeepsEffect(rules, start, events[..n]);
      StepKeepsEffect(rules, RunAll(rules, start, events[..n]).0, events[n], Given(rules, start, events[..n]));
    }
  }

  /**
   Over any run in which no poll loses input and no cancellation discards any, what
   fresh updates have carried and what is still queued amount to the input accepted:
   every item once, in order, with the viewport it was given under, and the same
   viewport at the end.
   */
  lemma InputArrivesOnce<S>(rules: R.Rules<S>, initial: S, now: nat, events: seq<Event<S>>)
    requires AlwaysKeeps(rules, Begun(initial, now), events)
    ensures var start := Begun(initial, now);
            SameEffect(SentInput(rules, start, events) + RunAll(rules, start, events).0.queue,
                       Given(rules, start, events))
  {
    hide Inv, Valid, AlwaysKeeps, Play;
    var start := Begun(initial, now);
    assert start.local.log == [] == start.queue;
    hide Begun, RunAll, SentInput, Given;
    LogIsWhatWasSent(rules, start, events);
    RunKeepsEffect(rules, start, events);
    assert [] + SentInput(rules, start, events) == SentInput(rules, start, events);
  }

  /** A run that loses accepted input: the first poll associates and then fails to encode. */
  lemma PollCanLoseInput(rules: R.Rules<int>, initial: int)
    ensures var events := [Input([1]), PollAt(0, Encoding(true, false))];
            var (s, effects) := RunAll(rules, Begun(initial, 0), events);
            && Given(rules, Begun(initial, 0), events) == [HostBytes([1])]
            && s.local.log == [] == s.queue && effects == []
  {
    hide Poll, Inv, Step;
    var start := Begun(initial, 0);
    var e0: Event<int>, e1: Event<int> := Input([1]), PollAt(0, Encoding(true, false));
    InputIsTaken(rules, initial);
    LosingPoll(rules, initial);
    assert [e0, e1][..1] == [e0] && [e0][..0] == [];
  }

  /** A new session with one byte queued. */
  function OneQueued(initial: int): State<int> {
    Begun(initial, 0).(queue := [HostBytes([1])], queuedBytes := 1)
  }

  lemma InputIsTaken(rules: R.Rules<int>, initial: int)
    ensures var start := Begun(initial, 0);
            Step(rules, start, Input([1])) == (OneQueued(initial), [])
              && Accepted(start, Input([1])) == [HostBytes([1])]
  {
    hide Valid;
    assert [] + [HostBytes([1])] == [HostBytes([1])];
  }

  lemma LosingPoll(rules: R.Rules<int>, initial: int)
    ensures Valid(OneQueued(initial).local)
    ensures var (next, effects) := Step(rules, OneQueued(initial), PollAt(0, Encoding(true, false)));
            next.local.log == [] == next.queue && effects == []
  {
    hide Poll;
    PollLosesInputIff(OneQueued(initial), 0, Encoding(true, false));
  }

  // ---- The named state ------------------------------------------------------

  /** `prediction_frame_id`: the state that input queued now is going to be part of. */
  function PredictionFrameId<S>(s: State<S>): u64 {
    s.local.next
  }

  lemma {:induction false} NameStays<S>(rules: R.Rules<S>, start: State<S>, events: seq<Event<S>>, i: nat, j: nat)
    requires Inv(start) && i <= j <= |events|
    ensures var (a, b) := (RunAll(rules, start, events[..i]).0, RunAll(rules, start, events[..j]).0);
            && |a.local.log| <= |b.local.log|
            && (|a.local.log| == |b.local.log| ==> PredictionFrameId(b) == PredictionFrameId(a))
    decreases j
  {
    hide Step, RunAll, Ordered, Agree, Monotone;
    if i < j {
      NameStays(rules, start, events, i, j - 1);
      RunSnoc(rules, start, events, j - 1);
      StepSenderStep(rules, RunAll(rules, start, events[..j - 1]).0, events[j - 1]);
    }
  }

  /**
   Everything queued goes out together, in the state that was named for it from the
   first moment on, or in the shutdown state.
   */
  lemma LandsInNamedState<S>(rules: R.Rules<S>, start: State<S>, events: seq<Event<S>>, i: nat, j: nat)
    requires Inv(start) && i <= j < |events|
    requires var (queued, before, after) := (RunAll(rules, start, events[..i]).0, RunAll(rules, start, events[..j]).0,
                                             RunAll(rules, start, events[..j + 1]).0);
             |queued.local.log| == |before.local.log| < |after.local.log|
    ensures var (queued, before, after) := (RunAll(rules, start, events[..i]).0, RunAll(rules, start, events[..j]).0,
                                            RunAll(rules, start, events[..j + 1]).0);
            && Back(after.local).id in {PredictionFrameId(queued), SHUTDOWN_STATE}
            && after.local.log == before.local.log + before.queue && after.queue == []
  {
    hide Step, RunAll, Ordered, Agree, Monotone;
    NameStays(rules, start, events, i, j);
    RunSnoc(rules, start, events, j);
    StepSenderStep(rules, RunAll(rules, start, events[..j]).0, events[j]);
  }
}
