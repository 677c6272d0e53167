/** What the host has been told, action by action, against what holds. */
module Reports {
  import opened Prelude
  import opened Wire
  import opened Runtime
  import opened RuntimeRuns
  import R = Receiver
  import Rto
  import Sender
  import Shutdown

  /** What the actions say about the session, each kind at its latest. */
  datatype Known = Known(connection: Connection, lifecycle: Lifecycle, generation: u64, roundTrip: Option<u16>,
                         latest: u64, outcome: Option<Outcome>)

  function Learnt(k: Known, effect: Effect): Known {
    match effect
    case ConnectionStateChanged(connection) => k.(connection := connection)
    case LifecycleChanged(lifecycle) => k.(lifecycle := lifecycle)
    case UdpBindingChanged(generation) => k.(generation := generation)
    case RoundTripEstimate(milliseconds) => k.(roundTrip := Some(milliseconds))
    case RemoteStateAdvanced(id) => k.(latest := id)
    case ShutdownComplete(outcome) => k.(outcome := Some(outcome))
    case _ => k
  }

  function LearntAll(k: Known, effects: seq<Effect>): Known {
    if effects == [] then k else Learnt(LearntAll(k, effects[..|effects| - 1]), effects[|effects| - 1])
  }

  /** What holds. */
  function Holding<S>(s: State<S>): Known {
    Known(s.connection, s.lifecycle, s.generation, s.roundTrip, s.remote.latest,
          if s.shutdown.Complete? then Some(s.shutdown.outcome) else None)
  }

  lemma {:induction false} LearntConcat(k: Known, a: seq<Effect>, b: seq<Effect>)
    ensures LearntAll(k, a + b) == LearntAll(LearntAll(k, a), b)
  {
    hide Learnt;
    if b == [] {
      assert a + b == a;
    } else {
      LearntConcat(k, a, b[..|b| - 1]);
      assert (a + b)[..|a + b| - 1] == a + b[..|b| - 1];
    }
  }

  lemma LearntOne(k: Known, effect: Effect)
    ensures LearntAll(k, [effect]) == Learnt(k, effect) && LearntAll(k, []) == k
  {
    assert [effect][..0] == [];
    assert LearntAll(k, [effect][..0]) == k;
    hide Learnt;
  }

  lemma LearntTwo(k: Known, first: Effect, second: Effect)
    ensures LearntAll(k, [first, second]) == Learnt(Learnt(k, first), second)
  {
    LearntOne(k, first);
    LearntOne(Learnt(k, first), second);
    LearntConcat(k, [first], [second]);
    assert [first] + [second] == [first, second];
    hide Learnt, LearntAll;
  }

  // ---- One call -------------------------------------------------------------

  /** A server that was connected has not been heard of for thirty seconds. */
  predicate IsSilent<S>(s: State<S>, now: nat) {
    s.connection == Connected && now >= s.lastReceive + 30_000
  }

  /** The call is a poll that fails after it has noticed that the server fell silent. */
  predicate HidesSilence<S>(s: State<S>, event: Event<S>)
    requires Sender.Valid(s.local)
  {
    event.PollAt? && Works(s, event.encoding) && IsSilent(s, event.now) && Poll(s, event.now, event.encoding).1.Err?
  }

  lemma ContinueTells<S>(s: State<S>, now: nat, encodes: bool)
    requires Sender.Valid(s.local) && !s.shutdown.Complete?
    ensures var (next, r) := Continue(s, now, encodes);
            && (r.Ok? ==> LearntAll(Holding(s), r.value) == Holding(next))
            && (r.Err? ==> Holding(next) == Holding(s))
  {
    hide Build, Learnt, Sending;
    match Choose(s, now) {
      case Wait => LearntOne(Holding(s), ShutdownComplete(TimedOut));
      case SendQueued =>
        if Build(s, encodes).Ok? {
          var (local, update) := Build(s, encodes).value;
          SendingTells(s.(local := local, queue := [], queuedBytes := 0, ackDue := false), now, update, true);
        }
      case Resend => SendingTells(s, now, Sender.Retransmission(s.local, s.remote.latest), true);
      case SendAck => SendingTells(s, now, Sender.Heartbeat(s.local, s.remote.latest), false);
    }
  }

  lemma SendingTells<S>(s: State<S>, now: nat, update: StateUpdate, counted: bool)
    requires !s.shutdown.Complete?
    ensures LearntAll(Holding(s), Sending(s, now, update, counted).1) == Holding(Sending(s, now, update, counted).0)
  {
    LearntOne(Holding(s), SendDatagram(update));
    LearntTwo(Holding(s), SendDatagram(update), ShutdownComplete(PeerRequested));
    var datagram: Effect, over: Effect := SendDatagram(update), ShutdownComplete(PeerRequested);
    assert [datagram] + [over] == [datagram, over] && [datagram] + [] == [datagram];
    hide LearntAll;
  }

  lemma NoticingTells<S>(s: State<S>, now: nat)
    ensures LearntAll(Holding(s), NoticeSilence(s, now).1) == Holding(NoticeSilence(s, now).0)
    ensures Holding(NoticeSilence(s, now).0) == Holding(s) <==> !IsSilent(s, now)
    ensures ConnectionStateChanged(Interrupted) in NoticeSilence(s, now).1 <==> IsSilent(s, now)
  {
    LearntOne(Holding(s), ConnectionStateChanged(Interrupted));
    hide LearntAll;
  }

  lemma AssociatingTells<S>(s: State<S>, now: nat)
    requires s.local.marks != []
    ensures LearntAll(Holding(s), Associated(s, now).1) == Holding(Associated(s, now).0) == Holding(s)
    ensures IsSilent(Associated(s, now).0, now) == IsSilent(s, now)
  {
    LearntOne(Holding(s), SendDatagram(Sender.Heartbeat(s.local, s.remote.latest)));
    hide LearntAll;
  }

  lemma CompletingTells<S>(s: State<S>, outcome: Outcome)
    ensures LearntAll(Holding(s), [ShutdownComplete(outcome)]) == Holding(s.(shutdown := Complete(outcome)))
  {
    LearntOne(Holding(s), ShutdownComplete(outcome));
    hide LearntAll;
  }

  lemma PollTells<S>(s: State<S>, now: nat, encoding: Encoding)
    requires Sender.Valid(s.local)
    ensures var (next, r) := Poll(s, now, encoding);
            (LearntAll(Holding(s), if r.Ok? then r.value else []) == Holding(next))
            <==> !HidesSilence(s, PollAt(now, encoding))
  {
    assert s.local.marks != [];
    LearntOne(Holding(s), ShutdownComplete(TimedOut));
    if Works(s, encoding) {
      var (associated, association) := Associated(s, now);
      var (noticed, silence) := NoticeSilence(associated, now);
      AssociatingTells(s, now);
      NoticingTells(associated, now);
      hide Continue, Proceed, Sender.Valid, Ending, LearntAll, IsSilent, Associated, NoticeSilence;
      GoesOn(associated, association, now, encoding.main);
      if Ending(associated, now).Some? {
        CompletingTells(associated, Ending(associated, now).value);
      } else {
        AfterNoticing(s, now);
        ContinueTells(noticed, now, encoding.main);
        var r := Continue(noticed, now, encoding.main).1;
        LearntConcat(Holding(s), association, silence);
        if r.Ok? { LearntConcat(Holding(s), association + silence, r.value); }
      }
    }
  }

  lemma AfterNoticing<S>(s: State<S>, now: nat)
    requires Sender.Valid(s.local) && !s.shutdown.Complete?
    ensures var noticed := NoticeSilence(Associated(s, now).0, now).0;
            noticed.local == s.local && Sender.Valid(noticed.local) && !noticed.shutdown.Complete?
  {
    hide Sender.Valid;
  }

  /** A poll that succeeds without ending the session reports silence exactly when the server has been silent. */
  lemma SilenceIsReportedIff<S>(s: State<S>, now: nat, encoding: Encoding)
    requires Inv(s) && Works(s, encoding)
    ensures Sender.Valid(s.local)
    ensures var (next, r) := Poll(s, now, encoding);
            r.Ok? && Ending(s, now).None? ==>
              && (ConnectionStateChanged(Interrupted) in r.value
                  <==> s.connection == Connected && now >= s.lastReceive + 30_000)
              && next.connection == if ConnectionStateChanged(Interrupted) in r.value then Interrupted else s.connection
  {
    InvIsValid(s);
    assert s.local.marks != [];
    var (associated, association) := Associated(s, now);
    var (noticed, silence) := NoticeSilence(associated, now);
    assert Ending(associated, now) == Ending(s, now);
    assert ConnectionStateChanged(Interrupted) !in association;
    NoticingTells(associated, now);
    AfterNoticing(s, now);
    hide Continue, Proceed, Sender.Valid, Ending, Inv;
    GoesOn(associated, association, now, encoding.main);
    ContinueIsAboutNothingElse(noticed, now, encoding.main);
  }

  lemma ContinueIsAboutNothingElse<S>(s: State<S>, now: nat, encodes: bool)
    requires Sender.Valid(s.local)
    ensures var (next, r) := Continue(s, now, encodes);
            next.connection == s.connection && (r.Ok? ==> ConnectionStateChanged(Interrupted) !in r.value)
  {
    hide Build;
  }

  // ---- Datagrams and everything else ----------------------------------------

  lemma HearingTells<S>(s: State<S>, now: nat, echoed: u16, k: Known)
    requires k.connection == s.connection && k.roundTrip == s.roundTrip
    ensures var (next, effects) := Hear(s, now, echoed);
            LearntAll(k, effects) == k.(connection := next.connection, roundTrip := next.roundTrip)
  {
    var sample := RoundTrip(now, echoed);
    LearntOne(k, ConnectionStateChanged(Connected));
    LearntOne(k, RoundTripEstimate(sample));
    LearntTwo(k, ConnectionStateChanged(Connected), RoundTripEstimate(sample));
    var connected: Effect, measured: Effect := ConnectionStateChanged(Connected), RoundTripEstimate(sample);
    var none: seq<Effect> := [];
    assert [connected] + [measured] == [connected, measured] && none + [measured] == [measured];
    assert [connected] + none == [connected] && none + none == none;
    hide LearntAll, RoundTrip, Rto.Sampled;
  }

  lemma {:induction false} HostEffectsTellNothing(k: Known, batch: seq<Instruction>)
    ensures LearntAll(k, HostEffects(batch)) == k
  {
    if batch != [] {
      HostEffectsTellNothing(k, batch[..|batch| - 1]);
      InstructionTellsNothing(k, InstructionEffects(batch[|batch| - 1]));
      LearntConcat(k, HostEffects(batch[..|batch| - 1]), InstructionEffects(batch[|batch| - 1]));
    }
    hide InstructionEffects;
  }

  lemma {:induction false} InstructionTellsNothing(k: Known, effects: seq<Effect>)
    requires forall i :: 0 <= i < |effects| ==>
               effects[i].WriteTerminal? || effects[i].ResizeTerminal? || effects[i].AcknowledgePrediction?
               || effects[i].RemoteSessionControl?
    ensures LearntAll(k, effects) == k
  {
    if effects != [] { InstructionTellsNothing(k, effects[..|effects| - 1]); }
  }

  lemma AdvanceTells(k: Known, heard: seq<Effect>, target: u64, batch: seq<Instruction>)
    ensures LearntAll(k, heard + ([RemoteStateAdvanced(target)] + HostEffects(batch)))
            == LearntAll(k, heard).(latest := target)
  {
    var said := LearntAll(k, heard);
    LearntConcat(k, heard, [RemoteStateAdvanced(target)] + HostEffects(batch));
    LearntConcat(said, [RemoteStateAdvanced(target)], HostEffects(batch));
    LearntOne(said, RemoteStateAdvanced(target));
    HostEffectsTellNothing(Learnt(said, RemoteStateAdvanced(target)), batch);
    hide LearntAll, HostEffects;
  }

  lemma UpdateTells<S>(rules: R.Rules<S>, s: State<S>, echoed: u16, u: StateUpdate, now: nat)
    requires s.lifecycle == Running
    ensures var (next, r) := Receive(rules, s, Full(echoed, u), now);
            LearntAll(Holding(s), if r.Ok? then r.value else []) == Holding(next)
  {
    LearntOne(Holding(s), ShutdownComplete(TimedOut));
    R.AdvanceIsReached(rules, s.remote, u);
    R.AcceptAddsOnlyTarget(rules, s.remote, u);
    R.TargetIsKept(rules, s.remote, u);
    hide R.Accept, R.Reaches, R.Target, Sender.Acknowledged, Hear, LearntAll, HostEffects;
    var (remote, outcome) := R.Accept(rules, s.remote, u);
    if outcome.Ok? {
      var ingested := s.(local := Sender.Acknowledged(s.local, u.acknowledged), remote := remote);
      HearingTells(ingested, now, echoed, Holding(s));
      HearingKeepsRemote(ingested, now, echoed);
      var effects := Hear(ingested, now, echoed).1;
      if outcome.value.0 {
        AdvanceTells(Holding(s), effects, u.target, outcome.value.1.delta);
      } else {
        assert effects + [] == effects;
      }
    }
  }

  lemma ReceivingTells<S>(rules: R.Rules<S>, s: State<S>, datagram: Datagram, now: nat)
    ensures var (next, r) := Receive(rules, s, datagram, now);
            LearntAll(Holding(s), if r.Ok? then r.value else []) == Holding(next)
  {
    LearntOne(Holding(s), ShutdownComplete(TimedOut));
    hide Hear, LearntAll;
    match datagram {
      case Noise =>
      case Bare(echoed) =>
        HearingTells(s, now, echoed, Holding(s));
        HearingKeepsRemote(s, now, echoed);
      case Full(echoed, u) =>
        if s.lifecycle == Running { UpdateTells(rules, s, echoed, u, now); }
    }
  }

  lemma HearingKeepsRemote<S>(s: State<S>, now: nat, echoed: u16)
    ensures var next := Hear(s, now, echoed).0;
            next.remote == s.remote && next.shutdown == s.shutdown && next.lifecycle == s.lifecycle
            && next.generation == s.generation
  {
  }

  lemma OthersTell<S>(rules: R.Rules<S>, s: State<S>, event: Event<S>)
    requires Sender.Valid(s.local) && !event.PollAt? && !event.Datagrams?
    ensures var (next, effects) := Step(rules, s, event); LearntAll(Holding(s), effects) == Holding(next)
  {
    LearntOne(Holding(s), LifecycleChanged(Paused));
    LearntOne(Holding(s), LifecycleChanged(Cancelled));
    LearntOne(Holding(s), LifecycleChanged(Running));
    LearntOne(Holding(s), UdpBindingChanged(Min(s.generation + 1, U64_MAX)));
    hide LearntAll, Sender.Valid, Coalesced;
  }

  /** After any call the host knows what holds, except after a poll that fails and has just noticed silence. */
  lemma StepTellsIff<S>(rules: R.Rules<S>, s: State<S>, event: Event<S>)
    requires Inv(s)
    ensures Sender.Valid(s.local)
    ensures var (next, effects) := Step(rules, s, event);
            LearntAll(Holding(s), effects) == Holding(next) <==> !HidesSilence(s, event)
  {
    InvIsValid(s);
    hide Inv, Sender.Valid, Poll, Receive, LearntAll, HidesSilence;
    match event {
      case PollAt(now, encoding) => PollTells(s, now, encoding);
      case Datagrams(datagram, now) => ReceivingTells(rules, s, datagram, now);
      case _ => OthersTell(rules, s, event);
    }
    OnlyPollsHide(s, event);
  }

  lemma OnlyPollsHide<S>(s: State<S>, event: Event<S>)
    requires Sender.Valid(s.local)
    ensures HidesSilence(s, event) ==> event.PollAt?
  {
  }

  // ---- Runs -----------------------------------------------------------------

  /** No poll of the run fails having noticed silence. */
  ghost predicate NeverHides<S>(rules: R.Rules<S>, start: State<S>, events: seq<Event<S>>)
    requires Inv(start)
  {
    forall k :: 0 <= k < |events| ==>
      var s := RunAll(rules, start, events[..k]).0; Sender.Valid(s.local) && !HidesSilence(s, events[k])
  }

  /** Over such a run, what the host was last told of each kind is what holds. */
  lemma {:induction false} HostKnowsWhatHolds<S>(rules: R.Rules<S>, start: State<S>, events: seq<Event<S>>)
    requires Inv(start) && NeverHides(rules, start, events)
    ensures var (s, effects) := RunAll(rules, start, events); LearntAll(Holding(start), effects) == Holding(s)
    decreases |events|
  {
    hide Step, Inv, Sender.Valid, HidesSilence, Learnt, Holding;
    if events != [] {
      var n := |events| - 1;
      assert forall k :: 0 <= k < n ==> events[..n][k] == events[k] && events[..n][..k] == events[..k];
      HostKnowsWhatHolds(rules, start, events[..n]);
      var (s, effects) := RunAll(rules, start, events[..n]);
      StepTellsIff(rules, s, events[n]);
      LearntConcat(Holding(start), effects, Step(rules, s, events[n]).1);
    }
  }

  // ---- Only news ------------------------------------------------------------

  /** The action tells the host something it has not been told: another value, a later state, an outcome. */
  predicate IsNews<S>(s: State<S>, effect: Effect) {
    match effect
    case ConnectionStateChanged(connection) => connection != s.connection
    case LifecycleChanged(lifecycle) => lifecycle != s.lifecycle
    case RoundTripEstimate(milliseconds) => s.roundTrip != Some(milliseconds)
    case RemoteStateAdvanced(id) => s.remote.latest < id
    case ShutdownComplete(_) => !s.shutdown.Complete?
    case _ => true
  }

  predicate AllNews<S>(s: State<S>, effects: seq<Effect>) {
    forall k :: 0 <= k < |effects| ==> IsNews(s, effects[k])
  }

  lemma ContinueIsNews<S>(s: State<S>, before: State<S>, now: nat, encodes: bool)
    requires Sender.Valid(s.local) && !before.shutdown.Complete?
    ensures Continue(s, now, encodes).1.Ok? ==> AllNews(before, Continue(s, now, encodes).1.value)
  {
    hide Build;
  }

  lemma PollIsNews<S>(s: State<S>, now: nat, encoding: Encoding)
    requires Sender.Valid(s.local)
    ensures Poll(s, now, encoding).1.Ok? ==> AllNews(s, Poll(s, now, encoding).1.value)
  {
    assert s.local.marks != [];
    if Works(s, encoding) {
      var (associated, association) := Associated(s, now);
      var (noticed, silence) := NoticeSilence(associated, now);
      assert AllNews(s, association) && AllNews(s, silence);
      AfterNoticing(s, now);
      hide Continue, Proceed, Sender.Valid, Ending;
      GoesOn(associated, association, now, encoding.main);
      ContinueIsNews(noticed, s, now, encoding.main);
    }
  }

  lemma {:induction false} HostEffectsAreNews<S>(s: State<S>, batch: seq<Instruction>)
    ensures AllNews(s, HostEffects(batch))
  {
    if batch != [] { HostEffectsAreNews(s, batch[..|batch| - 1]); }
  }

  lemma HearingIsNews<S>(s: State<S>, before: State<S>, now: nat, echoed: u16)
    requires s.connection == before.connection && s.roundTrip == before.roundTrip
    ensures AllNews(before, Hear(s, now, echoed).1)
  {
    hide Rto.Sampled, RoundTrip;
  }

  lemma ReceivingIsNews<S>(rules: R.Rules<S>, s: State<S>, datagram: Datagram, now: nat)
    ensures var r := Receive(rules, s, datagram, now).1; r.Ok? ==> AllNews(s, r.value)
  {
    if datagram.Full? {
      var u := datagram.update;
      var (remote, outcome) := R.Accept(rules, s.remote, u);
      R.AdvanceIsReached(rules, s.remote, u);
      R.AcceptAddsOnlyTarget(rules, s.remote, u);
      R.TargetIsKept(rules, s.remote, u);
      var ingested := s.(local := Sender.Acknowledged(s.local, u.acknowledged), remote := remote);
      HearingIsNews(ingested, s, now, datagram.echoed);
      if outcome.Ok? { HostEffectsAreNews(s, outcome.value.1.delta); }
    }
    if datagram.Bare? { HearingIsNews(s, s, now, datagram.echoed); }
    hide R.Accept, R.Reaches, R.Target, Sender.Acknowledged, Hear, HostEffects;
  }

  /** No call tells the host what it has been told: only what changed, later states, and an outcome once. */
  lemma OnlyNewsIsTold<S>(rules: R.Rules<S>, s: State<S>, event: Event<S>)
    requires Inv(s)
    ensures AllNews(s, Step(rules, s, event).1)
  {
    InvIsValid(s);
    hide Inv, Sender.Valid, Poll, Receive;
    match event {
      case PollAt(now, encoding) => PollIsNews(s, now, encoding);
      case Datagrams(datagram, now) => ReceivingIsNews(rules, s, datagram, now);
      case _ =>
    }
  }

  // ---- When the server was last heard of ------------------------------------

  /** The call brings word from the server, or starts the wait for it anew. */
  predicate IsWord<S>(rules: R.Rules<S>, s: State<S>, event: Event<S>) {
    || (event.ResumeAt? && s.lifecycle != Cancelled)
    || (event.Datagrams? && s.lifecycle == Running
        && match event.datagram
           case Noise => false
           case Bare(_) => true
           case Full(_, u) => R.Accept(rules, s.remote, u).1.Ok?)
  }

  /** The time of the last such call, or of the session's beginning. */
  function LastWord<S>(rules: R.Rules<S>, start: State<S>, events: seq<Event<S>>): nat
    requires Inv(start)
    decreases |events|
  {
    if events == [] then start.lastReceive
    else
      var n := |events| - 1;
      if IsWord(rules, RunAll(rules, start, events[..n]).0, events[n]) then events[n].now
      else LastWord(rules, start, events[..n])
  }

  lemma PollKeepsWord<S>(s: State<S>, now: nat, encoding: Encoding)
    requires Sender.Valid(s.local)
    ensures Poll(s, now, encoding).0.lastReceive == s.lastReceive
    ensures Poll(s, now, encoding).0.generation == s.generation
  {
    assert s.local.marks != [];
    if Works(s, encoding) {
      var (associated, association) := Associated(s, now);
      var noticed := NoticeSilence(associated, now).0;
      AfterNoticing(s, now);
      hide Continue, Proceed, Sender.Valid, Ending;
      GoesOn(associated, association, now, encoding.main);
      ContinueKeepsWord(noticed, now, encoding.main);
    }
  }

  lemma ContinueKeepsWord<S>(s: State<S>, now: nat, encodes: bool)
    requires Sender.Valid(s.local)
    ensures Continue(s, now, encodes).0.lastReceive == s.lastReceive
    ensures Continue(s, now, encodes).0.generation == s.generation
  {
    hide Build;
  }

  lemma ReceivingIsWord<S>(rules: R.Rules<S>, s: State<S>, datagram: Datagram, now: nat)
    ensures Receive(rules, s, datagram, now).0.lastReceive
            == if IsWord(rules, s, Datagrams(datagram, now)) then now else s.lastReceive
    ensures Receive(rules, s, datagram, now).0.generation == s.generation
  {
    hide R.Accept, Sender.Acknowledged, Rto.Sampled, HostEffects;
  }

  lemma {:induction false} WordIsKept<S>(rules: R.Rules<S>, start: State<S>, events: seq<Event<S>>)
    requires Inv(start)
    ensures RunAll(rules, start, events).0.lastReceive == LastWord(rules, start, events)
    decreases |events|
  {
    hide Poll, Receive, Inv, Sender.Valid, IsWord;
    if events != [] {
      var n := |events| - 1;
      WordIsKept(rules, start, events[..n]);
      var s := RunAll(rules, start, events[..n]).0;
      InvIsValid(s);
      match events[n] {
        case PollAt(now, encoding) => PollKeepsWord(s, now, encoding);
        case Datagrams(datagram, now) => ReceivingIsWord(rules, s, datagram, now);
        case _ =>
      }
      OthersAreNoWord(rules, s, events[n]);
    }
  }

  lemma OthersAreNoWord<S>(rules: R.Rules<S>, s: State<S>, event: Event<S>)
    ensures IsWord(rules, s, event) ==> event.ResumeAt? || event.Datagrams?
    ensures event.ResumeAt? ==> (IsWord(rules, s, event) <==> s.lifecycle != Cancelled)
  {
    hide R.Accept;
  }

  /**
   Over any run, a poll that succeeds and goes on reports the server silent exactly when the host takes it for
   connected and there has been no word for thirty seconds.
   */
  lemma SilenceIsReported<S>(rules: R.Rules<S>, start: State<S>, events: seq<Event<S>>, now: nat, encoding: Encoding)
    requires Inv(start) && NeverHides(rules, start, events)
    requires Works(RunAll(rules, start, events).0, encoding)
    ensures var (s, effects) := RunAll(rules, start, events);
            && Sender.Valid(s.local)
            && var r := Poll(s, now, encoding).1;
               r.Ok? && Ending(s, now).None? ==>
                 (ConnectionStateChanged(Interrupted) in r.value <==>
                  LearntAll(Holding(start), effects).connection == Connected
                  && now >= LastWord(rules, start, events) + 30_000)
  {
    var s := RunAll(rules, start, events).0;
    HostKnowsWhatHolds(rules, start, events);
    WordIsKept(rules, start, events);
    hide RunAll, Inv, Sender.Valid, Poll, LearntAll, LastWord, Ending, NeverHides;
    SilenceIsReportedIff(s, now, encoding);
  }

  /** How often the host has rebound its socket while the session was not cancelled. */
  function Rebinds<S>(rules: R.Rules<S>, start: State<S>, events: seq<Event<S>>): nat
    requires Inv(start)
    decreases |events|
  {
    if events == [] then 0
    else
      var n := |events| - 1;
      Rebinds(rules, start, events[..n])
      + if events[n] == UdpRebound && RunAll(rules, start, events[..n]).0.lifecycle != Cancelled then 1 else 0
  }

  /** The binding's generation counts the rebinds, in a saturating word, and nothing else moves it. */
  lemma {:induction false} GenerationCountsRebinds<S>(rules: R.Rules<S>, start: State<S>, events: seq<Event<S>>)
    requires Inv(start)
    ensures RunAll(rules, start, events).0.generation == Min(start.generation + Rebinds(rules, start, events), U64_MAX)
    decreases |events|
  {
    hide Poll, Receive, Inv, Sender.Valid;
    if events != [] {
      var n := |events| - 1;
      GenerationCountsRebinds(rules, start, events[..n]);
      var s := RunAll(rules, start, events[..n]).0;
      InvIsValid(s);
      match events[n] {
        case PollAt(now, encoding) => PollKeepsWord(s, now, encoding);
        case Datagrams(datagram, now) => ReceivingIsWord(rules, s, datagram, now);
        case _ =>
      }
    }
  }

  // ---- Silence that is never reported ---------------------------------------

  /** A session that has associated and heard one packet. */
  function HeardOnce(initial: int): State<int> {
    Runtime.New(initial, 0).(associationDue := false, lastSend := Some(0), lastReceive := 1, connection := Connected)
  }

  lemma PacketIsHeard(rules: R.Rules<int>, initial: int)
    ensures var s := Runtime.New(initial, 0).(associationDue := false, lastSend := Some(0));
            Receive(rules, s, Bare(NO_ECHO_TIMESTAMP), 1)
              == (HeardOnce(initial), Ok([ConnectionStateChanged(Connected)]))
  {
  }

  lemma FailsSilently(initial: int)
    ensures Sender.Valid(HeardOnce(initial).local)
    ensures Poll(HeardOnce(initial), 30_001, Encoding(true, false))
            == (HeardOnce(initial).(connection := Interrupted), Err(Session(R.EncodingFailed)))
  {
    GoesOn(HeardOnce(initial), [], 30_001, false);
  }

  /** A run in which the session takes the server for silent, and the host was last told that it is connected. */
  lemma SilenceCanBeHidden(rules: R.Rules<int>, initial: int)
    ensures var events := [PollAt(0, WORKS), Datagrams(Bare(NO_ECHO_TIMESTAMP), 1),
                           PollAt(30_001, Encoding(true, false))];
            var (s, effects) := RunAll(rules, Begun(initial, 0), events);
            && s.connection == Interrupted
            && LearntAll(Holding(Begun(initial, 0)), effects).connection == Connected
  {
    Shutdown.AssociatesFirst(initial);
    PacketIsHeard(rules, initial);
    FailsSilently(initial);
    hide Poll, Receive, Inv, Sender.Valid;
    var e0: Event<int>, e1: Event<int>, e2: Event<int> :=
      PollAt(0, WORKS), Datagrams(Bare(NO_ECHO_TIMESTAMP), 1), PollAt(30_001, Encoding(true, false));
    var start := Begun(initial, 0);
    assert [e0, e1, e2][..2] == [e0, e1] && [e0, e1][..1] == [e0] && [e0][..0] == [];
    var sent: Effect, heard: Effect := SendDatagram(Sender.Heartbeat(Sender.NEW, 0)), ConnectionStateChanged(Connected);
    assert Step(rules, start, e0).1 == [sent] && Step(rules, Step(rules, start, e0).0, e1).1 == [heard];
    assert RunAll(rules, start, [e0]) == (Step(rules, start, e0).0, [] + [sent]);
    assert RunAll(rules, start, [e0, e1]) == (HeardOnce(initial), [] + [sent] + [heard]);
    assert [] + [sent] + [heard] + [] == [sent, heard];
    LearntTwo(Holding(start), sent, heard);
  }
}
