/** What a whole session tells its host to write, resize and control, through the runtime. */
module HostRuns {
  import opened Prelude
  import opened Wire
  import opened Operations
  import opened RemoteState
  import opened Runtime
  import opened RuntimeRuns
  import R = Receiver
  import Rto
  import Sender
  import Shutdown
  import HostEffects

  /** What one action makes of the host's terminal. */
  function HeardOne(effect: Effect): seq<Symbol> {
    match effect
    case WriteTerminal(bytes) => BytesAsSymbols(bytes)
    case ResizeTerminal(viewport) => if ValidViewport(viewport) then [NewSize(viewport)] else []
    case RemoteSessionControl(control) => [Ctl(control)]
    case _ => []
  }

  function Heard(effects: seq<Effect>): seq<Symbol> {
    if effects == [] then [] else Heard(effects[..|effects| - 1]) + HeardOne(effects[|effects| - 1])
  }

  lemma {:induction false} HeardConcat(a: seq<Effect>, b: seq<Effect>)
    ensures Heard(a + b) == Heard(a) + Heard(b)
  {
    hide HeardOne;
    if b == [] {
      assert a + b == a;
    } else {
      HeardConcat(a, b[..|b| - 1]);
      assert (a + b)[..|a + b| - 1] == a + b[..|b| - 1];
      Associate(Heard(a), Heard(b[..|b| - 1]), HeardOne(b[|b| - 1]));
    }
  }

  predicate IsQuiet(effects: seq<Effect>) {
    forall k :: 0 <= k < |effects| ==> HeardOne(effects[k]) == []
  }

  lemma {:induction false} QuietIsUnheard(effects: seq<Effect>)
    requires IsQuiet(effects)
    ensures Heard(effects) == []
  {
    hide HeardOne;
    if effects != [] { QuietIsUnheard(effects[..|effects| - 1]); }
  }

  lemma QuietConcat(a: seq<Effect>, b: seq<Effect>)
    requires IsQuiet(a) && IsQuiet(b)
    ensures IsQuiet(a + b)
  {
    hide HeardOne;
  }

  // The four kinds of action one instruction can lead to.
  function Writing(i: Instruction): seq<Effect> {
    if i.bytes.Some? then [WriteTerminal(i.bytes.value)] else []
  }

  function Resizing(i: Instruction): seq<Effect> {
    if i.viewport.Some? then [ResizeTerminal(i.viewport.value)] else []
  }

  function Echoing(i: Instruction): seq<Effect> {
    if i.marker.Some? then [AcknowledgePrediction(i.marker.value)] else []
  }

  function Controlling(i: Instruction): seq<Effect> {
    if i.control.Some? then [RemoteSessionControl(i.control.value)] else []
  }

  lemma InstructionParts(i: Instruction)
    requires i.viewport.Some? ==> ValidViewport(i.viewport.value)
    ensures Runtime.InstructionEffects(i) == Writing(i) + Resizing(i) + Echoing(i) + Controlling(i)
  {
  }

  lemma HeardParts(i: Instruction)
    requires i.viewport.Some? ==> ValidViewport(i.viewport.value)
    ensures Heard(Writing(i)) + Heard(Resizing(i)) + Heard(Controlling(i)) == RemoteState.InstructionEffects(i)
    ensures Heard(Echoing(i)) == []
  {
    hide Heard, BytesAsSymbols;
    AtMostOne(Writing(i));
    AtMostOne(Resizing(i));
    AtMostOne(Echoing(i));
    AtMostOne(Controlling(i));
  }

  /** The actions for one instruction have its effects, if its viewport is one the state would take. */
  lemma InstructionIsHeard(i: Instruction)
    requires i.viewport.Some? ==> ValidViewport(i.viewport.value)
    ensures Heard(Runtime.InstructionEffects(i)) == RemoteState.InstructionEffects(i)
  {
    hide Heard, Writing, Resizing, Echoing, Controlling, Runtime.InstructionEffects, RemoteState.InstructionEffects;
    InstructionParts(i);
    HeardFour(Writing(i), Resizing(i), Echoing(i), Controlling(i));
    HeardParts(i);
    NothingBetween(Heard(Writing(i)) + Heard(Resizing(i)), Heard(Controlling(i)));
  }

  lemma HeardFour(a: seq<Effect>, b: seq<Effect>, c: seq<Effect>, d: seq<Effect>)
    ensures Heard(a + b + c + d) == Heard(a) + Heard(b) + Heard(c) + Heard(d)
  {
    hide Heard;
    HeardConcat(a + b + c, d);
    HeardConcat(a + b, c);
    HeardConcat(a, b);
  }

  lemma NothingBetween(a: seq<Symbol>, b: seq<Symbol>)
    ensures a + [] + b == a + b
  {
  }

  lemma AtMostOne(effects: seq<Effect>)
    requires |effects| <= 1
    ensures Heard(effects) == if effects == [] then [] else HeardOne(effects[0])
  {
    if effects != [] { assert effects[..0] == []; }
  }

  lemma {:induction false} BatchIsHeard(batch: seq<Instruction>)
    requires ValidBatch(batch)
    ensures Heard(Runtime.HostEffects(batch)) == Effects(batch)
  {
    if batch != [] {
      var n := |batch| - 1;
      BatchIsHeard(batch[..n]);
      InstructionIsHeard(batch[n]);
      HeardConcat(Runtime.HostEffects(batch[..n]), Runtime.InstructionEffects(batch[n]));
    }
  }

  /** A difference only carries viewports the state has taken. */
  lemma DifferenceIsValid(t: Terminal, target: Remote, delivered: Remote)
    requires Difference(t, target, delivered).Ok?
    ensures ValidBatch(Difference(t, target, delivered).value)
  {
    hide Grouped, Flatten, ScreenDiffIsSafe;
  }

  // ---- One host call --------------------------------------------------------

  lemma ContinueIsQuiet<S>(s: State<S>, now: nat, encodes: bool)
    requires Sender.Valid(s.local)
    ensures Continue(s, now, encodes).1.Ok? ==> IsQuiet(Continue(s, now, encodes).1.value)
  {
    hide Build, Sender.Valid;
  }

  lemma PollIsQuiet<S>(s: State<S>, now: nat, encoding: Encoding)
    requires Sender.Valid(s.local)
    ensures Poll(s, now, encoding).1.Ok? ==> IsQuiet(Poll(s, now, encoding).1.value)
  {
    assert s.local.marks != [];
    hide Proceed, Continue, Sender.Valid, IsQuiet;
    if Works(s, encoding) {
      var (associated, association) := Associated(s, now);
      var (noticed, silence) := NoticeSilence(associated, now);
      PreludeIsQuiet(s, now);
      PreludeIsQuiet(associated, now);
      GoesOn(associated, association, now, encoding.main);
      ContinueIsQuiet(noticed, now, encoding.main);
      QuietConcat(association, silence);
      var r := Continue(noticed, now, encoding.main).1;
      if r.Ok? { QuietConcat(association + silence, r.value); }
      if Ending(associated, now).Some? { CompletionIsQuiet(Ending(associated, now).value); }
    } else {
      NothingIsQuiet();
    }
  }

  lemma PreludeIsQuiet<S>(s: State<S>, now: nat)
    requires s.local.marks != []
    ensures IsQuiet(Associated(s, now).1) && IsQuiet(NoticeSilence(s, now).1)
  {
  }

  lemma CompletionIsQuiet(outcome: Outcome)
    ensures IsQuiet([ShutdownComplete(outcome)])
  {
  }

  lemma NothingIsQuiet()
    ensures IsQuiet([])
  {
  }

  /** Which datagram, if any, brings an update the runtime takes in. */
  predicate Brings<S>(s: State<S>, event: Event<S>) {
    event.Datagrams? && event.datagram.Full? && s.lifecycle == Running
  }

  /** No remote state is rebuilt by a screen difference, and resizes start from an empty terminal. */
  predicate Plain(t: Terminal, s: State<Remote>, event: Event<Remote>) {
    && (Brings(s, event) ==> !HostEffects.UsesScreenDiff(t, s.remote, event.datagram.update))
    && (event.ResizeInput? ==> HostEffects.Told(event.blank) == [])
  }

  /** What was heard so far is the history of the state last delivered, which is empty before any arrived. */
  predicate HeardSo(s: State<Remote>, heard: seq<Symbol>) {
    heard == HostEffects.Told(s.remote.delivered) && (s.remote.latest == 0 ==> heard == [])
  }

  lemma HearIsQuiet<S>(s: State<S>, now: nat, echoed: u16)
    ensures IsQuiet(Hear(s, now, echoed).1) && Hear(s, now, echoed).0.remote == s.remote
  {
    hide Rto.Sampled, RoundTrip;
  }

  /** An advance delivers a valid difference; anything else leaves what was delivered alone. */
  lemma StepShape(t: Terminal, c: HostEffects.Client, u: StateUpdate)
    ensures var (next, outcome) := HostEffects.Step(t, c, u);
            if outcome.Ok? && outcome.value.0 then ValidBatch(outcome.value.1.delta) && next.latest > c.latest
            else next.delivered == c.delivered && next.latest == c.latest
  {
    hide R.Pruned, Applied, Difference, Copy, ValidBatch;
    var (next, outcome) := HostEffects.Step(t, c, u);
    if outcome.Ok? && outcome.value.0 { DifferenceIsValid(t, next.delivered, c.delivered); }
  }

  lemma FullReceived<S>(rules: R.Rules<S>, s: State<S>, echoed: u16, u: StateUpdate, now: nat)
    requires s.lifecycle == Running
    ensures var (next, r) := Receive(rules, s, Full(echoed, u), now);
            var (remote, outcome) := R.Accept(rules, s.remote, u);
            && next.remote == remote && (r.Ok? <==> outcome.Ok?)
            && (r.Ok? ==> exists quiet :: IsQuiet(quiet) && r.value == quiet +
                            if outcome.value.0
                            then [RemoteStateAdvanced(outcome.value.1.target)]
                              + Runtime.HostEffects(outcome.value.1.delta)
                            else [])
  {
    hide R.Accept, Hear, Sender.Acknowledged, IsQuiet, Runtime.HostEffects;
    var ingested := s.(local := Sender.Acknowledged(s.local, u.acknowledged), remote := R.Accept(rules, s.remote, u).0);
    HearIsQuiet(ingested, now, echoed);
    assert IsQuiet(Hear(ingested, now, echoed).1);
  }

  lemma AdvanceIsHeard(quiet: seq<Effect>, target: u64, batch: seq<Instruction>)
    requires IsQuiet(quiet) && ValidBatch(batch)
    ensures Heard(quiet + ([RemoteStateAdvanced(target)] + Runtime.HostEffects(batch))) == Effects(batch)
  {
    QuietIsUnheard(quiet);
    AtMostOne([RemoteStateAdvanced(target)]);
    BatchIsHeard(batch);
    hide Heard, Effects, Runtime.HostEffects, IsQuiet, ValidBatch;
    HeardConcat([RemoteStateAdvanced(target)], Runtime.HostEffects(batch));
    HeardConcat(quiet, [RemoteStateAdvanced(target)] + Runtime.HostEffects(batch));
    assert [] + ([] + Effects(batch)) == Effects(batch);
  }

  /** What the host hears of a complete update is what the update delivers. */
  lemma DeliveryIsHeard(t: Terminal, s: State<Remote>, echoed: u16, u: StateUpdate, now: nat)
    requires s.lifecycle == Running
    ensures var (next, r) := Receive(HostEffects.TerminalRules(t), s, Full(echoed, u), now);
            && Heard(if r.Ok? then r.value else []) == HostEffects.Delivered(t, s.remote, u)
            && next.remote == HostEffects.Step(t, s.remote, u).0
  {
    FullReceived(HostEffects.TerminalRules(t), s, echoed, u, now);
    StepShape(t, s.remote, u);
    NothingIsQuiet();
    QuietIsUnheard([]);
    hide Receive, R.Accept, Heard, IsQuiet, ValidBatch, Effects, Runtime.HostEffects;
    var outcome := HostEffects.Step(t, s.remote, u).1;
    var r := Receive(HostEffects.TerminalRules(t), s, Full(echoed, u), now).1;
    if r.Ok? {
      var quiet :| IsQuiet(quiet) && r.value == quiet +
                     if outcome.value.0
                     then [RemoteStateAdvanced(outcome.value.1.target)] + Runtime.HostEffects(outcome.value.1.delta)
                     else [];
      if outcome.value.0 {
        AdvanceIsHeard(quiet, outcome.value.1.target, outcome.value.1.delta);
      } else {
        QuietIsUnheard(quiet);
        assert quiet + [] == quiet;
      }
    }
  }

  lemma UpdateIsHeard(t: Terminal, s: State<Remote>, echoed: u16, u: StateUpdate, now: nat, heard: seq<Symbol>)
    requires HeardSo(s, heard) && Plain(t, s, Datagrams(Full(echoed, u), now)) && s.lifecycle == Running
    ensures var (next, r) := Receive(HostEffects.TerminalRules(t), s, Full(echoed, u), now);
            HeardSo(next, heard + Heard(if r.Ok? then r.value else []))
  {
    DeliveryIsHeard(t, s, echoed, u, now);
    StepShape(t, s.remote, u);
    HostEffects.DeliveredCompletes(t, s.remote, u);
    R.AdvanceIsReached(HostEffects.TerminalRules(t), s.remote, u);
    hide Receive, R.Accept, HostEffects.Told, HostEffects.UsesScreenDiff, Heard, ValidBatch, Effects;
    assert heard + [] == heard;
  }

  lemma ReceiveIsHeard(t: Terminal, s: State<Remote>, datagram: Datagram, now: nat, heard: seq<Symbol>)
    requires HeardSo(s, heard) && Plain(t, s, Datagrams(datagram, now))
    ensures var (next, r) := Receive(HostEffects.TerminalRules(t), s, datagram, now);
            HeardSo(next, heard + Heard(if r.Ok? then r.value else []))
  {
    NothingIsQuiet();
    QuietIsUnheard([]);
    assert heard + [] == heard;
    match datagram {
      case Noise =>
      case Bare(echoed) =>
        HearIsQuiet(s, now, echoed);
        QuietIsUnheard(Hear(s, now, echoed).1);
        hide Hear, Heard;
      case Full(echoed, u) =>
        if s.lifecycle == Running { UpdateIsHeard(t, s, echoed, u, now, heard); }
    }
  }

  lemma ResizeIsUnheard(t: Terminal, s: State<Remote>, columns: u16, rows: u16, blank: Remote, heard: seq<Symbol>)
    requires HeardSo(s, heard) && HostEffects.Told(blank) == []
    ensures HeardSo(QueueResize(s, columns, rows, blank), heard)
  {
    hide HostEffects.Told, Coalesced;
  }

  /** Whatever the host calls, what it is told continues what it was told before. */
  lemma StepIsHeard(t: Terminal, s: State<Remote>, event: Event<Remote>, heard: seq<Symbol>)
    requires Inv(s) && HeardSo(s, heard) && Plain(t, s, event)
    ensures var (next, effects) := Runtime.Step(HostEffects.TerminalRules(t), s, event);
            HeardSo(next, heard + Heard(effects))
  {
    InvIsValid(s);
    NothingIsQuiet();
    QuietIsUnheard([]);
    assert heard + [] == heard;
    hide Poll, Receive, Inv, Sender.Valid, HostEffects.Told, Heard, QueueResize, IsQuiet;
    match event {
      case PollAt(now, encoding) =>
        Shutdown.PollAnswers(s, now, encoding);
        PollIsQuiet(s, now, encoding);
        QuietIsUnheard(Runtime.Step(HostEffects.TerminalRules(t), s, event).1);
      case Datagrams(datagram, now) => ReceiveIsHeard(t, s, datagram, now, heard);
      case ResizeInput(columns, rows, blank) => ResizeIsUnheard(t, s, columns, rows, blank, heard);
      case _ =>
        OtherIsQuiet(t, s, event);
        QuietIsUnheard(Runtime.Step(HostEffects.TerminalRules(t), s, event).1);
    }
  }

  lemma OtherIsQuiet(t: Terminal, s: State<Remote>, event: Event<Remote>)
    requires Sender.Valid(s.local) && !event.PollAt? && !event.Datagrams? && !event.ResizeInput?
    ensures var (next, effects) := Runtime.Step(HostEffects.TerminalRules(t), s, event);
            IsQuiet(effects) && next.remote == s.remote
  {
  }

  // ---- Whole sessions -------------------------------------------------------

  predicate AlwaysPlain(t: Terminal, start: State<Remote>, events: seq<Event<Remote>>)
    requires Inv(start)
    decreases |events|
  {
    events == []
    || (var n := |events| - 1;
        AlwaysPlain(t, start, events[..n])
        && Plain(t, RunAll(HostEffects.TerminalRules(t), start, events[..n]).0, events[n]))
  }

  lemma {:induction false} RunIsHeard(t: Terminal, start: State<Remote>, events: seq<Event<Remote>>)
    requires Inv(start) && AlwaysPlain(t, start, events) && HeardSo(start, [])
    ensures var (s, effects) := RunAll(HostEffects.TerminalRules(t), start, events); HeardSo(s, Heard(effects))
    decreases |events|
  {
    NothingIsQuiet();
    QuietIsUnheard([]);
    hide Runtime.Step, Inv, Plain, Heard;
    if events != [] {
      var n := |events| - 1;
      RunIsHeard(t, start, events[..n]);
      var (s, effects) := RunAll(HostEffects.TerminalRules(t), start, events[..n]);
      InvIsValid(s);
      StepIsHeard(t, s, events[n], Heard(effects));
      HeardConcat(effects, Runtime.Step(HostEffects.TerminalRules(t), s, events[n]).1);
    }
  }

  /**
   Over any run of host calls in which no remote state is reached by a screen
   difference, the bytes, sizes and controls in the returned actions are together
   exactly the history of the remote state last delivered.
   */
  lemma SessionTellsHistoryOnce(t: Terminal, size: Size, now: nat, events: seq<Event<Remote>>)
    requires AlwaysPlain(t, Begun(RemoteState.New(t, size), now), events)
    ensures var (s, effects) := RunAll(HostEffects.TerminalRules(t), Begun(RemoteState.New(t, size), now), events);
            Heard(effects) == HostEffects.Told(s.remote.delivered)
  {
    hide Inv, AlwaysPlain, RunAll;
    RunIsHeard(t, Begun(RemoteState.New(t, size), now), events);
  }
}
