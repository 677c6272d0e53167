/** What the host has been told of the server's echo acknowledgements, over whole sessions. */
module Echoes {
  import opened Prelude
  import opened Wire
  import opened Operations
  import opened RemoteState
  import opened Runtime
  import opened RuntimeRuns
  import R = Receiver
  import Rto
  import Sender
  import Shutdown
  import HostEffects

  /** The last echo acknowledgement among some actions, or the one from before them. */
  function EchoTold(before: Option<u64>, effects: seq<Effect>): Option<u64> {
    if effects == [] then before
    else match effects[|effects| - 1]
         case AcknowledgePrediction(value) => Some(value)
         case _ => EchoTold(before, effects[..|effects| - 1])
  }

  lemma {:induction false} EchoConcat(before: Option<u64>, a: seq<Effect>, b: seq<Effect>)
    ensures EchoTold(before, a + b) == EchoTold(EchoTold(before, a), b)
  {
    if b == [] {
      assert a + b == a;
    } else {
      EchoConcat(before, a, b[..|b| - 1]);
      assert (a + b)[..|a + b| - 1] == a + b[..|b| - 1];
    }
  }

  predicate NoEcho(effects: seq<Effect>) {
    forall k :: 0 <= k < |effects| ==> !effects[k].AcknowledgePrediction?
  }

  lemma {:induction false} NothingTold(before: Option<u64>, effects: seq<Effect>)
    requires NoEcho(effects)
    ensures EchoTold(before, effects) == before
  {
    if effects != [] { NothingTold(before, effects[..|effects| - 1]); }
  }

  // ---- A difference ---------------------------------------------------------

  predicate NoMarker(batch: seq<Instruction>) {
    forall k :: 0 <= k < |batch| ==> batch[k].marker.None?
  }

  lemma {:induction false} UnmarkedTellsNothing(batch: seq<Instruction>)
    requires NoMarker(batch)
    ensures NoEcho(Runtime.HostEffects(batch))
  {
    if batch != [] { UnmarkedTellsNothing(batch[..|batch| - 1]); }
  }

  lemma {:induction false} ActionsConcat(a: seq<Instruction>, b: seq<Instruction>)
    ensures Runtime.HostEffects(a + b) == Runtime.HostEffects(a) + Runtime.HostEffects(b)
  {
    hide Runtime.InstructionEffects;
    if b == [] {
      assert a + b == a;
    } else {
      ActionsConcat(a, b[..|b| - 1]);
      assert (a + b)[..|a + b| - 1] == a + b[..|b| - 1];
      Associate(Runtime.HostEffects(a), Runtime.HostEffects(b[..|b| - 1]),
                Runtime.InstructionEffects(b[|b| - 1]));
    }
  }

  lemma EchoChangeTells(target: Remote, delivered: Remote)
    ensures EchoTold(delivered.echoAck, Runtime.HostEffects(EchoChange(target, delivered)))
            == if target.echoAck.Some? then target.echoAck else delivered.echoAck
  {
    var change := EchoChange(target, delivered);
    if change != [] {
      assert change[..0] == [];
      var told: Effect := AcknowledgePrediction(target.echoAck.value);
      assert Runtime.InstructionEffects(change[0]) == [told];
      assert Runtime.HostEffects(change) == [] + [told];
    }
  }

  lemma RestIsUnmarked(t: Terminal, target: Remote, delivered: Remote) returns (rest: seq<Instruction>)
    requires Difference(t, target, delivered).Ok?
    ensures Difference(t, target, delivered).value == EchoChange(target, delivered) + rest && NoMarker(rest)
  {
    var (a, b) := (Flatten(target.history.operations), Flatten(delivered.history.operations));
    rest := if b <= a then AsInstructions(Grouped(a[|b|..]))
            else ScreenDiffInstructions(t.screenDiff(target.screen, delivered.screen));
    hide Flatten, Grouped, EchoChange, ScreenDiffIsSafe;
  }

  /**
   Whatever a difference carries, it leaves the host with the target's echo acknowledgement, if the
   target has one.
   */
  lemma DifferenceTellsEcho(t: Terminal, target: Remote, delivered: Remote)
    requires Difference(t, target, delivered).Ok?
    ensures EchoTold(delivered.echoAck, Runtime.HostEffects(Difference(t, target, delivered).value))
            == if target.echoAck.Some? then target.echoAck else delivered.echoAck
  {
    var rest := RestIsUnmarked(t, target, delivered);
    ActionsConcat(EchoChange(target, delivered), rest);
    EchoConcat(delivered.echoAck, Runtime.HostEffects(EchoChange(target, delivered)), Runtime.HostEffects(rest));
    EchoChangeTells(target, delivered);
    UnmarkedTellsNothing(rest);
    NothingTold(if target.echoAck.Some? then target.echoAck else delivered.echoAck, Runtime.HostEffects(rest));
    hide Difference, EchoTold, Runtime.HostEffects, EchoChange;
  }

  // ---- One call -------------------------------------------------------------

  lemma HearingTellsNoEcho<S>(s: State<S>, now: nat, echoed: u16)
    ensures NoEcho(Hear(s, now, echoed).1) && Hear(s, now, echoed).0.remote == s.remote
  {
    hide Rto.Sampled, RoundTrip;
  }

  lemma UpdateTellsEcho(t: Terminal, s: State<Remote>, echoed: u16, u: StateUpdate, now: nat)
    requires s.lifecycle == Running
    ensures var (next, r) := Receive(HostEffects.TerminalRules(t), s, Full(echoed, u), now);
            EchoTold(s.remote.delivered.echoAck, if r.Ok? then r.value else [])
            == if next.remote.delivered.echoAck.Some? then next.remote.delivered.echoAck
               else s.remote.delivered.echoAck
  {
    var rules := HostEffects.TerminalRules(t);
    var before := s.remote.delivered.echoAck;
    R.AdvanceIsReached(rules, s.remote, u);
    hide R.Accept, R.Reaches, R.Target, Sender.Acknowledged, Hear, Difference, Runtime.HostEffects;
    var (remote, outcome) := R.Accept(rules, s.remote, u);
    if outcome.Ok? {
      var ingested := s.(local := Sender.Acknowledged(s.local, u.acknowledged), remote := remote);
      HearingTellsNoEcho(ingested, now, echoed);
      var quiet := Hear(ingested, now, echoed).1;
      NothingTold(before, quiet);
      if outcome.value.0 {
        var advanced: Effect, actions := RemoteStateAdvanced(outcome.value.1.target),
            Runtime.HostEffects(outcome.value.1.delta);
        DifferenceTellsEcho(t, remote.delivered, s.remote.delivered);
        NothingTold(before, [advanced]);
        EchoConcat(before, quiet, [advanced] + actions);
        EchoConcat(before, [advanced], actions);
      } else {
        assert quiet + [] == quiet;
      }
    }
    hide EchoTold;
  }

  /** The call delivers a state without an echo acknowledgement to a host that has been told of one, or replaces it. */
  predicate ForgetsEcho(t: Terminal, s: State<Remote>, event: Event<Remote>)
    requires Sender.Valid(s.local)
  {
    var next := Runtime.Step(HostEffects.TerminalRules(t), s, event).0;
    if event.ResizeInput? then next.remote.delivered.echoAck != s.remote.delivered.echoAck
    else s.remote.delivered.echoAck.Some? && next.remote.delivered.echoAck.None?
  }

  lemma ContinueTellsNoEcho<S>(s: State<S>, now: nat, encodes: bool)
    requires Sender.Valid(s.local)
    ensures Continue(s, now, encodes).1.Ok? ==> NoEcho(Continue(s, now, encodes).1.value)
  {
    hide Build, Sender.Valid;
  }

  lemma PollTellsNoEcho<S>(s: State<S>, now: nat, encoding: Encoding)
    requires Sender.Valid(s.local)
    ensures Poll(s, now, encoding).1.Ok? ==> NoEcho(Poll(s, now, encoding).1.value)
    ensures Poll(s, now, encoding).0.remote == s.remote
  {
    assert s.local.marks != [];
    Shutdown.PollAnswers(s, now, encoding);
    if Works(s, encoding) {
      var (associated, association) := Associated(s, now);
      var (noticed, silence) := NoticeSilence(associated, now);
      assert noticed.local == s.local && NoEcho(association + silence);
      hide Proceed, Continue, Sender.Valid, Ending;
      GoesOn(associated, association, now, encoding.main);
      ContinueTellsNoEcho(noticed, now, encoding.main);
    }
  }

  lemma OthersTellNoEcho(t: Terminal, s: State<Remote>, event: Event<Remote>)
    requires Sender.Valid(s.local) && !event.PollAt? && !event.Datagrams?
    ensures var (next, effects) := Runtime.Step(HostEffects.TerminalRules(t), s, event);
            NoEcho(effects) && (!event.ResizeInput? ==> next.remote == s.remote)
  {
    hide Sender.Valid, Coalesced, R.Rebaselined;
  }

  lemma ReceivingTellsEcho(t: Terminal, s: State<Remote>, datagram: Datagram, now: nat)
    ensures var (next, r) := Receive(HostEffects.TerminalRules(t), s, datagram, now);
            EchoTold(s.remote.delivered.echoAck, if r.Ok? then r.value else [])
            == if next.remote.delivered.echoAck.Some? then next.remote.delivered.echoAck
               else s.remote.delivered.echoAck
  {
    hide Hear;
    match datagram {
      case Noise =>
      case Bare(echoed) =>
        HearingTellsNoEcho(s, now, echoed);
        NothingTold(s.remote.delivered.echoAck, Hear(s, now, echoed).1);
      case Full(echoed, u) => if s.lifecycle == Running { UpdateTellsEcho(t, s, echoed, u, now); }
    }
  }

  /** After any call the host has been told the delivered state's echo acknowledgement, unless the call forgets one. */
  lemma StepTellsEchoIff(t: Terminal, s: State<Remote>, event: Event<Remote>)
    requires Inv(s)
    ensures Sender.Valid(s.local)
    ensures var (next, effects) := Runtime.Step(HostEffects.TerminalRules(t), s, event);
            (EchoTold(s.remote.delivered.echoAck, effects) == next.remote.delivered.echoAck)
            <==> !ForgetsEcho(t, s, event)
  {
    InvIsValid(s);
    var (next, effects) := Runtime.Step(HostEffects.TerminalRules(t), s, event);
    hide Poll, Receive, Inv, Sender.Valid, NoEcho, EchoTold, QueueResize;
    match event {
      case PollAt(now, encoding) =>
        PollTellsNoEcho(s, now, encoding);
        SilentStep(s.remote.delivered.echoAck, effects);
      case Datagrams(datagram, now) => ReceivingTellsEcho(t, s, datagram, now);
      case _ =>
        OthersTellNoEcho(t, s, event);
        SilentStep(s.remote.delivered.echoAck, effects);
    }
  }

  lemma SilentStep(before: Option<u64>, effects: seq<Effect>)
    requires effects == [] || NoEcho(effects)
    ensures EchoTold(before, effects) == before
  {
    if effects != [] { NothingTold(before, effects); }
  }

  // ---- Runs -----------------------------------------------------------------

  ghost predicate NeverForgets(t: Terminal, start: State<Remote>, events: seq<Event<Remote>>)
    requires Inv(start)
  {
    forall k :: 0 <= k < |events| ==>
      var s := RunAll(HostEffects.TerminalRules(t), start, events[..k]).0;
      Sender.Valid(s.local) && !ForgetsEcho(t, s, events[k])
  }

  /** Over such a run the host has last been told the echo acknowledgement of the state delivered last. */
  lemma {:induction false} HostKnowsEcho(t: Terminal, start: State<Remote>, events: seq<Event<Remote>>)
    requires Inv(start) && NeverForgets(t, start, events)
    ensures var (s, effects) := RunAll(HostEffects.TerminalRules(t), start, events);
            EchoTold(start.remote.delivered.echoAck, effects) == s.remote.delivered.echoAck
    decreases |events|
  {
    hide Runtime.Step, Inv, Sender.Valid, ForgetsEcho, HostEffects.TerminalRules;
    if events != [] {
      var n := |events| - 1;
      assert forall k :: 0 <= k < n ==> events[..n][k] == events[k] && events[..n][..k] == events[..k];
      HostKnowsEcho(t, start, events[..n]);
      var (s, effects) := RunAll(HostEffects.TerminalRules(t), start, events[..n]);
      StepTellsEchoIff(t, s, events[n]);
      EchoConcat(start.remote.delivered.echoAck, effects, Runtime.Step(HostEffects.TerminalRules(t), s, events[n]).1);
    }
  }
}
