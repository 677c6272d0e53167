/** What the host's terminal shows over whole sessions, from the datagrams that come in to the actions handed back. */
module ScreenRuns {
  import opened Prelude
  import opened Wire
  import opened Operations
  import opened RemoteState
  import opened Runtime
  import opened RuntimeRuns
  import opened HostRuns
  import opened ScreenDifferences
  import R = Receiver
  import Rto
  import Sender
  import Shutdown
  import HostEffects

  /** A resize that still replaces the empty terminal the session starts from. */
  predicate Restarts(s: State<Remote>, event: Event<Remote>) {
    event.ResizeInput? && s.lifecycle == Running && s.shutdown == Open
    && s.remote.latest == 0 && |s.remote.received| == 1
  }

  /** An update that advances does so soundly, and a resize brings an empty terminal. */
  predicate Fair(t: Terminal, s: State<Remote>, event: Event<Remote>) {
    && (Brings(s, event) ==> Sound(t, s.remote, event.datagram.update))
    && (event.ResizeInput? ==> event.blank == RemoteState.New(t, event.blank.initial))
  }

  /**
   What was heard makes an empty terminal of this size show the screen delivered last; before any
   state, nothing was.
   */
  ghost predicate ShowsSo(t: Terminal, s: State<Remote>, heard: seq<Symbol>, size: Size) {
    && Coherent(t, s.remote)
    && Shown(t, size, heard) == s.remote.delivered.screen
    && (s.remote.latest == 0 ==> heard == [])
  }

  lemma NothingDeliveredYet(t: Terminal, c: HostEffects.Client, u: StateUpdate)
    requires HostEffects.Step(t, c, u).0.latest == 0
    ensures c.latest == 0 && HostEffects.Delivered(t, c, u) == []
  {
    R.LatestNeverFalls(HostEffects.TerminalRules(t), c, u);
    R.AdvanceIsReached(HostEffects.TerminalRules(t), c, u);
    hide R.Accept, Effects;
  }

  lemma UpdateShows(t: Terminal, s: State<Remote>, echoed: u16, u: StateUpdate, now: nat, heard: seq<Symbol>,
                    size: Size)
    requires Bridges(t) && ShowsSo(t, s, heard, size) && s.lifecycle == Running && Sound(t, s.remote, u)
    ensures var (next, r) := Receive(HostEffects.TerminalRules(t), s, Full(echoed, u), now);
            ShowsSo(t, next, heard + Heard(if r.Ok? then r.value else []), size)
  {
    DeliveryIsHeard(t, s, echoed, u, now);
    StepKeepsCoherent(t, s.remote, u);
    ScreenDifferences.StepShows(t, s.remote, u);
    if HostEffects.Step(t, s.remote, u).0.latest == 0 { NothingDeliveredYet(t, s.remote, u); }
    hide Receive, HostEffects.Step, HostEffects.Delivered, Heard, Sound, Bridges, Coherent;
    ReplaySymbolsConcat(t, t.blank(size), heard, HostEffects.Delivered(t, s.remote, u));
    assert heard + [] == heard;
  }

  lemma ReceiveShows(t: Terminal, s: State<Remote>, datagram: Datagram, now: nat, heard: seq<Symbol>, size: Size)
    requires Bridges(t) && ShowsSo(t, s, heard, size) && Fair(t, s, Datagrams(datagram, now))
    ensures var (next, r) := Receive(HostEffects.TerminalRules(t), s, datagram, now);
            ShowsSo(t, next, heard + Heard(if r.Ok? then r.value else []), size)
  {
    NothingIsQuiet();
    QuietIsUnheard([]);
    assert heard + [] == heard;
    hide Bridges, Coherent, Sound, Heard, Shown;
    match datagram {
      case Noise =>
      case Bare(echoed) =>
        HearIsQuiet(s, now, echoed);
        QuietIsUnheard(Hear(s, now, echoed).1);
        hide Hear;
      case Full(echoed, u) =>
        if s.lifecycle == Running { UpdateShows(t, s, echoed, u, now, heard, size); }
    }
  }

  lemma ResizeShows(t: Terminal, s: State<Remote>, event: Event<Remote>, heard: seq<Symbol>, size: Size)
    requires event.ResizeInput? && ShowsSo(t, s, heard, size) && Fair(t, s, event)
    ensures ShowsSo(t, QueueResize(s, event.columns, event.rows, event.blank), heard,
                    if Restarts(s, event) then event.blank.initial else size)
  {
    hide Coalesced;
  }

  /** Whatever the host calls, what it is told keeps its terminal at the screen delivered last. */
  lemma StepShows(t: Terminal, s: State<Remote>, event: Event<Remote>, heard: seq<Symbol>, size: Size)
    requires Bridges(t) && Inv(s) && ShowsSo(t, s, heard, size) && Fair(t, s, event)
    ensures var (next, effects) := Runtime.Step(HostEffects.TerminalRules(t), s, event);
            ShowsSo(t, next, heard + Heard(effects), if Restarts(s, event) then event.blank.initial else size)
  {
    InvIsValid(s);
    NothingIsQuiet();
    QuietIsUnheard([]);
    assert heard + [] == heard;
    hide Poll, Receive, Inv, Sender.Valid, Heard, QueueResize, IsQuiet, Fair, Bridges, Coherent, Shown;
    match event {
      case PollAt(now, encoding) =>
        Shutdown.PollAnswers(s, now, encoding);
        PollIsQuiet(s, now, encoding);
        QuietIsUnheard(Runtime.Step(HostEffects.TerminalRules(t), s, event).1);
      case Datagrams(datagram, now) => ReceiveShows(t, s, datagram, now, heard, size);
      case ResizeInput(_, _, _) => ResizeShows(t, s, event, heard, size);
      case _ =>
        OtherIsQuiet(t, s, event);
        QuietIsUnheard(Runtime.Step(HostEffects.TerminalRules(t), s, event).1);
    }
  }

  // ---- Whole sessions -------------------------------------------------------

  predicate AlwaysFair(t: Terminal, start: State<Remote>, events: seq<Event<Remote>>)
    requires Inv(start)
    decreases |events|
  {
    events == []
    || (var n := |events| - 1;
        AlwaysFair(t, start, events[..n])
        && Fair(t, RunAll(HostEffects.TerminalRules(t), start, events[..n]).0, events[n]))
  }

  /** The size of the empty terminal the session counts from. */
  function StartSize(t: Terminal, start: State<Remote>, events: seq<Event<Remote>>, size: Size): Size
    requires Inv(start)
    decreases |events|
  {
    if events == [] then size
    else
      var n := |events| - 1;
      if Restarts(RunAll(HostEffects.TerminalRules(t), start, events[..n]).0, events[n]) then events[n].blank.initial
      else StartSize(t, start, events[..n], size)
  }

  lemma {:induction false} RunShows(t: Terminal, start: State<Remote>, events: seq<Event<Remote>>, size: Size)
    requires Bridges(t) && Inv(start) && AlwaysFair(t, start, events) && ShowsSo(t, start, [], size)
    ensures var (s, effects) := RunAll(HostEffects.TerminalRules(t), start, events);
            ShowsSo(t, s, Heard(effects), StartSize(t, start, events, size))
    decreases |events|
  {
    hide Runtime.Step, Inv, Fair, Bridges, Restarts, ShowsSo;
    if events == [] {
      NothingIsQuiet();
      QuietIsUnheard([]);
    } else {
      var n := |events| - 1;
      RunShows(t, start, events[..n], size);
      var (s, effects) := RunAll(HostEffects.TerminalRules(t), start, events[..n]);
      InvIsValid(s);
      StepShows(t, s, events[n], Heard(effects), StartSize(t, start, events[..n], size));
      HeardConcat(effects, Runtime.Step(HostEffects.TerminalRules(t), s, events[n]).1);
    }
  }

  /**
   Over any run of host calls, with screen differences among the updates, the bytes, sizes and controls in the
   returned actions make an empty terminal show the very screen of the remote state delivered last.
   */
  lemma SessionShowsScreen(t: Terminal, size: Size, now: nat, events: seq<Event<Remote>>)
    requires Bridges(t) && AlwaysFair(t, Begun(RemoteState.New(t, size), now), events)
    ensures var start := Begun(RemoteState.New(t, size), now);
            var (s, effects) := RunAll(HostEffects.TerminalRules(t), start, events);
            Shown(t, StartSize(t, start, events, size), Heard(effects)) == s.remote.delivered.screen
  {
    var start := Begun(RemoteState.New(t, size), now);
    assert ShowsSo(t, start, [], size);
    hide Inv, AlwaysFair, RunAll, Bridges, Begun, StartSize;
    RunShows(t, start, events, size);
  }
}
