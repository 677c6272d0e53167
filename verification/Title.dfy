/** The filter that rewrites terminal-title commands in remote output and passes everything else on. */
module Title {
  import opened Prelude

  const BEL := 0x07
  const CAN := 0x18
  const SUB := 0x1a
  const ESC := 0x1b
  const ST := 0x9c      // the one-byte string terminator
  const OSC := 0x9d     // the one-byte operating-system-command opener
  const BRACKET := 0x5d
  const BACKSLASH := 0x5c
  const SEMICOLON := 0x3b
  const MAX_OSC_COMMAND_BYTES := 16
  const MAX_REMOTE_TITLE_BYTES := 1024
  const MOSH_TITLE_PREFIX: seq<byte> := [0x5b, 0x6d, 0x6f, 0x73, 0x68, 0x5d, 0x20]   // "[mosh] "

  type Bytes = seq<byte>

  datatype Policy = PreserveRemote | MoshPrefix

  datatype Command = IconAndWindow | Icon | Window

  datatype State =
    | Ground
    | Escape
    | OscHeader(header: Bytes, headerPending: bool)
    | TitleText(command: Command, text: Bytes, textPending: bool)
    | PassthroughOsc(passPending: bool)
    | DiscardTitle(discardPending: bool)

  datatype Filter = Filter(
    state: State, initialized: bool, icon: Bytes, window: Bytes, prefixActive: bool, displayed: Option<(Bytes, Bytes)>)

  function New(policy: Policy): Filter {
    Filter(Ground, false, [], [], policy == MoshPrefix, None)
  }

  predicate Ends(b: byte) {
    b in {BEL, ST, CAN, SUB}
  }

  // ---- Commands -------------------------------------------------------------

  /** How many bytes of an OSC header are its opener. */
  function OpenerLength(header: Bytes): nat {
    if [ESC, BRACKET] <= header then 2 else 1
  }

  function CommandLength(header: Bytes): nat {
    SaturatingSub(|header|, OpenerLength(header))
  }

  /** The title command a header spells, if it spells one. */
  function TitleCommand(header: Bytes): Option<Command> {
    if |header| < OpenerLength(header) then None
    else
      var name := header[OpenerLength(header)..];
      if name == [] || name == [0x30] then Some(IconAndWindow)
      else if name == [0x31] then Some(Icon)
      else if name == [0x32] then Some(Window)
      else None
  }

  function EncodeTitles(icon: Bytes, window: Bytes): Bytes {
    if icon == window then [ESC, BRACKET, 0x30, SEMICOLON] + window + [BEL]
    else [ESC, BRACKET, 0x31, SEMICOLON] + icon + [BEL] + ([ESC, BRACKET, 0x32, SEMICOLON] + window + [BEL])
  }

  // ---- Titles ---------------------------------------------------------------

  function WithTitle(f: Filter, command: Command, title: Bytes): Filter {
    match command
    case IconAndWindow => f.(initialized := true, icon := title, window := title)
    case Icon => f.(initialized := true, icon := title)
    case Window => f.(initialized := true, window := title)
  }

  /** What the host is shown for the stored pair: the window title prefixed, and an equal icon title with it. */
  function ShownTitles(f: Filter): (Bytes, Bytes) {
    var window := if f.prefixActive then MOSH_TITLE_PREFIX + f.window else f.window;
    (if f.prefixActive && f.icon == f.window then window else f.icon, window)
  }

  /** `emit_titles`: nothing if the host already shows it. */
  function Emitted(f: Filter): (Filter, Bytes) {
    if !f.initialized || f.displayed == Some(ShownTitles(f)) then (f, [])
    else (f.(displayed := Some(ShownTitles(f))), EncodeTitles(ShownTitles(f).0, ShownTitles(f).1))
  }

  function RestoreRemoteTitle(policy: Policy, f: Filter): (Filter, Bytes) {
    if policy != MoshPrefix || !f.prefixActive then (f, []) else Emitted(f.(prefixActive := false))
  }

  function ReapplyPolicy(policy: Policy, f: Filter): (Filter, Bytes) {
    if policy != MoshPrefix || f.prefixActive then (f, []) else Emitted(f.(prefixActive := true))
  }

  // ---- One byte -------------------------------------------------------------

  function HeaderStep(header: Bytes, pending: bool, b: byte): (State, Bytes) {
    if pending && b == BACKSLASH then (Ground, header + [ESC, BACKSLASH])
    else
      var so := if pending then header + [ESC] else header;
      if Ends(b) then (Ground, so + [b])
      else if b == ESC then (OscHeader(so, true), [])
      else if b == SEMICOLON then
        (match TitleCommand(so)
         case Some(command) => (TitleText(command, [], false), [])
         case None => (PassthroughOsc(false), so + [b]))
      else if CommandLength(so + [b]) > MAX_OSC_COMMAND_BYTES then (PassthroughOsc(false), so + [b])
      else (OscHeader(so + [b], false), [])
  }

  /** The state after one byte of a title, and the title if that completed it. */
  function TitleStep(command: Command, text: Bytes, pending: bool, b: byte): (State, Option<Bytes>) {
    if pending && b == BACKSLASH then (Ground, Some(text))
    else
      var full := pending && |text| >= MAX_REMOTE_TITLE_BYTES;
      var so := if pending && !full then text + [ESC] else text;
      if b == BEL || b == ST then (Ground, Some(so))
      else if b == CAN || b == SUB then (Ground, None)
      else if b == ESC then (TitleText(command, so, true), None)
      else if full || |so| == MAX_REMOTE_TITLE_BYTES then (DiscardTitle(false), None)
      else (TitleText(command, so + [b], false), None)
  }

  /** What follows inside an OSC that is only waited out: its end, or more of it. */
  function WaitStep(pending: bool, b: byte): Option<bool> {
    if (pending && b == BACKSLASH) || Ends(b) then None else Some(b == ESC)
  }

  /** `process_byte`. */
  function Step(f: Filter, b: byte): (Filter, Bytes) {
    match f.state
    case Ground =>
      if b == ESC then (f.(state := Escape), [])
      else if b == OSC then (f.(state := OscHeader([b], false)), [])
      else (f, [b])
    case Escape =>
      if b == BRACKET then (f.(state := OscHeader([ESC, BRACKET], false)), []) else (f.(state := Ground), [ESC, b])
    case OscHeader(header, pending) =>
      var (state, output) := HeaderStep(header, pending, b); (f.(state := state), output)
    case TitleText(command, text, pending) =>
      var (state, title) := TitleStep(command, text, pending, b);
      if title.Some? then Emitted(WithTitle(f.(state := state), command, title.value)) else (f.(state := state), [])
    case PassthroughOsc(pending) =>
      var more := WaitStep(pending, b);
      (f.(state := if more.None? then Ground else PassthroughOsc(more.value)), [b])
    case DiscardTitle(pending) =>
      var more := WaitStep(pending, b);
      (f.(state := if more.None? then Ground else DiscardTitle(more.value)), [])
  }

  function Run(f: Filter, input: Bytes): (Filter, Bytes) {
    if input == [] then (f, [])
    else
      var (before, output) := Run(f, input[..|input| - 1]);
      var (after, more) := Step(before, input[|input| - 1]);
      (after, output + more)
  }

  lemma RunSnoc(f: Filter, input: Bytes, b: byte)
    ensures var (before, output) := Run(f, input);
            Run(f, input + [b]) == (Step(before, b).0, output + Step(before, b).1)
  {
    DropPrefix(input, [b]);
  }

  lemma {:induction false} RunConcat(f: Filter, a: Bytes, b: Bytes)
    ensures Run(f, a + b) == (Run(Run(f, a).0, b).0, Run(f, a).1 + Run(Run(f, a).0, b).1)
    decreases |b|
  {
    hide Step;
    if b == [] {
      assert a + b == a;
      assert Run(f, a).1 + [] == Run(f, a).1;
    } else {
      var n := |b| - 1;
      RunConcat(f, a, b[..n]);
      assert a + b == a + b[..n] + [b[n]];
      RunSnoc(f, a + b[..n], b[n]);
      Associate(Run(f, a).1, Run(Run(f, a).0, b[..n]).1, Step(Run(Run(f, a).0, b[..n]).0, b[n]).1);
    }
  }

  // ---- What every reachable filter satisfies --------------------------------

  /** A byte string that can be sent as a title and come back: bounded, unterminated throughout. */
  predicate Storable(title: Bytes) {
    && |title| <= MAX_REMOTE_TITLE_BYTES
    && (forall i :: 0 <= i < |title| ==> !Ends(title[i]))
    && (forall i :: 0 < i < |title| ==> title[i - 1] == ESC ==> title[i] != BACKSLASH)
  }

  predicate EndsInEscape(text: Bytes) {
    text != [] && text[|text| - 1] == ESC
  }

  predicate Inv(f: Filter) {
    && Storable(f.icon) && Storable(f.window)
    && (f.state.TitleText? ==> Storable(f.state.text) && (EndsInEscape(f.state.text) ==> f.state.textPending))
    && f.displayed == (if f.initialized then Some(ShownTitles(f)) else None)
  }

  lemma StorableSnoc(text: Bytes, b: byte)
    requires Storable(text) && |text| < MAX_REMOTE_TITLE_BYTES && !Ends(b) && (EndsInEscape(text) ==> b != BACKSLASH)
    ensures Storable(text + [b])
  {
  }

  lemma TitleStepKeepsStorable(command: Command, text: Bytes, pending: bool, b: byte)
    requires Storable(text) && (EndsInEscape(text) ==> pending)
    ensures var (state, title) := TitleStep(command, text, pending, b);
            && (state.TitleText? ==> Storable(state.text) && (EndsInEscape(state.text) ==> state.textPending))
            && (title.Some? ==> Storable(title.value))
  {
    if pending && |text| < MAX_REMOTE_TITLE_BYTES { StorableSnoc(text, ESC); }
    var so := if pending && |text| < MAX_REMOTE_TITLE_BYTES then text + [ESC] else text;
    if |so| < MAX_REMOTE_TITLE_BYTES && !Ends(b) && (EndsInEscape(so) ==> b != BACKSLASH) { StorableSnoc(so, b); }
    hide Storable;
  }

  /** Outside a title command only the automaton moves. */
  lemma OnlyStateMoves(f: Filter, b: byte)
    requires !f.state.TitleText?
    ensures var next := Step(f, b).0;
            && next == f.(state := next.state)
            && (next.state.TitleText? ==> next.state.text == [] && !next.state.textPending && f.state.OscHeader?)
  {
  }

  lemma MovedKeepsInv(f: Filter, state: State)
    requires Inv(f) && (state.TitleText? ==> Storable(state.text) && (EndsInEscape(state.text) ==> state.textPending))
    ensures Inv(f.(state := state))
  {
    hide Storable, EndsInEscape;
  }

  lemma TitledKeepsInv(f: Filter, command: Command, title: Bytes)
    requires Inv(f) && Storable(title)
    ensures Inv(Emitted(WithTitle(f.(state := Ground), command, title)).0)
  {
    hide Storable, EndsInEscape;
  }

  lemma TitleByteKeepsInv(f: Filter, b: byte)
    requires Inv(f) && f.state.TitleText?
    ensures Inv(Step(f, b).0)
  {
    var command, text, pending := f.state.command, f.state.text, f.state.textPending;
    TitleStepKeepsStorable(command, text, pending, b);
    hide Storable, EndsInEscape, Emitted, WithTitle, Inv, TitleStep;
    var (state, title) := TitleStep(command, text, pending, b);
    if title.Some? {
      TitleEndsInGround(command, text, pending, b);
      TitledKeepsInv(f, command, title.value);
    } else {
      MovedKeepsInv(f, state);
    }
  }

  lemma TitleEndsInGround(command: Command, text: Bytes, pending: bool, b: byte)
    ensures TitleStep(command, text, pending, b).1.Some? ==> TitleStep(command, text, pending, b).0 == Ground
  {
  }

  lemma NothingIsStorable()
    ensures Storable([]) && !EndsInEscape([])
  {
  }

  /** Every byte keeps the buffered and the stored titles sound, and the host showing what is stored. */
  lemma StepKeepsInv(f: Filter, b: byte)
    requires Inv(f)
    ensures Inv(Step(f, b).0)
  {
    hide Step, Inv, Storable, EndsInEscape;
    if f.state.TitleText? {
      TitleByteKeepsInv(f, b);
    } else {
      NothingIsStorable();
      OnlyStateMoves(f, b);
      MovedKeepsInv(f, Step(f, b).0.state);
    }
  }

  lemma SwitchKeepsInv(policy: Policy, f: Filter)
    requires Inv(f)
    ensures Inv(RestoreRemoteTitle(policy, f).0) && Inv(ReapplyPolicy(policy, f).0)
  {
    hide Storable, EndsInEscape;
  }

  // ---- Calls ----------------------------------------------------------------

  /** What a client does with a prefixing filter: remote output, and putting the remote title back for a while. */
  datatype Call = Output(b: byte) | Restore | Reapply

  function Performed(f: Filter, call: Call): (Filter, Bytes) {
    match call
    case Output(b) => Step(f, b)
    case Restore => RestoreRemoteTitle(MoshPrefix, f)
    case Reapply => ReapplyPolicy(MoshPrefix, f)
  }

  /** The filter and everything it returned after some calls on a new one. */
  function After(calls: seq<Call>): (Filter, Bytes) {
    if calls == [] then (New(MoshPrefix), [])
    else
      var (before, output) := After(calls[..|calls| - 1]);
      var (next, more) := Performed(before, calls[|calls| - 1]);
      (next, output + more)
  }

  /** The remote output among the calls. */
  function Input(calls: seq<Call>): Bytes {
    if calls == [] then []
    else
      var last := calls[|calls| - 1];
      Input(calls[..|calls| - 1]) + if last.Output? then [last.b] else []
  }

  /** A stored title is bounded and free of anything that could end it early, and the host shows what is stored. */
  lemma {:induction false} CallsKeepInv(calls: seq<Call>)
    ensures Inv(After(calls).0)
    ensures var f := After(calls).0;
            && |f.icon| <= MAX_REMOTE_TITLE_BYTES && |f.window| <= MAX_REMOTE_TITLE_BYTES
            && (f.state.TitleText? ==> |f.state.text| <= MAX_REMOTE_TITLE_BYTES)
            && f.displayed == (if f.initialized then Some(ShownTitles(f)) else None)
    decreases |calls|
  {
    if calls != [] {
      var n := |calls| - 1;
      CallsKeepInv(calls[..n]);
      var f := After(calls[..n]).0;
      if calls[n].Output? { StepKeepsInv(f, calls[n].b); } else { SwitchKeepsInv(MoshPrefix, f); }
    }
    hide Step, RestoreRemoteTitle, ReapplyPolicy;
  }

  lemma SwitchKeepsState(f: Filter)
    ensures RestoreRemoteTitle(MoshPrefix, f).0.state == f.state == ReapplyPolicy(MoshPrefix, f).0.state
  {
  }

  lemma NextStateIsStates(f: Filter, g: Filter, b: byte)
    requires f.state == g.state
    ensures Step(f, b).0.state == Step(g, b).0.state
  {
    hide HeaderStep, TitleStep, Emitted, WithTitle;
    if f.state.TitleText? {
      TitledState(f, b);
      TitledState(g, b);
    }
  }

  lemma TitledState(f: Filter, b: byte)
    requires f.state.TitleText?
    ensures Step(f, b).0.state == TitleStep(f.state.command, f.state.text, f.state.textPending, b).0
  {
    hide TitleStep, ShownTitles;
  }

  /** Switching the prefix never moves the automaton: its state is that of the remote output alone. */
  lemma {:induction false} StateFollowsInput(calls: seq<Call>)
    ensures After(calls).0.state == Run(New(MoshPrefix), Input(calls)).0.state
    decreases |calls|
  {
    hide Step, RestoreRemoteTitle, ReapplyPolicy;
    if calls != [] {
      var n := |calls| - 1;
      StateFollowsInput(calls[..n]);
      var f := After(calls[..n]).0;
      var input := Input(calls[..n]);
      if calls[n].Output? {
        RunSnoc(New(MoshPrefix), input, calls[n].b);
        NextStateIsStates(f, Run(New(MoshPrefix), input).0, calls[n].b);
      } else {
        SwitchKeepsState(f);
        assert Input(calls) == input;
      }
    }
  }

  // ---- Nothing but title commands is touched --------------------------------

  /**
   What some remote output turned into: itself, or the pair of titles shown in place of a title
   command, if any. Switching the prefix shows titles without taking any output.
   */
  datatype Chunk =
    | Passed(bytes: Bytes)
    | Replaced(taken: Bytes, shown: Option<(Bytes, Bytes)>)
    | Switched(shown: Option<(Bytes, Bytes)>)
  {
    function Took(): Bytes {
      match this case Passed(bytes) => bytes case Replaced(taken, _) => taken case Switched(_) => []
    }

    function Shows(): Option<(Bytes, Bytes)> {
      match this case Passed(_) => None case Replaced(_, shown) => shown case Switched(shown) => shown
    }

    function Gave(): Bytes {
      if Passed? then bytes else Emission(Shows())
    }
  }

  function Emission(shown: Option<(Bytes, Bytes)>): Bytes {
    match shown case None => [] case Some((icon, window)) => EncodeTitles(icon, window)
  }

  function Taken(chunks: seq<Chunk>): Bytes {
    if chunks == [] then [] else Taken(chunks[..|chunks| - 1]) + chunks[|chunks| - 1].Took()
  }

  function Given(chunks: seq<Chunk>): Bytes {
    if chunks == [] then [] else Given(chunks[..|chunks| - 1]) + chunks[|chunks| - 1].Gave()
  }

  /** The last titles shown to the host. */
  function LastShown(chunks: seq<Chunk>): Option<(Bytes, Bytes)> {
    if chunks == [] then None
    else
      var last := chunks[|chunks| - 1].Shows();
      if last.Some? then last else LastShown(chunks[..|chunks| - 1])
  }

  /** Some title command was recognised. */
  ghost predicate Recognised(chunks: seq<Chunk>) {
    exists k :: 0 <= k < |chunks| && chunks[k].Replaced?
  }

  /** The input bytes the automaton has taken in and not yet passed on. */
  function Held(state: State): Bytes {
    match state
    case Escape => [ESC]
    case OscHeader(header, pending) => if pending then header + [ESC] else header
    case _ => []
  }

  predicate InTitle(state: State) {
    state.TitleText? || state.DiscardTitle?
  }

  predicate IsHeader(header: Bytes) {
    [ESC, BRACKET] <= header || (header != [] && header[0] == OSC)
  }

  /** The bytes open a title command: an opener, a name that is empty or a single 0, 1 or 2, and a semicolon. */
  ghost predicate OpensTitle(bytes: Bytes) {
    exists k :: 0 < k < |bytes| && IsHeader(bytes[..k]) && TitleCommand(bytes[..k]).Some? && bytes[k] == SEMICOLON
  }

  lemma OpensTitleStays(bytes: Bytes, b: byte)
    requires OpensTitle(bytes)
    ensures OpensTitle(bytes + [b])
  {
    var k :| 0 < k < |bytes| && IsHeader(bytes[..k]) && TitleCommand(bytes[..k]).Some? && bytes[k] == SEMICOLON;
    assert (bytes + [b])[..k] == bytes[..k] && (bytes + [b])[k] == bytes[k];
  }

  /** A run cut into chunks, and the bytes since the last of them. */
  datatype Trace = Trace(filter: Filter, chunks: seq<Chunk>, rest: Bytes)

  /** The titles newly shown between two moments. */
  function Change(f: Filter, next: Filter): Option<(Bytes, Bytes)> {
    if next.displayed == f.displayed then None else next.displayed
  }

  /** A byte completes a chunk when it is passed on, or ends a title command; else it is kept for later. */
  function TracedByte(t: Trace, b: byte): Trace {
    var (next, output) := Step(t.filter, b);
    if InTitle(t.filter.state) then
      if next.state.Ground? then Trace(next, t.chunks + [Replaced(t.rest + [b], Change(t.filter, next))], [])
      else Trace(next, t.chunks, t.rest + [b])
    else if output == [] then Trace(next, t.chunks, t.rest + [b])
    else Trace(next, t.chunks + [Passed(t.rest + [b])], [])
  }

  function Traced(t: Trace, call: Call): Trace {
    if call.Output? then TracedByte(t, call.b)
    else
      var next := Performed(t.filter, call).0;
      Trace(next, t.chunks + [Switched(Change(t.filter, next))], t.rest)
  }

  function TracedCalls(calls: seq<Call>): Trace {
    if calls == [] then Trace(New(MoshPrefix), [], [])
      else Traced(TracedCalls(calls[..|calls| - 1]), calls[|calls| - 1])
  }

  ghost predicate Accounts(t: Trace) {
    && (if InTitle(t.filter.state) then OpensTitle(t.rest) else t.rest == Held(t.filter.state))
    && (t.filter.state.OscHeader? ==> IsHeader(t.filter.state.header))
    && (forall c :: c in t.chunks && c.Replaced? ==> OpensTitle(c.taken))
    && LastShown(t.chunks) == t.filter.displayed
    && (t.filter.initialized ==> Recognised(t.chunks))
  }

  lemma HeaderAccounts(header: Bytes, pending: bool, b: byte)
    requires IsHeader(header)
    ensures var (state, output) := HeaderStep(header, pending, b);
            var taken := Held(OscHeader(header, pending)) + [b];
            && (state.OscHeader? ==> IsHeader(state.header) && output == [] && Held(state) == taken)
            && (state.TitleText? ==> output == [] && OpensTitle(taken))
            && (!state.OscHeader? && !state.TitleText? ==> output == taken && Held(state) == [])
            && !state.DiscardTitle?
  {
    var so := if pending then header + [ESC] else header;
    assert IsHeader(so) && (b != ESC ==> IsHeader(so + [b]));
    assert header + [ESC, BACKSLASH] == header + [ESC] + [BACKSLASH];
    assert (so + [b])[..|so|] == so && (so + [b])[|so|] == b;
    hide TitleCommand, IsHeader, CommandLength;
  }

  lemma PlainStepAccounts(f: Filter, b: byte)
    requires !InTitle(f.state) && (f.state.OscHeader? ==> IsHeader(f.state.header))
    ensures var (next, output) := Step(f, b);
            && (next.state.OscHeader? ==> IsHeader(next.state.header))
            && (if output == [] then
                  if InTitle(next.state) then OpensTitle(Held(f.state) + [b])
                    else Held(next.state) == Held(f.state) + [b]
                else output == Held(f.state) + [b] && Held(next.state) == [] && !InTitle(next.state))
  {
    match f.state {
      case OscHeader(header, pending) => HeaderAccounts(header, pending, b);
      case _ =>
    }
    hide HeaderStep, TitleStep, OpensTitle;
  }

  lemma EmittedIsChange(f: Filter)
    ensures var (next, output) := Emitted(f);
            && output == Emission(Change(f, next)) && next == f.(displayed := next.displayed)
            && (next.displayed == f.displayed || (f.initialized && next.displayed.Some?))
  {
    hide EncodeTitles;
  }

  lemma WithTitleShowsNothing(f: Filter, command: Command, title: Bytes)
    ensures var next := WithTitle(f, command, title); next.displayed == f.displayed && next.state == f.state
  {
  }

  lemma TitleStepAccounts(f: Filter, b: byte)
    requires InTitle(f.state)
    ensures var (next, output) := Step(f, b);
            && (next.state == Ground || (InTitle(next.state) && output == [] && next == f.(state := next.state)))
            && output == Emission(Change(f, next))
            && (next.displayed == f.displayed || next.displayed.Some?)
  {
    hide Emitted, WithTitle, Emission, TitleStep;
    match f.state {
      case DiscardTitle(_) => NothingEmitted();
      case TitleText(command, text, pending) =>
        var (state, title) := TitleStep(command, text, pending, b);
        TitleStepStays(command, text, pending, b);
        if title.Some? {
          var moved := f.(state := state);
          WithTitleShowsNothing(moved, command, title.value);
          EmittedIsChange(WithTitle(moved, command, title.value));
        } else {
          NothingEmitted();
        }
    }
  }

  lemma NothingEmitted()
    ensures Emission(None) == []
  {
  }

  lemma TitleStepStays(command: Command, text: Bytes, pending: bool, b: byte)
    ensures var (state, title) := TitleStep(command, text, pending, b);
            if title.Some? then state == Ground else InTitle(state) || state == Ground
  {
  }

  lemma SwitchAccounts(f: Filter, call: Call)
    requires !call.Output?
    ensures var (next, output) := Performed(f, call);
            && output == Emission(Change(f, next)) && next.state == f.state && next.initialized == f.initialized
            && (next.displayed == f.displayed || next.displayed.Some?)
  {
    hide Emitted, Emission;
    NothingEmitted();
    EmittedIsChange(f.(prefixActive := call.Reapply?));
  }

  lemma ByteAccounts(t: Trace, b: byte)
    requires Accounts(t)
    ensures var next := TracedByte(t, b);
            && Accounts(next)
            && Taken(next.chunks) + next.rest == Taken(t.chunks) + t.rest + [b]
            && Given(next.chunks) == Given(t.chunks) + Step(t.filter, b).1
  {
    hide Step, OpensTitle, Recognised, Emission;
    if InTitle(t.filter.state) {
      TitleStepAccounts(t.filter, b);
      OpensTitleStays(t.rest, b);
    } else {
      PlainStepAccounts(t.filter, b);
      OnlyStateMoves(t.filter, b);
    }
    var next := Step(t.filter, b).0;
    var chunk := if InTitle(t.filter.state) then Replaced(t.rest + [b], Change(t.filter, next))
        else Passed(t.rest + [b]);
    ChunkAppended(t.chunks, chunk);
    Associate(Taken(t.chunks), t.rest, [b]);
  }

  lemma SwitchedAccounts(t: Trace, call: Call)
    requires Accounts(t) && !call.Output?
    ensures var next := Traced(t, call);
            && Accounts(next)
            && Taken(next.chunks) + next.rest == Taken(t.chunks) + t.rest
            && Given(next.chunks) == Given(t.chunks) + Performed(t.filter, call).1
  {
    hide Performed, OpensTitle, Recognised, Emission, TracedByte, Taken, Given, LastShown, InTitle, Held, IsHeader;
    SwitchAccounts(t.filter, call);
    ChunkAppended(t.chunks, Switched(Change(t.filter, Performed(t.filter, call).0)));
  }

  lemma ChunkAppended(chunks: seq<Chunk>, chunk: Chunk)
    ensures Taken(chunks + [chunk]) == Taken(chunks) + chunk.Took()
    ensures Given(chunks + [chunk]) == Given(chunks) + chunk.Gave()
    ensures LastShown(chunks + [chunk]) == if chunk.Shows().Some? then chunk.Shows() else LastShown(chunks)
    ensures Recognised(chunks + [chunk]) <==> Recognised(chunks) || chunk.Replaced?
  {
    DropPrefix(chunks, [chunk]);
    if Recognised(chunks) {
      var k :| 0 <= k < |chunks| && chunks[k].Replaced?;
      assert (chunks + [chunk])[k].Replaced?;
    }
    if chunk.Replaced? { assert (chunks + [chunk])[|chunks|].Replaced?; }
  }

  /**
   Any remote output cuts into stretches the filter passes on as they are and title commands
   it answers with nothing or one pair of titles, in order; besides them it only holds back
   an unfinished opener or title command. Every pair shown for a command or a switch of the
   prefix is accounted for, and the last one is what the filter takes the host to show.
   */
  lemma {:induction false} OnlyTitlesAreRewritten(calls: seq<Call>)
    ensures var t := TracedCalls(calls);
            && Accounts(t)
            && t.filter == After(calls).0
            && Taken(t.chunks) + t.rest == Input(calls)
            && Given(t.chunks) == After(calls).1
    decreases |calls|
  {
    hide Step, Accounts, TracedByte, Taken, Given, RestoreRemoteTitle, ReapplyPolicy;
    if calls == [] {
      NothingAccounts();
    } else {
      var n := |calls| - 1;
      OnlyTitlesAreRewritten(calls[..n]);
      var t := TracedCalls(calls[..n]);
      if calls[n].Output? {
        ByteAccounts(t, calls[n].b);
        TracedMoves(t, calls[n].b);
      } else {
        SwitchedAccounts(t, calls[n]);
        assert Input(calls) == Input(calls[..n]);
      }
    }
  }

  lemma NothingAccounts()
    ensures Accounts(Trace(New(MoshPrefix), [], []))
    ensures Taken([]) + [] == [] == Given([])
  {
  }

  lemma TracedMoves(t: Trace, b: byte)
    ensures TracedByte(t, b).filter == Step(t.filter, b).0
  {
    hide Step;
  }

  /** No contiguous part of the output opens a title command. */
  ghost predicate NoTitle(input: Bytes) {
    forall i, j :: 0 <= i <= j <= |input| ==> !OpensTitle(input[i..j])
  }

  lemma {:induction false} ChunkIsPart(chunks: seq<Chunk>, k: nat) returns (at: nat)
    requires k < |chunks|
    ensures at + |chunks[k].Took()| <= |Taken(chunks)|
    ensures Taken(chunks)[at..at + |chunks[k].Took()|] == chunks[k].Took()
  {
    var n := |chunks| - 1;
    if k == n { at := |Taken(chunks[..n])|; } else { at := ChunkIsPart(chunks[..n], k); }
  }

  lemma {:induction false} UnrecognisedIsGiven(chunks: seq<Chunk>)
    requires !Recognised(chunks) && LastShown(chunks) == None
    ensures Taken(chunks) == Given(chunks)
  {
    if chunks != [] {
      var n := |chunks| - 1;
      assert !chunks[n].Replaced?;
      assert forall k :: 0 <= k < n ==> chunks[..n][k] == chunks[k];
      UnrecognisedIsGiven(chunks[..n]);
    }
  }

  lemma PartOpensTitle(input: Bytes, i: nat, j: nat)
    requires i <= j <= |input| && OpensTitle(input[i..j])
    ensures !NoTitle(input)
  {
    hide OpensTitle;
  }

  /** What was recognised as a title command, or still is being read as one, is part of the output. */
  lemma TitlesAreParts(calls: seq<Call>)
    requires Recognised(TracedCalls(calls).chunks) || InTitle(After(calls).0.state)
    ensures !NoTitle(Input(calls))
  {
    var t := TracedCalls(calls);
    OnlyTitlesAreRewritten(calls);
    hide TracedCalls, After, Input, OpensTitle, NoTitle, Taken, Held;
    var input, taken := Input(calls), Taken(t.chunks);
    if k :| 0 <= k < |t.chunks| && t.chunks[k].Replaced? {
      var at := ChunkIsPart(t.chunks, k);
      var end := at + |t.chunks[k].Took()|;
      assert input[at..end] == taken[at..end];
      PartOpensTitle(input, at, end);
    } else {
      assert input[|taken|..|input|] == t.rest;
      PartOpensTitle(input, |taken|, |input|);
    }
  }

  /** Remote output no part of which opens a title command comes out unchanged, up to the bytes still held. */
  lemma PassesThrough(calls: seq<Call>)
    requires NoTitle(Input(calls))
    ensures After(calls).1 + Held(After(calls).0.state) == Input(calls)
  {
    var t := TracedCalls(calls);
    OnlyTitlesAreRewritten(calls);
    CallsKeepInv(calls);
    hide TracedCalls, After, Input, OpensTitle, Storable, EndsInEscape, Held, NoTitle;
    if Recognised(t.chunks) || InTitle(t.filter.state) { TitlesAreParts(calls); }
    UnrecognisedIsGiven(t.chunks);
  }

  // ---- Stored titles survive being sent -------------------------------------

  /** The automaton after the title `text`, whose last byte waits if it is an escape. */
  function Reading(command: Command, text: Bytes): State {
    if EndsInEscape(text) then TitleText(command, text[..|text| - 1], true) else TitleText(command, text, false)
  }

  lemma ReadingOne(f: Filter, command: Command, text: Bytes, b: byte)
    requires f.state == Reading(command, text) && Storable(text + [b])
    ensures Step(f, b) == (f.(state := Reading(command, text + [b])), [])
  {
    assert (text + [b])[..|text|] == text;
    assert (text + [b])[|text|] == b && !Ends(b);
    if EndsInEscape(text) {
      assert text == text[..|text| - 1] + [ESC];
      assert (text + [b])[|text| - 1] == ESC;
    }
  }

  lemma {:induction false} ReadingAll(f: Filter, command: Command, title: Bytes, k: nat)
    requires f.state == TitleText(command, [], false) && Storable(title) && k <= |title|
    ensures Run(f, title[..k]) == (f.(state := Reading(command, title[..k])), [])
    decreases k
  {
    var none: Bytes := [];
    assert none + none == none && Reading(command, none) == TitleText(command, none, false);
    hide Step, Reading;
    if k == 0 {
    } else {
      ReadingAll(f, command, title, k - 1);
      assert title[..k] == title[..k - 1] + [title[k - 1]];
      assert Storable(title[..k]);
      ReadingOne(f.(state := Reading(command, title[..k - 1])), command, title[..k - 1], title[k - 1]);
      RunSnoc(f, title[..k - 1], title[k - 1]);
    }
  }

  lemma ReadingEnds(f: Filter, command: Command, title: Bytes)
    requires f.state == Reading(command, title) && Storable(title)
    ensures Step(f, BEL).0 == Emitted(WithTitle(f.(state := Ground), command, title)).0
  {
    if EndsInEscape(title) { assert title == title[..|title| - 1] + [ESC]; }
  }

  /** Byte 0x30, 0x31 or 0x32 for the three commands. */
  function Digit(command: Command): byte {
    match command case IconAndWindow => 0x30 case Icon => 0x31 case Window => 0x32
  }

  lemma OpeningRead(f: Filter, command: Command)
    requires f.state == Ground
    ensures Run(f, [ESC, BRACKET, Digit(command), SEMICOLON]) == (f.(state := TitleText(command, [], false)), [])
  {
    var d := Digit(command);
    assert [ESC, BRACKET] + [d] == [ESC, BRACKET, d] && [ESC, BRACKET, d][2..] == [d];
    var f1, f2, f3 := f.(state := Escape), f.(state := OscHeader([ESC, BRACKET], false)),
        f.(state := OscHeader([ESC, BRACKET, d], false));
    var none: Bytes := [];
    assert none + none + none + none == none;
    assert Step(f, ESC) == (f1, none) && Step(f1, BRACKET) == (f2, none);
    assert Step(f2, d) == (f3, none) && Step(f3, SEMICOLON) == (f.(state := TitleText(command, none, false)), none);
    hide Step;
    RunFour(f, ESC, BRACKET, d, SEMICOLON);
  }

  lemma RunFour(f: Filter, a: byte, b: byte, c: byte, d: byte)
    ensures var (s1, o1) := Step(f, a);
            var (s2, o2) := Step(s1, b);
            var (s3, o3) := Step(s2, c);
            var (s4, o4) := Step(s3, d);
            Run(f, [a, b, c, d]) == (s4, o1 + o2 + o3 + o4)
  {
    hide Step;
    var (s1, o1) := Step(f, a);
    RunSnoc(f, [], a);
    RunSnoc(f, [a], b);
    RunSnoc(f, [a, b], c);
    RunSnoc(f, [a, b, c], d);
    assert [] + [a] == [a] && [a] + [b] == [a, b] && [a, b] + [c] == [a, b, c] && [a, b, c] + [d] == [a, b, c, d];
    assert [] + o1 == o1;
  }

  function OneTitle(command: Command, title: Bytes): Bytes {
    [ESC, BRACKET, Digit(command), SEMICOLON] + title + [BEL]
  }

  lemma CommandIsTaken(f: Filter, command: Command, title: Bytes)
    requires f.state == Ground && Storable(title)
    ensures Run(f, OneTitle(command, title)).0 == Emitted(WithTitle(f, command, title)).0
  {
    hide Step, Emitted, WithTitle, Storable, Reading;
    var opening := [ESC, BRACKET, Digit(command), SEMICOLON];
    var reading := f.(state := TitleText(command, [], false));
    OpeningRead(f, command);
    RunConcat(f, opening, title);
    ReadingAll(reading, command, title, |title|);
    assert title[..|title|] == title;
    RunSnoc(f, opening + title, BEL);
    ReadingEnds(reading.(state := Reading(command, title)), command, title);
  }

  /** Sending the stored pair of any reachable filter to a new filter stores the same pair there. */
  lemma StoredTitlesSurvive(calls: seq<Call>)
    ensures var f := After(calls).0;
            var g := Run(New(MoshPrefix), EncodeTitles(f.icon, f.window)).0;
            g.state == Ground && g.initialized && g.icon == f.icon && g.window == f.window
  {
    hide Run, After, Storable, EncodeTitles, EndsInEscape;
    CallsKeepInv(calls);
    PairIsTaken(After(calls).0.icon, After(calls).0.window);
  }

  lemma PairIsTaken(icon: Bytes, window: Bytes)
    requires Storable(icon) && Storable(window)
    ensures var g := Run(New(MoshPrefix), EncodeTitles(icon, window)).0;
            g.state == Ground && g.initialized && g.icon == icon && g.window == window
  {
    hide Run, Storable, ShownTitles;
    var other := New(MoshPrefix);
    if icon == window {
      CommandIsTaken(other, IconAndWindow, window);
    } else {
      CommandIsTaken(other, Icon, icon);
      var half := Emitted(WithTitle(other, Icon, icon)).0;
      CommandIsTaken(half, Window, window);
      RunConcat(other, OneTitle(Icon, icon), OneTitle(Window, window));
    }
  }

  // ---- The header buffer ----------------------------------------------------

  /** Past the command limit a held header can only go on with escapes. */
  predicate OverflowIsEscapes(header: Bytes) {
    IsHeader(header)
    && forall i :: OpenerLength(header) + MAX_OSC_COMMAND_BYTES <= i < |header| ==> header[i] == ESC
  }

  lemma EscapeOverflows(header: Bytes)
    requires OverflowIsEscapes(header)
    ensures OverflowIsEscapes(header + [ESC])
  {
    assert (header + [ESC])[0] == header[0];
    assert |header| >= 2 ==> (header + [ESC])[..2] == header[..2];
  }

  lemma WithinLimit(header: Bytes, b: byte)
    requires IsHeader(header) && CommandLength(header + [b]) <= MAX_OSC_COMMAND_BYTES
    ensures OverflowIsEscapes(header + [b])
  {
    assert (header + [b])[0] == header[0];
    assert [ESC, BRACKET] <= header ==> (header + [b])[..2] == header[..2];
  }

  predicate HeldSoundly(state: State) {
    state.OscHeader? ==> OverflowIsEscapes(state.header)
  }

  lemma HeaderOverflowStep(header: Bytes, pending: bool, b: byte)
    requires OverflowIsEscapes(header)
    ensures HeldSoundly(HeaderStep(header, pending, b).0)
  {
    EscapeOverflows(header);
    var so := if pending then header + [ESC] else header;
    assert IsHeader(so);
    if CommandLength(so + [b]) <= MAX_OSC_COMMAND_BYTES { WithinLimit(so, b); }
    hide OverflowIsEscapes, IsHeader, CommandLength, TitleCommand;
  }

  lemma OverflowStep(f: Filter, b: byte)
    requires HeldSoundly(f.state)
    ensures HeldSoundly(Step(f, b).0.state)
  {
    if f.state.OscHeader? { HeaderOverflowStep(f.state.header, f.state.headerPending, b); }
    OpenersHold();
    OnlyTitlesStay(f, b);
    hide HeaderStep, TitleStep, Emitted, OverflowIsEscapes;
  }

  lemma OnlyTitlesStay(f: Filter, b: byte)
    ensures f.state.TitleText? ==> !Step(f, b).0.state.OscHeader?
  {
  }

  lemma OpenersHold()
    ensures OverflowIsEscapes([OSC]) && OverflowIsEscapes([ESC, BRACKET])
  {
    assert [ESC, BRACKET][..2] == [ESC, BRACKET];
  }

  /** A held header outgrows its limit by escapes alone. */
  lemma {:induction false} HeaderOutgrowsOnlyByEscapes(input: Bytes)
    ensures HeldSoundly(Run(New(MoshPrefix), input).0.state)
    decreases |input|
  {
    hide Step;
    if input == [] {
    } else {
      var n := |input| - 1;
      HeaderOutgrowsOnlyByEscapes(input[..n]);
      OverflowStep(Run(New(MoshPrefix), input[..n]).0, input[n]);
    }
  }

  predicate OverLimit(state: State) {
    state.OscHeader? && CommandLength(state.header) > MAX_OSC_COMMAND_BYTES
  }

  /** The bytes held spell a command of exactly the limit. */
  predicate Full(state: State) {
    state.OscHeader? && CommandLength(Held(state)) == MAX_OSC_COMMAND_BYTES
  }

  lemma OneMore(header: Bytes, b: byte)
    requires IsHeader(header)
    ensures CommandLength(header + [b]) == CommandLength(header) + 1
  {
    assert (header + [b])[0] == header[0];
    assert |header| >= 2 ==> (header + [b])[..2] == header[..2];
  }

  /** One byte takes a header over its limit exactly when it is an escape after an escape after a full header. */
  lemma HeaderPassesLimitIff(header: Bytes, pending: bool, b: byte)
    requires IsHeader(header) && CommandLength(header) <= MAX_OSC_COMMAND_BYTES
    ensures OverLimit(HeaderStep(header, pending, b).0) <==>
            pending && b == ESC && CommandLength(header) == MAX_OSC_COMMAND_BYTES
  {
    OneMore(header, ESC);
    hide IsHeader, TitleCommand;
  }

  /** A header over its limit stays so exactly on another escape. */
  lemma OverLimitStaysIff(header: Bytes, pending: bool, b: byte)
    requires IsHeader(header) && CommandLength(header) > MAX_OSC_COMMAND_BYTES
    ensures OverLimit(HeaderStep(header, pending, b).0) <==> b == ESC
  {
    OneMore(header, ESC);
    var so := if pending then header + [ESC] else header;
    assert IsHeader(so);
    OneMore(so, b);
    hide IsHeader, TitleCommand;
  }

  lemma EscapeIsHeld(f: Filter)
    requires f.state.OscHeader?
    ensures var state := Step(f, ESC).0.state;
            state == OscHeader(Held(f.state), true) && Held(state) == Held(f.state) + [ESC]
  {
  }

  predicate AllEscapes(input: Bytes, k: nat) {
    forall i :: k <= i < |input| ==> input[i] == ESC
  }

  /** The state after the first `k` bytes of remote output. */
  function StateAt(input: Bytes, k: nat): State
    requires k <= |input|
  {
    Run(New(MoshPrefix), input[..k]).0.state
  }

  /** From a full header on, every escape adds one held byte. */
  lemma {:induction false} EscapesAddUp(input: Bytes, k: nat)
    requires k <= |input| && Full(StateAt(input, k)) && AllEscapes(input, k)
    ensures var state := Run(New(MoshPrefix), input).0.state;
            && state.OscHeader? && CommandLength(Held(state)) == MAX_OSC_COMMAND_BYTES + |input| - k
            && (k < |input| ==> state.headerPending)
    decreases |input|
  {
    hide Step, Run, CommandLength, IsHeader;
    var n := |input| - 1;
    if k == |input| {
      assert input[..k] == input;
    } else {
      var before := Run(New(MoshPrefix), input[..n]).0;
      assert input[..n][..k] == input[..k];
      EscapesAddUp(input[..n], k);
      assert input == input[..n] + [ESC];
      RunSnoc(New(MoshPrefix), input[..n], ESC);
      HeaderOutgrowsOnlyByEscapes(input[..n]);
      EscapeIsHeld(before);
      HeldIsHeader(before.state);
      OneMore(Held(before.state), ESC);
    }
  }

  lemma HeldIsHeader(state: State)
    requires HeldSoundly(state) && state.OscHeader?
    ensures IsHeader(state.header) && IsHeader(Held(state))
  {
  }

  /** Only an escape leaves an escape pending, and it is the one thing then held beside the header. */
  lemma PendingIsEscape(f: Filter, b: byte)
    ensures var state := Step(f, b).0.state;
            state.OscHeader? && state.headerPending ==>
            b == ESC && f.state.OscHeader? && Held(f.state) == state.header
  {
    OnlyTitlesStay(f, b);
    hide TitleStep;
  }

  lemma {:induction false} OverLimitComesFromFull(input: Bytes) returns (k: nat)
    requires OverLimit(Run(New(MoshPrefix), input).0.state)
    ensures k + 2 <= |input| && Full(StateAt(input, k)) && AllEscapes(input, k)
    decreases |input|
  {
    hide Step, CommandLength, IsHeader, HeaderStep;
    var n := |input| - 1;
    var before := Run(New(MoshPrefix), input[..n]).0;
    HeaderOutgrowsOnlyByEscapes(input[..n]);
    OverLimitFrom(before, input[n]);
    if OverLimit(before.state) {
      k := OverLimitComesFromFull(input[..n]);
      assert input[..n][..k] == input[..k];
      assert forall i :: k <= i < n ==> input[i] == input[..n][i];
    } else {
      k := n - 1;
      assert input[..n][..k] == input[..k];
      PendingIsEscape(Run(New(MoshPrefix), input[..k]).0, input[k]);
    }
  }

  lemma OverLimitFrom(f: Filter, b: byte)
    requires HeldSoundly(f.state) && OverLimit(Step(f, b).0.state)
    ensures b == ESC && f.state.OscHeader?
    ensures !OverLimit(f.state) ==> f.state.headerPending && CommandLength(f.state.header) == MAX_OSC_COMMAND_BYTES
  {
    OnlyTitlesStay(f, b);
    if f.state.OscHeader? {
      HeldIsHeader(f.state);
      if OverLimit(f.state) { OverLimitStaysIff(f.state.header, f.state.headerPending, b); }
      else { HeaderPassesLimitIff(f.state.header, f.state.headerPending, b); }
    }
    hide HeaderStep, TitleStep, IsHeader, OverflowIsEscapes;
  }

  /**
   The header buffer is over its limit exactly when, at some point, the held bytes spelled a
   command of just that limit and at least two escapes and nothing else have come since.
   */
  lemma HeaderIsOverLimitIff(calls: seq<Call>)
    ensures var input := Input(calls);
            OverLimit(After(calls).0.state) <==>
            exists k :: 0 <= k && k + 2 <= |input| && Full(StateAt(input, k)) && AllEscapes(input, k)
  {
    var input := Input(calls);
    StateFollowsInput(calls);
    var state := Run(New(MoshPrefix), input).0.state;
    hide Run, After, Input, CommandLength, IsHeader;
    if OverLimit(state) {
      var k := OverLimitComesFromFull(input);
      assert Full(StateAt(input, k)) && AllEscapes(input, k);
    }
    if k :| 0 <= k && k + 2 <= |input| && Full(StateAt(input, k)) && AllEscapes(input, k) {
      EscapesAddUp(input, k);
      HeaderOutgrowsOnlyByEscapes(input);
      HeldIsHeader(state);
      OneMore(state.header, ESC);
    }
  }

  function Escapes(count: nat): (escapes: Bytes)
    ensures |escapes| == count && forall i :: 0 <= i < count ==> escapes[i] == ESC
  {
    seq(count, _ => ESC)
  }

  /** No bound holds for the header buffer: an opener and enough escapes fill it past any. */
  lemma {:induction false} HeaderIsUnbounded(count: nat)
    ensures var state := Run(New(MoshPrefix), [OSC] + Escapes(count)).0.state;
            state == OscHeader([OSC] + Escapes(SaturatingSub(count, 1)), count > 0)
    decreases count
  {
    if count == 0 {
      assert [OSC] + Escapes(0) == [] + [OSC];
      RunSnoc(New(MoshPrefix), [], OSC);
      assert [OSC] + Escapes(SaturatingSub(0, 1)) == [OSC];
    } else {
      HeaderIsUnbounded(count - 1);
      assert [OSC] + Escapes(count) == [OSC] + Escapes(count - 1) + [ESC];
      RunSnoc(New(MoshPrefix), [OSC] + Escapes(count - 1), ESC);
      if count > 1 {
        assert [OSC] + Escapes(count - 2) + [ESC] == [OSC] + Escapes(count - 1);
      }
    }
  }

  // ---- The filter object ----------------------------------------------------

  class TitleOutputFilter {
    const policy: Policy
    var state: State
    var initialized: bool
    var icon: Bytes
    var window: Bytes
    var prefixActive: bool
    var displayed: Option<(Bytes, Bytes)>

    ghost function Value(): Filter
      reads this
    {
      Filter(state, initialized, icon, window, prefixActive, displayed)
    }

    constructor (policy: Policy)
      ensures this.policy == policy && Value() == New(policy)
    {
      this.policy := policy;
      state, initialized, icon, window, prefixActive, displayed := Ground, false, [], [], policy == MoshPrefix, None;
    }

    method SetRemoteTitle(command: Command, title: Bytes)
      modifies this`initialized, this`icon, this`window
      ensures Value() == WithTitle(old(Value()), command, title)
    {
      initialized := true;
      match command {
        case IconAndWindow => icon, window := title, title;
        case Icon => icon := title;
        case Window => window := title;
      }
    }

    method EmitTitles() returns (output: Bytes)
      modifies this`displayed
      ensures Value() == Emitted(old(Value())).0 && output == Emitted(old(Value())).1
    {
      hide EncodeTitles;
      if !initialized { return []; }
      var shownWindow: Bytes := [];
      if prefixActive { shownWindow := shownWindow + MOSH_TITLE_PREFIX; }
      shownWindow := shownWindow + window;
      assert shownWindow == ShownTitles(Value()).1;
      var shownIcon := if prefixActive && icon == window then shownWindow else icon;
      if displayed == Some((shownIcon, shownWindow)) { return []; }
      displayed := Some((shownIcon, shownWindow));
      return EncodeTitles(shownIcon, shownWindow);
    }

    method RestoreTitle() returns (output: Bytes)
      modifies this`prefixActive, this`displayed
      ensures Value() == RestoreRemoteTitle(policy, old(Value())).0
              && output == RestoreRemoteTitle(policy, old(Value())).1
    {
      hide Emitted;
      if policy != MoshPrefix || !prefixActive { return []; }
      prefixActive := false;
      output := EmitTitles();
    }

    method Reapply() returns (output: Bytes)
      modifies this`prefixActive, this`displayed
      ensures Value() == ReapplyPolicy(policy, old(Value())).0 && output == ReapplyPolicy(policy, old(Value())).1
    {
      hide Emitted;
      if policy != MoshPrefix || prefixActive { return []; }
      prefixActive := true;
      output := EmitTitles();
    }

    method ProcessHeaderByte(header: Bytes, pending: bool, b: byte) returns (output: Bytes)
      modifies this`state
      ensures Value() == old(Value()).(state := HeaderStep(header, pending, b).0)
              && output == HeaderStep(header, pending, b).1
    {
      hide TitleCommand, CommandLength;
      state, output := Ground, [];
      var bytes := header;
      if pending {
        if b == BACKSLASH { return header + [ESC, BACKSLASH]; }
        bytes := bytes + [ESC];
      }
      if Ends(b) { return bytes + [b]; }
      if b == ESC {
        state := OscHeader(bytes, true);
      } else if b == SEMICOLON {
        var command := TitleCommand(bytes);
        if command.Some? {
          state := TitleText(command.value, [], false);
        } else {
          state, output := PassthroughOsc(false), bytes + [b];
        }
      } else {
        bytes := bytes + [b];
        if CommandLength(bytes) > MAX_OSC_COMMAND_BYTES {
          state, output := PassthroughOsc(false), bytes;
        } else {
          state := OscHeader(bytes, false);
        }
      }
    }

    method ProcessTitleByte(command: Command, text: Bytes, pending: bool, b: byte) returns (output: Bytes)
      modifies this
      ensures var (state, title) := TitleStep(command, text, pending, b);
              var moved := old(Value()).(state := state);
              var (next, emission) := if title.Some? then Emitted(WithTitle(moved, command, title.value))
                  else (moved, []);
              Value() == next && output == emission
    {
      hide Emitted, WithTitle;
      state, output := Ground, [];
      var bytes := text;
      var capacityReached := false;
      if pending {
        if b == BACKSLASH {
          SetRemoteTitle(command, bytes);
          output := EmitTitles();
          return;
        }
        if |bytes| < MAX_REMOTE_TITLE_BYTES { bytes := bytes + [ESC]; } else { capacityReached := true; }
      }
      if b == BEL || b == ST {
        SetRemoteTitle(command, bytes);
        output := EmitTitles();
      } else if b == CAN || b == SUB {
      } else if b == ESC {
        state := TitleText(command, bytes, true);
      } else if capacityReached || |bytes| == MAX_REMOTE_TITLE_BYTES {
        state := DiscardTitle(false);
      } else {
        state := TitleText(command, bytes + [b], false);
      }
    }

    method ProcessByte(b: byte) returns (output: Bytes)
      modifies this
      ensures Value() == Step(old(Value()), b).0 && output == Step(old(Value()), b).1
    {
      hide HeaderStep, TitleStep, Emitted, WithTitle;
      output := [];
      match state {
        case Ground =>
          if b == ESC { state := Escape; } else if b == OSC { state := OscHeader([b], false); } else { output := [b]; }
        case Escape =>
          if b == BRACKET { state := OscHeader([ESC, BRACKET], false); } else { state, output := Ground, [ESC, b]; }
        case OscHeader(header, pending) => output := ProcessHeaderByte(header, pending, b);
        case TitleText(command, text, pending) => output := ProcessTitleByte(command, text, pending, b);
        case PassthroughOsc(pending) =>
          output := [b];
          state := if (pending && b == BACKSLASH) || Ends(b) then Ground else PassthroughOsc(b == ESC);
        case DiscardTitle(pending) =>
          state := if (pending && b == BACKSLASH) || Ends(b) then Ground else DiscardTitle(b == ESC);
      }
    }

    /** One fragment of remote output, split wherever the network split it. */
    method Process(bytes: Bytes) returns (output: Bytes)
      modifies this
      ensures policy == PreserveRemote ==> output == bytes && Value() == old(Value())
      ensures policy == MoshPrefix ==> Value() == Run(old(Value()), bytes).0 && output == Run(old(Value()), bytes).1
    {
      if policy == PreserveRemote { return bytes; }
      output := [];
      assert bytes[..0] == [];
      for i := 0 to |bytes|
        invariant Value() == Run(old(Value()), bytes[..i]).0 && output == Run(old(Value()), bytes[..i]).1
      {
        assert bytes[..i + 1] == bytes[..i] + [bytes[i]];
        RunSnoc(old(Value()), bytes[..i], bytes[i]);
        var more := ProcessByte(bytes[i]);
        output := output + more;
      }
      assert bytes[..|bytes|] == bytes;
    }
  }
}
