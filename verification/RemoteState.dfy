/**
 The reconstructed remote terminal: a screen together with the history of
 operations that produced it, kept so that the screen can be rebuilt and compared.
 */
module RemoteState {
  import opened Prelude
  import opened Wire
  import opened Operations

  const MAX_RETAINED_HOST_BYTES := 16 * 1024 * 1024
  const MAX_RETAINED_OPERATIONS := 65_536

  datatype StateError = InvalidViewport | HistoryLimitExceeded | DivergedHistory | EchoAckRegression

  // Whatever a terminal keeps between bytes: screen contents and parser state.
  type Screen(!new, ==)

  /**
   An arbitrary terminal: its screen is a fold over the bytes and resizes it is
   fed. `snapshot` and `screenDiff` render bytes, and `atGround` tells from the
   bytes fed so far whether the escape parser is between sequences.
   */
  datatype Terminal = Terminal(
    blank: Size -> Screen,
    feed: (Screen, byte) -> Screen,
    resize: (Screen, Size) -> Screen,
    snapshot: Screen -> seq<byte>,
    screenDiff: (Screen, Screen) -> seq<byte>,
    atGround: seq<byte> -> bool)
  {
    function Feed(screen: Screen, bytes: seq<byte>): Screen {
      if bytes == [] then screen else feed(Feed(screen, bytes[..|bytes| - 1]), bytes[|bytes| - 1])
    }

    function Perform(screen: Screen, operation: Operation): Screen {
      match operation
      case Output(bytes) => Feed(screen, bytes)
      case Resized(size) => resize(screen, size)
      case Controlled(_) => screen
    }

    function Replay(screen: Screen, operations: seq<Operation>): Screen {
      if operations == [] then screen
      else Perform(Replay(screen, operations[..|operations| - 1]), operations[|operations| - 1])
    }

    function PerformSymbol(screen: Screen, symbol: Symbol): Screen {
      match symbol
      case Byte(value) => feed(screen, value)
      case NewSize(size) => resize(screen, size)
      case Ctl(_) => screen
    }

    function ReplaySymbols(screen: Screen, symbols: seq<Symbol>): Screen {
      if symbols == [] then screen
      else PerformSymbol(ReplaySymbols(screen, symbols[..|symbols| - 1]), symbols[|symbols| - 1])
    }
  }

  datatype History = History(operations: seq<Operation>, operationCount: nat, retainedBytes: nat)

  datatype Remote = Remote(
    initial: Size, screen: Screen, history: History, viewport: Size, echoAck: Option<u64>)

  function New(t: Terminal, size: Size): Remote {
    Remote(size, t.blank(size), History([], 0, 0), size, None)
  }

  // ---- What a batch does ----------------------------------------------------

  predicate ValidViewport(viewport: Viewport) {
    1 <= viewport.columns <= U16_MAX && 1 <= viewport.rows <= U16_MAX
  }

  predicate ValidBatch(batch: seq<Instruction>) {
    forall i :: 0 <= i < |batch| && batch[i].viewport.Some? ==> ValidViewport(batch[i].viewport.value)
  }

  /** The viewport in force after the batch. */
  function FinalViewport(batch: seq<Instruction>, viewport: Size): Size
    requires ValidBatch(batch)
  {
    if batch == [] then viewport
    else
      var last := batch[|batch| - 1].viewport;
      if last.Some? then last.value else FinalViewport(batch[..|batch| - 1], viewport)
  }

  /** The operations one instruction leaves in a history: no empty output, no resize to the same size. */
  function InstructionOperations(instruction: Instruction, viewport: Size): seq<Operation>
    requires instruction.viewport.Some? ==> ValidViewport(instruction.viewport.value)
  {
    (if instruction.bytes.Some? && instruction.bytes.value != [] then [Output(instruction.bytes.value)] else [])
    + (if instruction.viewport.Some? && instruction.viewport.value != viewport
       then [Resized(instruction.viewport.value)] else [])
    + (if instruction.control.Some? then [Controlled(instruction.control.value)] else [])
  }

  /** The operations a batch leaves in a history. */
  function BatchOperations(batch: seq<Instruction>, viewport: Size): seq<Operation>
    requires ValidBatch(batch)
  {
    if batch == [] then []
    else
      var front := batch[..|batch| - 1];
      BatchOperations(front, viewport)
      + InstructionOperations(batch[|batch| - 1], FinalViewport(front, viewport))
  }

  /** The newest echo acknowledgement after the batch; `None` when one goes backwards. */
  function FinalEcho(batch: seq<Instruction>, echo: Option<u64>): Option<Option<u64>> {
    if batch == [] then Some(echo)
    else
      match FinalEcho(batch[..|batch| - 1], echo)
      case None => None
      case Some(before) =>
        var marker := batch[|batch| - 1].marker;
        if marker.None? then Some(before)
        else if before.Some? && marker.value < before.value then None
        else Some(marker)
  }

  function OutputLength(operations: seq<Operation>): nat {
    if operations == [] then 0
    else OutputLength(operations[..|operations| - 1]) +
         match operations[|operations| - 1] { case Output(bytes) => |bytes| case _ => 0 }
  }

  function OutputBytes(symbols: seq<Symbol>): seq<byte> {
    if symbols == [] then []
    else OutputBytes(symbols[..|symbols| - 1]) +
         match symbols[|symbols| - 1] { case Byte(value) => [value] case _ => [] }
  }

  predicate Fits(history: History, added: seq<Operation>) {
    && history.retainedBytes + OutputLength(added) <= MAX_RETAINED_HOST_BYTES
    && history.operationCount + |added| <= MAX_RETAINED_OPERATIONS
  }

  /** The history a compacted state starts over from: the current screen as one byte run. */
  function Snapshot(t: Terminal, screen: Screen): History {
    var bytes := t.snapshot(screen);
    if bytes == [] then History([], 0, 0) else History([Output(bytes)], 1, |bytes|)
  }

  /** The starting point of the new history: the old one if the batch fits, else a snapshot if that is possible. */
  function Base(t: Terminal, s: Remote, added: seq<Operation>): Result<(Size, History), StateError> {
    if Fits(s.history, added) then Ok((s.initial, s.history))
    else if !t.atGround(OutputBytes(Flatten(s.history.operations))) then Err(HistoryLimitExceeded)
    else if !Fits(Snapshot(t, s.screen), added) then Err(HistoryLimitExceeded)
    else Ok((s.viewport, Snapshot(t, s.screen)))
  }

  function Extended(history: History, added: seq<Operation>): History {
    History(history.operations + added, history.operationCount + |added|, history.retainedBytes + OutputLength(added))
  }

  /** `apply`: all of the batch or none of it. */
  function Applied(t: Terminal, s: Remote, batch: seq<Instruction>): Result<Remote, StateError> {
    if !ValidBatch(batch) then Err(InvalidViewport)
    else if FinalEcho(batch, s.echoAck).None? then Err(EchoAckRegression)
    else
      var added := BatchOperations(batch, s.viewport);
      match Base(t, s, added)
      case Err(error) => Err(error)
      case Ok((initial, history)) =>
        Ok(Remote(initial, t.Replay(s.screen, added), Extended(history, added),
                  FinalViewport(batch, s.viewport), FinalEcho(batch, s.echoAck).value))
  }

  // ---- Accounting -----------------------------------------------------------

  /** The counters are exact and inside their limits, and no byte run is empty. */
  predicate Consistent(s: Remote) {
    && s.history.retainedBytes == OutputLength(s.history.operations) <= MAX_RETAINED_HOST_BYTES
    && s.history.operationCount == |s.history.operations| <= MAX_RETAINED_OPERATIONS
    && NoEmptyOutput(s.history.operations)
  }

  lemma {:induction false} OutputLengthConcat(a: seq<Operation>, b: seq<Operation>)
    ensures OutputLength(a + b) == OutputLength(a) + OutputLength(b)
  {
    if b == [] {
      assert a + b == a;
    } else {
      OutputLengthConcat(a, b[..|b| - 1]);
      assert (a + b)[..|a + b| - 1] == a + b[..|b| - 1];
    }
  }

  lemma {:induction false} BatchLeavesNoEmptyOutput(batch: seq<Instruction>, viewport: Size)
    requires ValidBatch(batch)
    ensures NoEmptyOutput(BatchOperations(batch, viewport))
  {
    if batch != [] { BatchLeavesNoEmptyOutput(batch[..|batch| - 1], viewport); }
  }

  /** Applying any batch keeps the counters exact and bounded, whatever the snapshot function returns. */
  lemma ApplyKeepsConsistent(t: Terminal, s: Remote, batch: seq<Instruction>)
    requires Consistent(s) && Applied(t, s, batch).Ok?
    ensures Consistent(Applied(t, s, batch).value)
  {
    var added := BatchOperations(batch, s.viewport);
    BatchLeavesNoEmptyOutput(batch, s.viewport);
    var base := Base(t, s, added).value.1;
    assert base == Snapshot(t, s.screen) ==> base.retainedBytes == OutputLength(base.operations);
    OutputLengthConcat(base.operations, added);
  }

  // ---- Replay ---------------------------------------------------------------

  lemma {:induction false} FeedConcat(t: Terminal, screen: Screen, a: seq<byte>, b: seq<byte>)
    ensures t.Feed(screen, a + b) == t.Feed(t.Feed(screen, a), b)
  {
    if b == [] {
      assert a + b == a;
    } else {
      FeedConcat(t, screen, a, b[..|b| - 1]);
      assert (a + b)[..|a + b| - 1] == a + b[..|b| - 1];
    }
  }

  lemma {:induction false} ReplayConcat(t: Terminal, screen: Screen, a: seq<Operation>, b: seq<Operation>)
    ensures t.Replay(screen, a + b) == t.Replay(t.Replay(screen, a), b)
  {
    if b == [] {
      assert a + b == a;
    } else {
      ReplayConcat(t, screen, a, b[..|b| - 1]);
      assert (a + b)[..|a + b| - 1] == a + b[..|b| - 1];
    }
  }

  lemma {:induction false} ReplaySymbolsConcat(t: Terminal, screen: Screen, a: seq<Symbol>, b: seq<Symbol>)
    ensures t.ReplaySymbols(screen, a + b) == t.ReplaySymbols(t.ReplaySymbols(screen, a), b)
  {
    if b == [] {
      assert a + b == a;
    } else {
      ReplaySymbolsConcat(t, screen, a, b[..|b| - 1]);
      assert (a + b)[..|a + b| - 1] == a + b[..|b| - 1];
    }
  }

  lemma {:induction false} FeedIsSymbols(t: Terminal, screen: Screen, bytes: seq<byte>)
    ensures t.ReplaySymbols(screen, BytesAsSymbols(bytes)) == t.Feed(screen, bytes)
  {
    if bytes != [] {
      var n := |bytes| - 1;
      FeedIsSymbols(t, screen, bytes[..n]);
      assert BytesAsSymbols(bytes)[..n] == BytesAsSymbols(bytes[..n]);
    }
  }

  /** Replaying operations comes down to replaying their symbols, however the byte runs were cut. */
  lemma {:induction false} ReplayIsSymbols(t: Terminal, screen: Screen, operations: seq<Operation>)
    ensures t.Replay(screen, operations) == t.ReplaySymbols(screen, Flatten(operations))
  {
    if operations != [] {
      var n := |operations| - 1;
      ReplayIsSymbols(t, screen, operations[..n]);
      FlattenSnoc(operations, n);
      assert operations[..n + 1] == operations;
      ReplaySymbolsConcat(t, screen, Flatten(operations[..n]), SymbolsOf(operations[n]));
      var before := t.Replay(screen, operations[..n]);
      match operations[n] {
        case Output(bytes) => FeedIsSymbols(t, before, bytes);
        case Resized(size) => OneSymbol(t, before, NewSize(size));
        case Controlled(control) => OneSymbol(t, before, Ctl(control));
      }
    }
  }

  lemma OneSymbol(t: Terminal, screen: Screen, symbol: Symbol)
    ensures t.ReplaySymbols(screen, [symbol]) == t.PerformSymbol(screen, symbol)
  {
    assert [symbol][..0] == [];
  }

  /** Replaying the canonical history gives the very screen the raw history gives. */
  lemma CanonicalReplay(t: Terminal, screen: Screen, operations: seq<Operation>)
    ensures t.Replay(screen, Grouped(Flatten(operations))) == t.Replay(screen, operations)
  {
    FlattenGrouped(Flatten(operations));
    ReplayIsSymbols(t, screen, operations);
    ReplayIsSymbols(t, screen, Grouped(Flatten(operations)));
  }

  // ---- Copies ---------------------------------------------------------------

  /** `clone`: the screen is rebuilt by replaying the history from the initial viewport. */
  function Copy(t: Terminal, s: Remote): Remote {
    s.(screen := t.Replay(t.blank(s.initial), s.history.operations))
  }

  /** The screen is what the history replays to; lost only by compaction. */
  predicate Replayable(t: Terminal, s: Remote) {
    s.screen == t.Replay(t.blank(s.initial), s.history.operations)
  }

  /** Whether applying the batch has to compact. */
  predicate Compacts(s: Remote, batch: seq<Instruction>) {
    ValidBatch(batch) && !Fits(s.history, BatchOperations(batch, s.viewport))
  }

  /** If applying the batch compacts, the snapshot rebuilds the screen it was taken of. */
  predicate Restores(t: Terminal, s: Remote, batch: seq<Instruction>) {
    Compacts(s, batch) ==> t.Replay(t.blank(s.viewport), Snapshot(t, s.screen).operations) == s.screen
  }

  lemma ApplyKeepsReplayable(t: Terminal, s: Remote, batch: seq<Instruction>)
    requires Replayable(t, s) && Applied(t, s, batch).Ok? && Restores(t, s, batch)
    ensures Replayable(t, Applied(t, s, batch).value)
  {
    var added := BatchOperations(batch, s.viewport);
    ReplayConcat(t, t.blank(s.initial), s.history.operations, added);
    ReplayConcat(t, t.blank(s.viewport), Snapshot(t, s.screen).operations, added);
  }

  /** The state after one batch; a refused one changes nothing. */
  function Next(t: Terminal, s: Remote, batch: seq<Instruction>): Remote {
    match Applied(t, s, batch)
    case Ok(next) => next
    case Err(_) => s
  }

  function After(t: Terminal, s: Remote, batches: seq<seq<Instruction>>): Remote {
    if batches == [] then s else Next(t, After(t, s, batches[..|batches| - 1]), batches[|batches| - 1])
  }

  predicate NeverCompacts(t: Terminal, s: Remote, batches: seq<seq<Instruction>>) {
    batches == []
    || (var n := |batches| - 1;
        NeverCompacts(t, s, batches[..n]) && !Compacts(After(t, s, batches[..n]), batches[n]))
  }

  predicate AlwaysRestores(t: Terminal, s: Remote, batches: seq<seq<Instruction>>) {
    batches == []
    || (var n := |batches| - 1;
        AlwaysRestores(t, s, batches[..n]) && Restores(t, After(t, s, batches[..n]), batches[n]))
  }

  /** In every reachable state the counters are exact and within limits. */
  lemma {:induction false} ReachableIsConsistent(t: Terminal, size: Size, batches: seq<seq<Instruction>>)
    ensures Consistent(After(t, New(t, size), batches))
  {
    if batches != [] {
      var before := After(t, New(t, size), batches[..|batches| - 1]);
      ReachableIsConsistent(t, size, batches[..|batches| - 1]);
      if Applied(t, before, batches[|batches| - 1]).Ok? {
        ApplyKeepsConsistent(t, before, batches[|batches| - 1]);
      }
    }
  }

  /** As long as every compaction restores the screen, every reachable state equals its copy. */
  lemma {:induction false} ReachableCopyIsEqual(t: Terminal, size: Size, batches: seq<seq<Instruction>>)
    requires AlwaysRestores(t, New(t, size), batches)
    ensures Copy(t, After(t, New(t, size), batches)) == After(t, New(t, size), batches)
  {
    hide Restores, Applied;
    if batches != [] {
      var n := |batches| - 1;
      ReachableCopyIsEqual(t, size, batches[..n]);
      var before := After(t, New(t, size), batches[..n]);
      if Applied(t, before, batches[n]).Ok? {
        ApplyKeepsReplayable(t, before, batches[n]);
      }
    }
  }

  lemma CopyCommutesOnce(t: Terminal, s: Remote, batch: seq<Instruction>)
    requires !Compacts(s, batch)
    ensures Next(t, Copy(t, s), batch) == Copy(t, Next(t, s, batch))
  {
    if ValidBatch(batch) {
      ReplayConcat(t, t.blank(s.initial), s.history.operations, BatchOperations(batch, s.viewport));
    }
  }

  /** Copying before or after a run of batches comes to the same, replayable or not, unless the run compacts. */
  lemma {:induction false} CopyCommutes(t: Terminal, s: Remote, batches: seq<seq<Instruction>>)
    requires NeverCompacts(t, s, batches)
    ensures After(t, Copy(t, s), batches) == Copy(t, After(t, s, batches))
  {
    hide Next, Copy, Compacts;
    if batches != [] {
      var n := |batches| - 1;
      CopyCommutes(t, s, batches[..n]);
      CopyCommutesOnce(t, After(t, s, batches[..n]), batches[n]);
    }
  }

  /**
   After any run that does not compact, a copy agrees with its original in history, viewport and
   echo acknowledgement, and is equal to it exactly when the history by then replays to the screen.
   */
  lemma CopyAgreesIff(t: Terminal, s: Remote, batches: seq<seq<Instruction>>)
    requires NeverCompacts(t, s, batches)
    ensures var (copy, original) := (After(t, Copy(t, s), batches), After(t, s, batches));
            && copy.history == original.history && copy.viewport == original.viewport
            && copy.echoAck == original.echoAck && copy.initial == original.initial
            && (copy == original <==> Replayable(t, original))
  {
    CopyCommutes(t, s, batches);
  }

  // ---- Differences ----------------------------------------------------------

  function OperationInstruction(operation: Operation): Instruction {
    match operation
    case Output(bytes) => HostBytes(bytes)
    case Resized(size) => Resize(size.columns, size.rows)
    case Controlled(control) => Control(control)
  }

  function AsInstructions(operations: seq<Operation>): (instructions: seq<Instruction>)
    ensures |instructions| == |operations|
    ensures forall i :: 0 <= i < |operations| ==> instructions[i] == OperationInstruction(operations[i])
  {
    seq(|operations|, i requires 0 <= i < |operations| => OperationInstruction(operations[i]))
  }

  /** The effects of a delivered batch on the host, in order: bytes written, resizes and controls. */
  function Effects(batch: seq<Instruction>): seq<Symbol> {
    if batch == [] then []
    else Effects(batch[..|batch| - 1]) + InstructionEffects(batch[|batch| - 1])
  }

  function InstructionEffects(instruction: Instruction): seq<Symbol> {
    (if instruction.bytes.Some? then BytesAsSymbols(instruction.bytes.value) else [])
    + (if instruction.viewport.Some? && ValidViewport(instruction.viewport.value)
       then [NewSize(instruction.viewport.value)] else [])
    + (if instruction.control.Some? then [Ctl(instruction.control.value)] else [])
  }

  lemma {:induction false} EffectsOfOperations(operations: seq<Operation>)
    ensures Effects(AsInstructions(operations)) == Flatten(operations)
  {
    if operations != [] {
      var n := |operations| - 1;
      EffectsOfOperations(operations[..n]);
      assert AsInstructions(operations)[..n] == AsInstructions(operations[..n]);
      FlattenSnoc(operations, n);
      assert operations[..n + 1] == operations;
      assert InstructionEffects(OperationInstruction(operations[n])) == SymbolsOf(operations[n]);
    }
  }

  lemma {:induction false} EffectsConcat(a: seq<Instruction>, b: seq<Instruction>)
    ensures Effects(a + b) == Effects(a) + Effects(b)
  {
    hide InstructionEffects;
    if b == [] {
      assert a + b == a;
    } else {
      EffectsConcat(a, b[..|b| - 1]);
      assert (a + b)[..|a + b| - 1] == a + b[..|b| - 1];
      Associate(Effects(a), Effects(b[..|b| - 1]), InstructionEffects(b[|b| - 1]));
    }
  }

  predicate HasNewSize(symbols: seq<Symbol>) {
    exists i :: 0 <= i < |symbols| && symbols[i].NewSize?
  }

  /** A tail a screen diff may stand in for: no resize, and the parser at a boundary after it. */
  predicate TailIsSafe(t: Terminal, common: seq<Symbol>, tail: seq<Symbol>) {
    !HasNewSize(tail) && t.atGround(OutputBytes(common) + OutputBytes(tail))
  }

  /** Histories that parted company, both safe to bridge with a screen diff. */
  predicate ScreenDiffIsSafe(t: Terminal, target: Remote, delivered: Remote) {
    var a, b := Flatten(target.history.operations), Flatten(delivered.history.operations);
    var n := CommonLength(a, b);
    && target.viewport == delivered.viewport
    && TailIsSafe(t, a[..n], a[n..]) && TailIsSafe(t, a[..n], b[n..])
  }

  /** The echo acknowledgement that leads a difference, if it changed and there is one. */
  function EchoChange(target: Remote, delivered: Remote): seq<Instruction> {
    if target.echoAck != delivered.echoAck && target.echoAck.Some? then [EchoAck(target.echoAck.value)] else []
  }

  function ScreenDiffInstructions(bytes: seq<byte>): seq<Instruction> {
    if bytes == [] then [] else [HostBytes(bytes)]
  }

  /** `diff_from`: the symbols of the target beyond the delivered ones, or a screen diff, or a refusal. */
  function Difference(t: Terminal, target: Remote, delivered: Remote): Result<seq<Instruction>, StateError> {
    var a, b := Flatten(target.history.operations), Flatten(delivered.history.operations);
    if b <= a then Ok(EchoChange(target, delivered) + AsInstructions(Grouped(a[|b|..])))
    else if ScreenDiffIsSafe(t, target, delivered) then
      Ok(EchoChange(target, delivered) + ScreenDiffInstructions(t.screenDiff(target.screen, delivered.screen)))
    else Err(DivergedHistory)
  }

  /** When the target extends what was delivered, the difference carries exactly the missing effects. */
  lemma DifferenceCompletes(t: Terminal, target: Remote, delivered: Remote)
    requires Flatten(delivered.history.operations) <= Flatten(target.history.operations)
    ensures var d := Difference(t, target, delivered);
            d.Ok? && Flatten(delivered.history.operations) + Effects(d.value) == Flatten(target.history.operations)
  {
    var a, b := Flatten(target.history.operations), Flatten(delivered.history.operations);
    EffectsOfExtension(target, delivered, a[|b|..]);
    SplitPrefix(a, b);
  }

  lemma SplitPrefix<T>(a: seq<T>, b: seq<T>)
    requires b <= a
    ensures b + a[|b|..] == a
  {
  }

  lemma EffectsOfExtension(target: Remote, delivered: Remote, rest: seq<Symbol>)
    ensures Effects(EchoChange(target, delivered) + AsInstructions(Grouped(rest))) == rest
  {
    EffectsConcat(EchoChange(target, delivered), AsInstructions(Grouped(rest)));
    EchoHasNoEffect(target, delivered);
    EffectsOfOperations(Grouped(rest));
    FlattenGrouped(rest);
    assert [] + rest == rest;
  }

  lemma EchoHasNoEffect(target: Remote, delivered: Remote)
    ensures Effects(EchoChange(target, delivered)) == []
  {
    var echo := EchoChange(target, delivered);
    if echo != [] {
      assert echo[..0] == [];
      assert InstructionEffects(echo[0]) == [];
    }
  }

  /**
   A difference may carry an older echo acknowledgement, or none for a target without
   one. A consumer that checks markers as `apply` does ends at the target's echo
   acknowledgement exactly when that has not gone back or gone missing.
   */
  lemma EchoArrivesIff(target: Remote, delivered: Remote)
    ensures FinalEcho(EchoChange(target, delivered), delivered.echoAck) == Some(target.echoAck)
            <==> delivered.echoAck.None? || (target.echoAck.Some? && delivered.echoAck.value <= target.echoAck.value)
  {
    var echo := EchoChange(target, delivered);
    if echo != [] {
      assert echo[..0] == [];
      assert FinalEcho([], delivered.echoAck) == Some(delivered.echoAck);
    }
  }
}
