/**
 What a difference does to a screen, whichever way it was made: the missing part of the
 history, or a screen difference between histories that have parted.
 */
module ScreenDifferences {
  import opened Prelude
  import opened Wire
  import opened Operations
  import opened RemoteState
  import opened HostEffects
  import R = Receiver

  // ---- Sizes ----------------------------------------------------------------

  /** The size in force after some symbols. */
  function SizeAfter(size: Size, symbols: seq<Symbol>): Size {
    if symbols == [] then size
    else match symbols[|symbols| - 1] { case NewSize(last) => last case _ => SizeAfter(size, symbols[..|symbols| - 1]) }
  }

  lemma {:induction false} SizeAfterConcat(size: Size, a: seq<Symbol>, b: seq<Symbol>)
    ensures SizeAfter(size, a + b) == SizeAfter(SizeAfter(size, a), b)
  {
    if b == [] {
      assert a + b == a;
    } else {
      SizeAfterConcat(size, a, b[..|b| - 1]);
      assert (a + b)[..|a + b| - 1] == a + b[..|b| - 1];
    }
  }

  lemma {:induction false} OnlyResizesResize(size: Size, symbols: seq<Symbol>)
    requires !HasNewSize(symbols)
    ensures SizeAfter(size, symbols) == size
  {
    if symbols != [] {
      var front := symbols[..|symbols| - 1];
      assert forall i :: 0 <= i < |front| ==> front[i] == symbols[i];
      OnlyResizesResize(size, front);
    }
  }

  /** The recorded viewport is the one the history leads to. */
  predicate Sized(s: Remote) {
    s.viewport == SizeAfter(s.initial, Told(s))
  }

  lemma InstructionSizes(instruction: Instruction, viewport: Size)
    requires instruction.viewport.Some? ==> ValidViewport(instruction.viewport.value)
    ensures SizeAfter(viewport, Flatten(InstructionOperations(instruction, viewport)))
            == if instruction.viewport.Some? then instruction.viewport.value else viewport
  {
    var bytes := if instruction.bytes.Some? && instruction.bytes.value != [] then [Output(instruction.bytes.value)]
                 else [];
    var resize := if instruction.viewport.Some? && instruction.viewport.value != viewport
                  then [Resized(instruction.viewport.value)] else [];
    var control := if instruction.control.Some? then [Controlled(instruction.control.value)] else [];
    OneOperationSizes(viewport, bytes);
    OneOperationSizes(viewport, resize);
    OneOperationSizes(SizeAfter(viewport, Flatten(resize)), control);
    hide Flatten, SizeAfter;
    ThreePartsSize(viewport, bytes, resize, control);
  }

  lemma ThreePartsSize(size: Size, a: seq<Operation>, b: seq<Operation>, c: seq<Operation>)
    ensures SizeAfter(size, Flatten(a + b + c))
            == SizeAfter(SizeAfter(SizeAfter(size, Flatten(a)), Flatten(b)), Flatten(c))
  {
    FlattenConcat(a + b, c);
    FlattenConcat(a, b);
    SizeAfterConcat(size, Flatten(a) + Flatten(b), Flatten(c));
    SizeAfterConcat(size, Flatten(a), Flatten(b));
  }

  lemma OneOperationSizes(size: Size, operations: seq<Operation>)
    requires |operations| <= 1
    ensures SizeAfter(size, Flatten(operations))
            == if operations != [] && operations[0].Resized? then operations[0].size else size
  {
    AtMostOneOperation(operations);
    if operations == [] || !operations[0].Resized? { OnlyResizesResize(size, Flatten(operations)); }
  }

  lemma AtMostOneOperation(operations: seq<Operation>)
    requires |operations| <= 1
    ensures Flatten(operations) == if operations == [] then [] else SymbolsOf(operations[0])
  {
    if operations != [] { assert SymbolsOf(operations[0]) + [] == SymbolsOf(operations[0]); }
  }

  lemma {:induction false} BatchSizes(batch: seq<Instruction>, viewport: Size)
    requires ValidBatch(batch)
    ensures SizeAfter(viewport, Flatten(BatchOperations(batch, viewport))) == FinalViewport(batch, viewport)
  {
    hide InstructionOperations;
    if batch != [] {
      var front, last := batch[..|batch| - 1], batch[|batch| - 1];
      BatchSizes(front, viewport);
      InstructionSizes(last, FinalViewport(front, viewport));
      FlattenConcat(BatchOperations(front, viewport), InstructionOperations(last, FinalViewport(front, viewport)));
      SizeAfterConcat(viewport, Flatten(BatchOperations(front, viewport)),
                      Flatten(InstructionOperations(last, FinalViewport(front, viewport))));
    }
  }

  /** The recorded viewport stays right, through compactions too. */
  lemma ApplyKeepsSized(t: Terminal, s: Remote, batch: seq<Instruction>)
    requires Sized(s) && Applied(t, s, batch).Ok?
    ensures Sized(Applied(t, s, batch).value)
  {
    var added := BatchOperations(batch, s.viewport);
    var (initial, history) := Base(t, s, added).value;
    BatchSizes(batch, s.viewport);
    FlattenConcat(history.operations, added);
    SizeAfterConcat(initial, Flatten(history.operations), Flatten(added));
    SnapshotSizes(t, s);
    hide BatchOperations, FinalViewport, Flatten, SizeAfter, Snapshot, FinalEcho;
  }

  lemma SnapshotSizes(t: Terminal, s: Remote)
    ensures SizeAfter(s.viewport, Flatten(Snapshot(t, s.screen).operations)) == s.viewport
  {
    AtMostOneOperation(Snapshot(t, s.screen).operations);
    OnlyResizesResize(s.viewport, Flatten(Snapshot(t, s.screen).operations));
  }

  // ---- When a difference exists ---------------------------------------------

  /** Every resize of `a` belongs to what `a` and `b` have in common at the front. */
  ghost predicate ResizesAreCommon(a: seq<Symbol>, b: seq<Symbol>) {
    forall k :: 0 <= k < |a| && a[k].NewSize? ==> k < |b| && a[..k + 1] == b[..k + 1]
  }

  lemma {:induction false} OutputBytesConcat(a: seq<Symbol>, b: seq<Symbol>)
    ensures OutputBytes(a + b) == OutputBytes(a) + OutputBytes(b)
  {
    if b == [] {
      assert a + b == a;
    } else {
      OutputBytesConcat(a, b[..|b| - 1]);
      assert (a + b)[..|a + b| - 1] == a + b[..|b| - 1];
    }
  }

  lemma TailIsSafeIff(t: Terminal, a: seq<Symbol>, b: seq<Symbol>)
    ensures TailIsSafe(t, a[..CommonLength(a, b)], a[CommonLength(a, b)..])
            <==> ResizesAreCommon(a, b) && t.atGround(OutputBytes(a))
  {
    var n := CommonLength(a, b);
    OutputBytesConcat(a[..n], a[n..]);
    assert a[..n] + a[n..] == a;
    if ResizesAreCommon(a, b) { CommonResizesEnd(a, b); }
    if !HasNewSize(a[n..]) { ResizesEndInCommon(a, b); }
    hide OutputBytes, CommonLength, ResizesAreCommon, HasNewSize;
  }

  lemma CommonResizesEnd(a: seq<Symbol>, b: seq<Symbol>)
    requires ResizesAreCommon(a, b)
    ensures !HasNewSize(a[CommonLength(a, b)..])
  {
    var tail := a[CommonLength(a, b)..];
    forall k | 0 <= k < |a| && a[k].NewSize? ensures k < CommonLength(a, b) { SharedFrontIsShort(a, b, k + 1); }
    assert forall i :: 0 <= i < |tail| ==> tail[i] == a[CommonLength(a, b) + i];
    hide CommonLength;
  }

  lemma ResizesEndInCommon(a: seq<Symbol>, b: seq<Symbol>)
    requires !HasNewSize(a[CommonLength(a, b)..])
    ensures ResizesAreCommon(a, b)
  {
    var n := CommonLength(a, b);
    var tail := a[n..];
    assert forall k :: n <= k < |a| ==> a[k] == tail[k - n];
    hide CommonLength;
    forall k | 0 <= k < n && a[k].NewSize? ensures a[..k + 1] == b[..k + 1] {
      assert a[..n][..k + 1] == a[..k + 1] && b[..n][..k + 1] == b[..k + 1];
    }
  }

  lemma SharedFrontIsShort(a: seq<Symbol>, b: seq<Symbol>, k: nat)
    requires k <= |a| && k <= |b| && a[..k] == b[..k]
    ensures k <= CommonLength(a, b)
  {
    SharedElements(a, b, k);
  }

  lemma CommonFront(a: seq<Symbol>, b: seq<Symbol>)
    ensures CommonLength(a, b) == CommonLength(b, a)
    ensures a[..CommonLength(a, b)] == b[..CommonLength(a, b)]
  {
    CommonLengthIsUnique(b, a, CommonLength(a, b));
  }

  /**
   A difference exists exactly when the target continues what was delivered, or the two have the same viewport,
   share all their resizes, and both histories leave the escape parser between sequences.
   */
  lemma DifferenceExistsIff(t: Terminal, target: Remote, delivered: Remote)
    ensures var (a, b) := (Told(target), Told(delivered));
            Difference(t, target, delivered).Ok? <==>
            || b <= a
            || (&& target.viewport == delivered.viewport && ResizesAreCommon(a, b) && ResizesAreCommon(b, a)
                && t.atGround(OutputBytes(a)) && t.atGround(OutputBytes(b)))
  {
    var (a, b) := (Told(target), Told(delivered));
    TailIsSafeIff(t, a, b);
    TailIsSafeIff(t, b, a);
    CommonFront(a, b);
    hide TailIsSafe, ResizesAreCommon, CommonLength, Flatten, OutputBytes, Grouped;
  }

  // ---- What a difference shows ----------------------------------------------

  /** The screen that a terminal of this size shows after some symbols. */
  function Shown(t: Terminal, size: Size, symbols: seq<Symbol>): Screen {
    t.ReplaySymbols(t.blank(size), symbols)
  }

  /**
   Between the two screens, if of one size and between escape sequences, the rendered difference
   leads from `y` to `x`.
   */
  predicate Leads(t: Terminal, i: Size, x: seq<Symbol>, j: Size, y: seq<Symbol>) {
    SizeAfter(i, x) == SizeAfter(j, y) && t.atGround(OutputBytes(x)) && t.atGround(OutputBytes(y)) ==>
      t.Feed(Shown(t, j, y), t.screenDiff(Shown(t, i, x), Shown(t, j, y))) == Shown(t, i, x)
  }

  /** The law screen differences live by. It is assumed of the terminal, not proved. */
  ghost predicate Bridges(t: Terminal) {
    forall i: Size, x: seq<Symbol>, j: Size, y: seq<Symbol> :: Leads(t, i, x, j, y)
  }

  lemma ReplayableIsShown(t: Terminal, s: Remote)
    ensures Replayable(t, s) <==> s.screen == Shown(t, s.initial, Told(s))
  {
    ReplayIsSymbols(t, t.blank(s.initial), s.history.operations);
  }

  /** On the way over a screen difference the host is given bytes alone, and never a resize or a control. */
  lemma DivergedEffects(t: Terminal, target: Remote, delivered: Remote)
    requires !(Told(delivered) <= Told(target)) && Difference(t, target, delivered).Ok?
    ensures Effects(Difference(t, target, delivered).value)
            == BytesAsSymbols(t.screenDiff(target.screen, delivered.screen))
  {
    var bytes := t.screenDiff(target.screen, delivered.screen);
    EffectsConcat(EchoChange(target, delivered), ScreenDiffInstructions(bytes));
    EchoHasNoEffect(target, delivered);
    assert Effects(ScreenDiffInstructions(bytes)) == BytesAsSymbols(bytes) by {
      if bytes != [] {
        var run := HostBytes(bytes);
        assert [run][..0] == [] && BytesAsSymbols(bytes) + [] + [] == BytesAsSymbols(bytes);
        assert [] + InstructionEffects(run) == InstructionEffects(run);
      }
    }
    hide EchoChange, Flatten, ScreenDiffIsSafe;
    assert [] + BytesAsSymbols(bytes) == BytesAsSymbols(bytes);
  }

  /** A screen difference leads from the screen delivered to the target's. */
  lemma DivergedReproduces(t: Terminal, target: Remote, delivered: Remote)
    requires Bridges(t) && Replayable(t, target) && Replayable(t, delivered) && Sized(target) && Sized(delivered)
    requires !(Told(delivered) <= Told(target)) && Difference(t, target, delivered).Ok?
    ensures t.ReplaySymbols(delivered.screen, Effects(Difference(t, target, delivered).value)) == target.screen
  {
    DivergedEffects(t, target, delivered);
    DifferenceExistsIff(t, target, delivered);
    ReplayableIsShown(t, target);
    ReplayableIsShown(t, delivered);
    FeedIsSymbols(t, delivered.screen, t.screenDiff(target.screen, delivered.screen));
    assert Leads(t, target.initial, Told(target), delivered.initial, Told(delivered));
    hide Difference, Told, ResizesAreCommon, Effects, Replayable, Shown, OutputBytes;
  }

  /** The missing part of the history leads to the target's screen exactly if the target replays to it from there. */
  lemma SuffixReproducesIff(t: Terminal, target: Remote, delivered: Remote)
    requires Replayable(t, target) && Replayable(t, delivered) && Told(delivered) <= Told(target)
    ensures Difference(t, target, delivered).Ok?
    ensures t.ReplaySymbols(delivered.screen, Effects(Difference(t, target, delivered).value)) == target.screen
            <==> Shown(t, delivered.initial, Told(target)) == Shown(t, target.initial, Told(target))
  {
    DifferenceCompletes(t, target, delivered);
    ReplayableIsShown(t, target);
    ReplayableIsShown(t, delivered);
    ReplaySymbolsConcat(t, t.blank(delivered.initial), Told(delivered),
                        Effects(Difference(t, target, delivered).value));
    hide Difference, Replayable, Effects;
  }

  /** Both histories start from terminals of one size, or they have parted. */
  predicate SameStart(target: Remote, delivered: Remote) {
    Told(delivered) <= Told(target) ==> target.initial == delivered.initial
  }

  /**
   Whenever there is a difference, performing its effects on the delivered screen gives the target's screen:
   over a screen difference always, and otherwise if both histories start from the same size.
   */
  lemma DifferenceReproduces(t: Terminal, target: Remote, delivered: Remote)
    requires Bridges(t) && Replayable(t, target) && Replayable(t, delivered) && Sized(target) && Sized(delivered)
    requires SameStart(target, delivered) && Difference(t, target, delivered).Ok?
    ensures t.ReplaySymbols(delivered.screen, Effects(Difference(t, target, delivered).value)) == target.screen
  {
    hide Difference, Told, Replayable, Sized, Effects, Bridges, Shown;
    if Told(delivered) <= Told(target) {
      SuffixReproducesIff(t, target, delivered);
    } else {
      DivergedReproduces(t, target, delivered);
    }
  }

  /**
   The sizes do matter: from an empty terminal of one size there is a difference to one of another,
   and it says nothing.
   */
  lemma OtherStartIsNotReproduced(t: Terminal, a: Size, b: Size)
    requires t.blank(a) != t.blank(b)
    ensures var (target, delivered) := (RemoteState.New(t, b), RemoteState.New(t, a));
            && Replayable(t, target) && Replayable(t, delivered) && Sized(target) && Sized(delivered)
            && Difference(t, target, delivered) == Ok([])
            && t.ReplaySymbols(delivered.screen, []) != target.screen
  {
    var (target, delivered) := (RemoteState.New(t, b), RemoteState.New(t, a));
    assert Told(target) == [] == Told(delivered);
    assert AsInstructions(Grouped([])) == [];
    assert EchoChange(target, delivered) + [] == [];
    hide Grouped;
  }

  // ---- Over runs ------------------------------------------------------------

  /** The update becomes the latest state. */
  predicate Advances(t: Terminal, c: Client, u: StateUpdate) {
    Step(t, c, u).0.latest != c.latest
  }

  /**
   If the update advances: a compaction on the way keeps the screen, and if the missing part of the history
   is sent, it is for a history that starts from the same size.
   */
  predicate Sound(t: Terminal, c: Client, u: StateUpdate) {
    Advances(t, c, u) && u.base in c.received ==>
      && Restores(t, Copy(t, c.received[u.base]), u.delta)
      && SameStart(Step(t, c, u).0.delivered, c.delivered)
  }

  predicate AlwaysSound(t: Terminal, c: Client, updates: seq<StateUpdate>) {
    forall i :: 0 <= i < |updates| ==> Sound(t, Run(t, c, updates[..i]).0, updates[i])
  }

  /** Every retained state has the viewport its history leads to, and the delivered one replays to its screen too. */
  ghost predicate Coherent(t: Terminal, c: Client) {
    && (forall id :: id in c.received ==> Sized(c.received[id]))
    && Sized(c.delivered) && Replayable(t, c.delivered)
  }

  lemma CopyIsReplayable(t: Terminal, s: Remote)
    ensures Replayable(t, Copy(t, s)) && (Sized(Copy(t, s)) <==> Sized(s))
  {
  }

  lemma TargetIsCoherent(t: Terminal, c: Client, u: StateUpdate)
    requires Coherent(t, c) && R.Reaches(TerminalRules(t), c, u)
    ensures var target := R.Target(TerminalRules(t), c, u).value;
            && Sized(target) && Sized(Copy(t, target))
            && (Restores(t, Copy(t, c.received[u.base]), u.delta) ==> Replayable(t, target))
  {
    var base := Copy(t, c.received[u.base]);
    CopyIsReplayable(t, c.received[u.base]);
    hide Applied, Sized, Replayable, Copy, Restores;
    ApplyKeepsSized(t, base, u.delta);
    if Restores(t, base, u.delta) { ApplyKeepsReplayable(t, base, u.delta); }
    CopyIsReplayable(t, R.Target(TerminalRules(t), c, u).value);
  }

  lemma StepKeepsCoherent(t: Terminal, c: Client, u: StateUpdate)
    requires Coherent(t, c) && Sound(t, c, u)
    ensures Coherent(t, Step(t, c, u).0)
  {
    hide R.Accept, R.Target, Sized, Replayable, Copy, Restores, SameStart;
    R.AcceptAddsOnlyTarget(TerminalRules(t), c, u);
    R.AdvanceIsReached(TerminalRules(t), c, u);
    if R.Reaches(TerminalRules(t), c, u) { TargetIsCoherent(t, c, u); }
  }

  /** What an update tells the host turns the screen delivered before into the screen delivered after. */
  lemma StepShows(t: Terminal, c: Client, u: StateUpdate)
    requires Bridges(t) && Coherent(t, c) && Sound(t, c, u)
    ensures t.ReplaySymbols(c.delivered.screen, Delivered(t, c, u)) == Step(t, c, u).0.delivered.screen
  {
    StepKeepsCoherent(t, c, u);
    R.AdvanceIsReached(TerminalRules(t), c, u);
    hide Bridges, Sized, Replayable, Copy, Restores, SameStart, Difference, Effects;
    var (next, outcome) := Step(t, c, u);
    if outcome.Ok? && outcome.value.0 { DifferenceReproduces(t, next.delivered, c.delivered); }
  }

  lemma {:induction false} RunShows(t: Terminal, c: Client, updates: seq<StateUpdate>)
    requires Bridges(t) && Coherent(t, c) && AlwaysSound(t, c, updates)
    ensures var (later, told) := Run(t, c, updates);
            Coherent(t, later) && t.ReplaySymbols(c.delivered.screen, told) == later.delivered.screen
  {
    hide Bridges, Coherent, Sound, Step, Delivered;
    if updates != [] {
      var n := |updates| - 1;
      forall i | 0 <= i < n ensures Sound(t, Run(t, c, updates[..n][..i]).0, updates[..n][i]) {
        assert updates[..n][..i] == updates[..i];
      }
      RunShows(t, c, updates[..n]);
      var (before, told) := Run(t, c, updates[..n]);
      StepKeepsCoherent(t, before, updates[n]);
      StepShows(t, before, updates[n]);
      ReplaySymbolsConcat(t, c.delivered.screen, told, Delivered(t, before, updates[n]));
    }
  }

  /**
   Over any run of updates, screen differences among them, what the host has been told makes an empty
   terminal show the screen delivered last.
   */
  lemma HostShowsScreenAcrossDifferences(t: Terminal, size: Size, updates: seq<StateUpdate>)
    requires Bridges(t) && AlwaysSound(t, R.New(RemoteState.New(t, size)), updates)
    ensures var (later, told) := Run(t, R.New(RemoteState.New(t, size)), updates);
            t.ReplaySymbols(t.blank(size), told) == later.delivered.screen
  {
    hide Bridges, Sound, Step, Delivered;
    RunShows(t, R.New(RemoteState.New(t, size)), updates);
  }

  // ---- Without compaction ---------------------------------------------------

  /** If the update is applied at all, it fits beside the history of its base. */
  predicate Fitting(t: Terminal, c: Client, u: StateUpdate) {
    R.Reaches(TerminalRules(t), c, u) ==> !Compacts(Copy(t, c.received[u.base]), u.delta)
  }

  predicate AlwaysFitting(t: Terminal, c: Client, updates: seq<StateUpdate>) {
    forall i :: 0 <= i < |updates| ==> Fitting(t, Run(t, c, updates[..i]).0, updates[i])
  }

  ghost predicate StartsFrom(c: Client, size: Size) {
    (forall id :: id in c.received ==> c.received[id].initial == size) && c.delivered.initial == size
  }

  lemma FittingTargetStarts(t: Terminal, c: Client, u: StateUpdate)
    requires R.Reaches(TerminalRules(t), c, u) && Fitting(t, c, u)
    ensures R.Target(TerminalRules(t), c, u).value.initial == c.received[u.base].initial
    ensures Copy(t, R.Target(TerminalRules(t), c, u).value).initial == c.received[u.base].initial
    ensures Restores(t, Copy(t, c.received[u.base]), u.delta)
  {
    hide BatchOperations, FinalViewport, FinalEcho;
  }

  lemma FittingStep(t: Terminal, c: Client, u: StateUpdate, size: Size)
    requires StartsFrom(c, size) && Fitting(t, c, u)
    ensures StartsFrom(Step(t, c, u).0, size) && Sound(t, c, u)
  {
    hide R.Accept, R.Target, Copy, Restores, Fitting;
    R.AcceptAddsOnlyTarget(TerminalRules(t), c, u);
    R.AdvanceIsReached(TerminalRules(t), c, u);
    if R.Reaches(TerminalRules(t), c, u) { FittingTargetStarts(t, c, u); }
  }

  lemma {:induction false} FittingRun(t: Terminal, c: Client, updates: seq<StateUpdate>, size: Size)
    requires StartsFrom(c, size) && AlwaysFitting(t, c, updates)
    ensures StartsFrom(Run(t, c, updates).0, size) && AlwaysSound(t, c, updates)
  {
    hide StartsFrom, Sound, Step, Delivered, Fitting;
    if updates != [] {
      var n := |updates| - 1;
      assert forall i :: 0 <= i < n ==> updates[..n][i] == updates[i] && updates[..n][..i] == updates[..i];
      FittingRun(t, c, updates[..n], size);
      FittingStep(t, Run(t, c, updates[..n]).0, updates[n], size);
    }
  }

  /** As long as everything fits the retention limits, the host shows the screen delivered last, whatever diverges. */
  lemma HostShowsScreenWithinLimits(t: Terminal, size: Size, updates: seq<StateUpdate>)
    requires Bridges(t) && AlwaysFitting(t, R.New(RemoteState.New(t, size)), updates)
    ensures var (later, told) := Run(t, R.New(RemoteState.New(t, size)), updates);
            t.ReplaySymbols(t.blank(size), told) == later.delivered.screen
  {
    hide Bridges, AlwaysSound, AlwaysFitting, Step, Delivered;
    FittingRun(t, R.New(RemoteState.New(t, size)), updates, size);
    HostShowsScreenAcrossDifferences(t, size, updates);
  }
}
