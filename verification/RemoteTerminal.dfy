/** The remote terminal as the source keeps it: fields updated in place by `apply`. */
module RemoteTerminal {
  import opened Prelude
  import opened Wire
  import opened Operations
  import opened RemoteState

  /** A state after performing and recording more operations. */
  ghost function Recorded(t: Terminal, s: Remote, added: seq<Operation>): Remote {
    s.(screen := t.Replay(s.screen, added), history := Extended(s.history, added))
  }

  lemma RecordedTwice(t: Terminal, s: Remote, a: seq<Operation>, b: seq<Operation>)
    ensures Recorded(t, Recorded(t, s, a), b) == Recorded(t, s, a + b)
  {
    ReplayConcat(t, s.screen, a, b);
    OutputLengthConcat(a, b);
    Associate(s.history.operations, a, b);
  }

  /** The viewport and echo acknowledgement do not get in the way of recording. */
  lemma RecordedAside(t: Terminal, s: Remote, a: seq<Operation>, b: seq<Operation>, viewport: Size, echo: Option<u64>)
    ensures Recorded(t, Recorded(t, s, a).(viewport := viewport, echoAck := echo), b)
            == Recorded(t, s, a + b).(viewport := viewport, echoAck := echo)
  {
    RecordedTwice(t, s, a, b);
  }

  lemma RecordedOne(t: Terminal, s: Remote, operation: Operation)
    ensures Recorded(t, s, [operation]) ==
            s.(screen := t.Perform(s.screen, operation),
               history := History(s.history.operations + [operation], s.history.operationCount + 1,
                                  s.history.retainedBytes + match operation { case Output(b) => |b| case _ => 0 }))
  {
    assert [operation][..0] == [];
    assert OutputLength([]) == 0;
    assert t.Replay(s.screen, []) == s.screen;
  }

  // ---- Prefixes of a batch --------------------------------------------------

  lemma {:induction false} EchoOfPrefix(batch: seq<Instruction>, echo: Option<u64>, i: nat)
    requires i <= |batch| && FinalEcho(batch, echo).Some?
    ensures FinalEcho(batch[..i], echo).Some?
    decreases |batch|
  {
    if i < |batch| {
      EchoOfPrefix(batch[..|batch| - 1], echo, i);
      assert batch[..|batch| - 1][..i] == batch[..i];
    } else {
      assert batch[..i] == batch;
    }
  }

  lemma {:induction false} LengthOfPrefix(batch: seq<Instruction>, viewport: Size, i: nat)
    requires ValidBatch(batch) && i <= |batch|
    ensures OutputLength(BatchOperations(batch[..i], viewport)) <= OutputLength(BatchOperations(batch, viewport))
    decreases |batch|
  {
    if i < |batch| {
      var front := batch[..|batch| - 1];
      LengthOfPrefix(front, viewport, i);
      assert front[..i] == batch[..i];
      OutputLengthConcat(BatchOperations(front, viewport),
                         InstructionOperations(batch[|batch| - 1], FinalViewport(front, viewport)));
    } else {
      assert batch[..i] == batch;
    }
  }

  lemma NextPrefix(batch: seq<Instruction>, i: nat)
    requires i < |batch|
    ensures batch[..i + 1][..i] == batch[..i] && batch[..i + 1][i] == batch[i] && |batch[..i + 1]| == i + 1
  {
  }

  lemma InstructionOutput(instruction: Instruction, viewport: Size)
    requires instruction.viewport.Some? ==> ValidViewport(instruction.viewport.value)
    ensures OutputLength(InstructionOperations(instruction, viewport)) ==
            if instruction.bytes.Some? then |instruction.bytes.value| else 0
  {
    var out := if instruction.bytes.Some? && instruction.bytes.value != [] then [Output(instruction.bytes.value)]
        else [];
    var size := if instruction.viewport.Some? && instruction.viewport.value != viewport
                then [Resized(instruction.viewport.value)] else [];
    var control := if instruction.control.Some? then [Controlled(instruction.control.value)] else [];
    OutputLengthConcat(out + size, control);
    OutputLengthConcat(out, size);
    OneLength(out);
    OneLength(size);
    OneLength(control);
  }

  lemma OneLength(operations: seq<Operation>)
    requires |operations| <= 1
    ensures OutputLength(operations) ==
            if operations == [] then 0 else match operations[0] { case Output(b) => |b| case _ => 0 }
  {
    if operations != [] { assert operations[..0] == []; }
  }

  /** How one more instruction changes the three quantities that growth prediction tracks. */
  lemma GrowthStep(batch: seq<Instruction>, initial: Size, i: nat)
    requires ValidBatch(batch) && i < |batch|
    ensures var viewport := FinalViewport(batch[..i], initial);
            && FinalViewport(batch[..i + 1], initial)
               == (if batch[i].viewport.Some? then batch[i].viewport.value else viewport)
            && OutputLength(BatchOperations(batch[..i + 1], initial))
               == OutputLength(BatchOperations(batch[..i], initial))
                  + (if batch[i].bytes.Some? then |batch[i].bytes.value| else 0)
            && |BatchOperations(batch[..i + 1], initial)|
               == |BatchOperations(batch[..i], initial)|
                  + (if batch[i].bytes.Some? && batch[i].bytes.value != [] then 1 else 0)
                  + (if batch[i].viewport.Some? && batch[i].viewport.value != viewport then 1 else 0)
                  + (if batch[i].control.Some? then 1 else 0)
  {
    var viewport := FinalViewport(batch[..i], initial);
    NextPrefix(batch, i);
    InstructionOutput(batch[i], viewport);
    OutputLengthConcat(BatchOperations(batch[..i], initial), InstructionOperations(batch[i], viewport));
  }

  // ---- Queries over slices --------------------------------------------------

  /** `history_growth`: predicts exactly the bytes and operations that applying the batch adds. */
  method HistoryGrowth(batch: seq<Instruction>, initial: Size) returns (r: Option<(nat, nat)>)
    requires ValidBatch(batch)
    ensures var added := BatchOperations(batch, initial);
            r == if OutputLength(added) <= USIZE_MAX then Some((OutputLength(added), |added|)) else None
  {
    var bytes: nat, operations: nat := 0, 0;
    var viewport := initial;
    assert batch[..0] == [];
    for i := 0 to |batch|
      invariant viewport == FinalViewport(batch[..i], initial)
      invariant bytes == OutputLength(BatchOperations(batch[..i], initial)) <= USIZE_MAX
      invariant operations == |BatchOperations(batch[..i], initial)|
    {
      var instruction := batch[i];
      GrowthStep(batch, initial, i);
      LengthOfPrefix(batch, initial, i + 1);
      if instruction.bytes.Some? {
        if bytes + |instruction.bytes.value| > USIZE_MAX { return None; }
        bytes := bytes + |instruction.bytes.value|;
        if instruction.bytes.value != [] { operations := operations + 1; }
      }
      if instruction.viewport.Some? && viewport != instruction.viewport.value {
        operations := operations + 1;
        viewport := instruction.viewport.value;
      }
      if instruction.control.Some? { operations := operations + 1; }
    }
    assert batch[..|batch|] == batch;
    return Some((bytes, operations));
  }

  /** `validate_history_size`, with its checked additions. */
  predicate HistorySizeValid(bytes: nat, operations: nat, moreBytes: nat, moreOperations: nat)
    ensures HistorySizeValid(bytes, operations, moreBytes, moreOperations) <==>
            bytes + moreBytes <= MAX_RETAINED_HOST_BYTES && operations + moreOperations <= MAX_RETAINED_OPERATIONS
  {
    bytes + moreBytes <= USIZE_MAX && operations + moreOperations <= USIZE_MAX
    && bytes + moreBytes <= MAX_RETAINED_HOST_BYTES && operations + moreOperations <= MAX_RETAINED_OPERATIONS
  }

  class RemoteTerminalState {
    const terminal: Terminal
    var initial: Size
    var screen: Screen
    var operations: seq<Operation>
    var operationCount: nat
    var retainedBytes: nat
    var viewport: Size
    var echoAck: Option<u64>

    ghost function Value(): Remote
      reads this
    {
      Remote(initial, screen, History(operations, operationCount, retainedBytes), viewport, echoAck)
    }

    constructor (terminal: Terminal, size: Size)
      ensures this.terminal == terminal && Value() == New(terminal, size)
    {
      this.terminal := terminal;
      initial, screen, viewport := size, terminal.blank(size), size;
      operations, operationCount, retainedBytes, echoAck := [], 0, 0, None;
    }

    /** Appends to the history; the byte count is kept by the caller. */
    method Push(operation: Operation)
      modifies this`operations, this`operationCount
      ensures operations == old(operations) + [operation] && operationCount == old(operationCount) + 1
    {
      operations, operationCount := operations + [operation], operationCount + 1;
    }

    method ApplyHostBytes(bytes: seq<byte>)
      modifies this
      ensures Value() == Recorded(terminal, old(Value()), if bytes == [] then [] else [Output(bytes)])
    {
      RecordedOne(terminal, Value(), Output(bytes));
      assert operations + [] == operations;
      screen := terminal.Feed(screen, bytes);
      if bytes == [] { return; }
      retainedBytes := retainedBytes + |bytes|;
      Push(Output(bytes));
    }

    method ApplyResize(size: Size)
      modifies this
      ensures Value()
              == Recorded(terminal, old(Value()),
                          if size == old(viewport) then [] else [Resized(size)]).(viewport := size)
    {
      RecordedOne(terminal, Value(), Resized(size));
      assert operations + [] == operations;
      if viewport == size { return; }
      screen := terminal.resize(screen, size);
      viewport := size;
      Push(Resized(size));
    }

    /** One instruction of a batch that has passed validation. */
    method ApplyInstruction(instruction: Instruction)
      requires instruction.viewport.Some? ==> ValidViewport(instruction.viewport.value)
      modifies this
      ensures Value() == Recorded(terminal, old(Value()), InstructionOperations(instruction, old(viewport)))
                         .(viewport := if instruction.viewport.Some? then instruction.viewport.value else old(viewport),
                           echoAck := if instruction.marker.Some? then instruction.marker else old(echoAck))
    {
      ghost var s := Value();
      ghost var output := if instruction.bytes.Some? && instruction.bytes.value != []
        then [Output(instruction.bytes.value)] else [];
      ghost var resizing := if instruction.viewport.Some? && instruction.viewport.value != viewport
                            then [Resized(instruction.viewport.value)] else [];
      RecordedTwice(terminal, s, output, resizing);
      assert Recorded(terminal, s, []) == s by { assert operations + [] == operations; }
      if instruction.bytes.Some? {
        ApplyHostBytes(instruction.bytes.value);
      }
      ghost var s1 := Value();
      assert Recorded(terminal, s1, []) == s1 by { assert operations + [] == operations; }
      if instruction.viewport.Some? {
        ApplyResize(instruction.viewport.value);
      }
      if instruction.marker.Some? {
        echoAck := instruction.marker;
      }
      if instruction.control.Some? {
        RecordedOne(terminal, Value(), Controlled(instruction.control.value));
        RecordedTwice(terminal, s, output + resizing, [Controlled(instruction.control.value)]);
        Push(Controlled(instruction.control.value));
      } else {
        assert output + resizing + [] == output + resizing;
      }
    }

    method ValidateHistoryGrowth(batch: seq<Instruction>) returns (ok: bool)
      requires ValidBatch(batch)
      ensures ok <==> Fits(Value().history, BatchOperations(batch, viewport))
    {
      var growth := HistoryGrowth(batch, viewport);
      ok := growth.Some? && HistorySizeValid(retainedBytes, operationCount, growth.value.0, growth.value.1);
    }

    /** The history to start over from, if the parser is at a boundary and the batch then fits. */
    method CompactedHistory(batch: seq<Instruction>) returns (r: Option<History>)
      requires ValidBatch(batch) && NoEmptyOutput(operations)
      ensures r == if terminal.atGround(OutputBytes(Flatten(operations)))
                      && Fits(Snapshot(terminal, screen), BatchOperations(batch, viewport))
                   then Some(Snapshot(terminal, screen)) else None
    {
      var canonical := CanonicalOperations(operations);
      FlattenGrouped(Flatten(operations));
      if !terminal.atGround(OutputBytes(Flatten(canonical))) { return None; }
      var snapshot := terminal.snapshot(screen);
      var growth := HistoryGrowth(batch, viewport);
      if growth.None? { return None; }
      var snapshotOperations := if snapshot == [] then 0 else 1;
      if !HistorySizeValid(|snapshot|, snapshotOperations, growth.value.0, growth.value.1) { return None; }
      return Some(History(if snapshot == [] then [] else [Output(snapshot)], snapshotOperations, |snapshot|));
    }

    /** The echo acknowledgement after the batch, or `None` when one of its markers goes backwards. */
    method CheckEcho(batch: seq<Instruction>) returns (r: Option<Option<u64>>)
      ensures r == FinalEcho(batch, echoAck)
    {
      var echo := echoAck;
      assert batch[..0] == [];
      for i := 0 to |batch|
        invariant FinalEcho(batch[..i], echoAck) == Some(echo)
      {
        NextPrefix(batch, i);
        if batch[i].marker.Some? {
          if echo.Some? && batch[i].marker.value < echo.value {
            if FinalEcho(batch, echoAck).Some? { EchoOfPrefix(batch, echoAck, i + 1); }
            return None;
          }
          echo := batch[i].marker;
        }
      }
      assert batch[..|batch|] == batch;
      return Some(echo);
    }

    /** Plays a validated batch into the screen and history, instruction by instruction. */
    method ApplyInstructions(batch: seq<Instruction>)
      requires ValidBatch(batch) && FinalEcho(batch, echoAck).Some?
      modifies this
      ensures Value() == Recorded(terminal, old(Value()), BatchOperations(batch, old(viewport)))
                         .(viewport := FinalViewport(batch, old(viewport)),
                           echoAck := FinalEcho(batch, old(echoAck)).value)
    {
      ghost var s := Value();
      assert batch[..0] == [];
      assert Recorded(terminal, s, []) == s by { assert operations + [] == operations; }
      hide Recorded, InstructionOperations;
      for i := 0 to |batch|
        invariant FinalEcho(batch[..i], s.echoAck).Some?
        invariant Value() == Recorded(terminal, s, BatchOperations(batch[..i], s.viewport))
                             .(viewport := FinalViewport(batch[..i], s.viewport),
                               echoAck := FinalEcho(batch[..i], s.echoAck).value)
      {
        EchoOfPrefix(batch, s.echoAck, i + 1);
        NextPrefix(batch, i);
        RecordedAside(terminal, s, BatchOperations(batch[..i], s.viewport), InstructionOperations(batch[i], viewport),
                      viewport, echoAck);
        ApplyInstruction(batch[i]);
      }
      assert batch[..|batch|] == batch;
    }

    /** Makes sure the batch fits the history, compacting it if it has to and can. */
    method MakeRoom(batch: seq<Instruction>) returns (ready: bool)
      requires ValidBatch(batch) && NoEmptyOutput(operations)
      modifies this
      ensures match Base(terminal, old(Value()), BatchOperations(batch, old(viewport)))
              case Err(error) => !ready && error == HistoryLimitExceeded && Value() == old(Value())
              case Ok((size, history)) => ready && Value() == old(Value()).(initial := size, history := history)
    {
      ready := ValidateHistoryGrowth(batch);
      if !ready {
        var compacted := CompactedHistory(batch);
        if compacted.None? { return; }
        operations, operationCount, retainedBytes :=
          compacted.value.operations, compacted.value.operationCount, compacted.value.retainedBytes;
        initial := viewport;
        ready := true;
      }
    }

    /** `apply`: every refusal leaves the state exactly as it was. */
    method Apply(batch: seq<Instruction>) returns (r: Result<(), StateError>)
      requires NoEmptyOutput(operations)
      modifies this
      ensures match Applied(terminal, old(Value()), batch)
              case Err(error) => r == Err(error) && Value() == old(Value())
              case Ok(next) => r == Ok(()) && Value() == next
    {
      for i := 0 to |batch|
        invariant forall j :: 0 <= j < i && batch[j].viewport.Some? ==> ValidViewport(batch[j].viewport.value)
      {
        if batch[i].viewport.Some? && !ValidViewport(batch[i].viewport.value) {
          return Err(InvalidViewport);
        }
      }
      var echo := CheckEcho(batch);
      if echo.None? {
        return Err(EchoAckRegression);
      }
      var ready := MakeRoom(batch);
      if !ready {
        return Err(HistoryLimitExceeded);
      }
      ApplyInstructions(batch);
      return Ok(());
    }

    /** `clone`: a separate object whose screen is rebuilt operation by operation. */
    method Clone() returns (copy: RemoteTerminalState)
      ensures fresh(copy) && copy.terminal == terminal && copy.Value() == RemoteState.Copy(terminal, Value())
    {
      copy := new RemoteTerminalState(terminal, initial);
      for i := 0 to |operations|
        invariant copy.initial == initial
        invariant copy.screen == terminal.Replay(terminal.blank(initial), operations[..i])
      {
        NextOperation(operations, i);
        match operations[i] {
          case Output(bytes) => copy.screen := terminal.Feed(copy.screen, bytes);
          case Resized(size) => copy.screen := terminal.resize(copy.screen, size);
          case Controlled(_) =>
        }
      }
      assert operations[..|operations|] == operations;
      copy.operations, copy.operationCount, copy.retainedBytes := operations, operationCount, retainedBytes;
      copy.viewport, copy.echoAck := viewport, echoAck;
    }

    /** `history_tail_is_screen_diff_safe`: no resize in the tail, and a parser boundary after it. */
    static method TailSafe(t: Terminal, common: seq<Operation>, tail: seq<Operation>) returns (safe: bool)
      ensures safe <==> TailIsSafe(t, Flatten(common), Flatten(tail))
    {
      for i := 0 to |tail|
        invariant forall j :: 0 <= j < i ==> !tail[j].Resized?
      {
        if tail[i].Resized? {
          ResizeShows(tail, i);
          return false;
        }
      }
      NoResize(tail);
      safe := t.atGround(OutputBytes(Flatten(common)) + OutputBytes(Flatten(tail)));
    }

    /** `diff_from`: only the effects not already present in `delivered`. */
    method DiffFrom(delivered: RemoteTerminalState) returns (r: Result<seq<Instruction>, StateError>)
      requires NoEmptyOutput(operations) && NoEmptyOutput(delivered.operations)
      ensures r == Difference(terminal, Value(), delivered.Value())
    {
      hide Flatten, Grouped, CommonLength, OutputBytes, HasNewSize, TailIsSafe;
      var targetOperations := CanonicalOperations(operations);
      var deliveredOperations := CanonicalOperations(delivered.operations);
      FlattenGrouped(Flatten(operations));
      FlattenGrouped(Flatten(delivered.operations));
      var suffix := HistorySuffixStart(targetOperations, deliveredOperations);
      var instructions := [];
      if suffix.Some? {
        var (start, offset) := suffix.value;
        instructions := SuffixInstructions(targetOperations, start, offset);
      } else {
        var common, targetTail, deliveredTail := SplitCommonHistory(targetOperations, deliveredOperations);
        var targetSafe := TailSafe(terminal, common, targetTail);
        var deliveredSafe := TailSafe(terminal, common, deliveredTail);
        SplitIsCommonLength(common, targetTail, Flatten(operations));
        SplitIsCommonLength(common, deliveredTail, Flatten(delivered.operations));
        if viewport != delivered.viewport || !targetSafe || !deliveredSafe {
          return Err(DivergedHistory);
        }
        instructions := ScreenDiffInstructions(terminal.screenDiff(screen, delivered.screen));
      }
      if echoAck != delivered.echoAck && echoAck.Some? {
        instructions := [EchoAck(echoAck.value)] + instructions;
      } else {
        assert [] + instructions == instructions;
      }
      return Ok(instructions);
    }
  }

  lemma NextOperation(operations: seq<Operation>, i: nat)
    requires i < |operations|
    ensures operations[..i + 1][..i] == operations[..i] && operations[..i + 1][i] == operations[i]
            && |operations[..i + 1]| == i + 1
  {
  }

  lemma SplitIsCommonLength(common: seq<Operation>, tail: seq<Operation>, symbols: seq<Symbol>)
    requires Flatten(common) + Flatten(tail) == symbols
    ensures symbols[..|Flatten(common)|] == Flatten(common) && symbols[|Flatten(common)|..] == Flatten(tail)
  {
    DropPrefix(Flatten(common), Flatten(tail));
  }

  lemma ResizeShows(operations: seq<Operation>, i: nat)
    requires i < |operations| && operations[i].Resized?
    ensures HasNewSize(Flatten(operations))
  {
    FlattenConcat(operations[..i], operations[i..]);
    assert operations[..i] + operations[i..] == operations;
    assert Flatten(operations[i..])[0] == NewSize(operations[i].size);
    hide Flatten;
    assert Flatten(operations)[|Flatten(operations[..i])|] == NewSize(operations[i].size);
  }

  lemma {:induction false} NoResize(operations: seq<Operation>)
    requires forall j :: 0 <= j < |operations| ==> !operations[j].Resized?
    ensures !HasNewSize(Flatten(operations))
  {
    if operations != [] {
      NoResize(operations[1..]);
    }
  }

  /** What an operation keeps without its first `offset` bytes: nothing, if that empties a byte run. */
  function Kept(operation: Operation, offset: nat): seq<Operation> {
    match operation
    case Output(bytes) => if offset < |bytes| then [Output(bytes[offset..])] else []
    case _ => [operation]
  }

  /** The operations from `start` on, the first one without its first `offset` bytes. */
  function Suffix(operations: seq<Operation>, start: nat, offset: nat): seq<Operation>
    requires start <= |operations|
  {
    if start == |operations| then [] else Kept(operations[start], offset) + operations[start + 1..]
  }

  method SuffixInstructions(operations: seq<Operation>, start: nat, offset: nat)
    returns (instructions: seq<Instruction>)
    requires IsCanonical(operations) && start <= |operations|
    requires offset == 0 || (start < |operations| && operations[start].Output? && offset <= |operations[start].bytes|)
    ensures instructions == AsInstructions(Grouped(Remainder(operations, start, offset)))
  {
    instructions := [];
    ghost var kept: seq<Operation> := [];
    for i := start to |operations|
      invariant instructions == AsInstructions(kept)
      invariant kept == if i == start then [] else Kept(operations[start], offset) + operations[start + 1..i]
    {
      var from := if i == start then offset else 0;
      ghost var more := Kept(operations[i], from);
      match operations[i] {
        case Output(value) =>
          var bytes := value[from..];
          if bytes != [] {
            instructions := instructions + [HostBytes(bytes)];
          }
        case Resized(size) =>
          instructions := instructions + [Resize(size.columns, size.rows)];
        case Controlled(control) =>
          instructions := instructions + [Control(control)];
      }
      assert i > start ==> more == [operations[i]];
      kept := kept + more;
    }
    assert kept == Suffix(operations, start, offset);
    SuffixIsRemainder(operations, start, offset);
  }

  lemma SuffixIsRemainder(operations: seq<Operation>, start: nat, offset: nat)
    requires IsCanonical(operations) && start <= |operations|
    requires offset == 0 || (start < |operations| && operations[start].Output? && offset <= |operations[start].bytes|)
    ensures Suffix(operations, start, offset) == Grouped(Remainder(operations, start, offset))
  {
    var suffix := Suffix(operations, start, offset);
    if start < |operations| {
      var kept, rest := Kept(operations[start], offset), operations[start + 1..];
      FlattenConcat(kept, rest);
      if kept == [] {
        assert BytesAsSymbols(operations[start].bytes[offset..]) == [];
      } else {
        FlattenLast([], kept[0]);
        assert kept == [] + [kept[0]];
      }
      if offset == 0 {
        assert suffix == operations[start..];
      } else {
        assert Flatten(suffix) == Remainder(operations, start, offset);
      }
    }
    GroupedFlatten(suffix);
  }
}
