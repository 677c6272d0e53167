/** When a batch is taken into a remote state, and what is then recorded of it. */
module Applying {
  import opened Prelude
  import opened Wire
  import opened Operations
  import opened RemoteState
  import opened ScreenDifferences

  // ---- Echo acknowledgements ------------------------------------------------

  /** No marker is below an earlier one, nor below the one acknowledged before. */
  ghost predicate NeverBack(batch: seq<Instruction>, echo: Option<u64>) {
    && (forall i :: 0 <= i < |batch| && batch[i].marker.Some? && echo.Some? ==> echo.value <= batch[i].marker.value)
    && (forall i, j :: 0 <= i < j < |batch| && batch[i].marker.Some? && batch[j].marker.Some? ==>
          batch[i].marker.value <= batch[j].marker.value)
  }

  /** The last marker of the batch, or the acknowledgement from before. */
  ghost predicate IsLastMarker(batch: seq<Instruction>, echo: Option<u64>, last: Option<u64>) {
    || (last == echo && forall i :: 0 <= i < |batch| ==> batch[i].marker.None?)
    || (exists i :: 0 <= i < |batch| && batch[i].marker.Some? && last == batch[i].marker
          && forall j :: i < j < |batch| ==> batch[j].marker.None?)
  }

  lemma OneMore(front: seq<Instruction>, last: Instruction, echo: Option<u64>, before: Option<u64>)
    requires NeverBack(front, echo) && IsLastMarker(front, echo, before)
    ensures NeverBack(front + [last], echo)
            <==> last.marker.None? || before.None? || before.value <= last.marker.value
    ensures IsLastMarker(front + [last], echo, if last.marker.None? then before else last.marker)
  {
    var batch := front + [last];
    assert forall k :: 0 <= k < |front| ==> batch[k] == front[k];
    assert batch[|front|] == last;
    LastMarkerIsHighest(front, echo, before);
    if last.marker.None? && before != echo {
      var i :| 0 <= i < |front| && front[i].marker.Some? && before == front[i].marker
               && forall j :: i < j < |front| ==> front[j].marker.None?;
      assert batch[i] == front[i];
    }
  }

  lemma AlreadyBack(front: seq<Instruction>, last: Instruction, echo: Option<u64>)
    requires NeverBack(front + [last], echo)
    ensures NeverBack(front, echo)
  {
    assert forall k :: 0 <= k < |front| ==> (front + [last])[k] == front[k];
  }

  lemma {:induction false} FinalEchoIff(batch: seq<Instruction>, echo: Option<u64>)
    ensures FinalEcho(batch, echo).Some? <==> NeverBack(batch, echo)
    ensures FinalEcho(batch, echo).Some? ==> IsLastMarker(batch, echo, FinalEcho(batch, echo).value)
  {
    if batch != [] {
      var n := |batch| - 1;
      assert batch[..n] + [batch[n]] == batch;
      FinalEchoIff(batch[..n], echo);
      if FinalEcho(batch[..n], echo).Some? {
        OneMore(batch[..n], batch[n], echo, FinalEcho(batch[..n], echo).value);
      } else if NeverBack(batch, echo) {
        AlreadyBack(batch[..n], batch[n], echo);
      }
      hide NeverBack, IsLastMarker;
    }
  }

  lemma LastMarkerIsHighest(batch: seq<Instruction>, echo: Option<u64>, last: Option<u64>)
    requires NeverBack(batch, echo) && IsLastMarker(batch, echo, last)
    ensures last.None? ==> echo.None? && forall i :: 0 <= i < |batch| ==> batch[i].marker.None?
    ensures last.Some? ==> (echo.Some? ==> echo.value <= last.value)
                           && forall i :: 0 <= i < |batch| && batch[i].marker.Some? ==>
                                batch[i].marker.value <= last.value
    ensures last.Some? ==> echo == last || exists i :: 0 <= i < |batch| && batch[i].marker == last
  {
  }

  // ---- Acceptance -----------------------------------------------------------

  /** The history and the batch's operations stay within 16 MiB of output and 65,536 operations. */
  predicate WithinLimits(operations: seq<Operation>, added: seq<Operation>) {
    OutputLength(operations) + OutputLength(added) <= 16_777_216 && |operations| + |added| <= 65_536
  }

  ghost predicate ViewportsAreUsable(batch: seq<Instruction>) {
    forall i :: 0 <= i < |batch| && batch[i].viewport.Some? ==>
      var viewport := batch[i].viewport.value;
      0 < viewport.columns < 65_536 && 0 < viewport.rows < 65_536
  }

  /** The screen as it stands, rendered as one byte run: what a compaction starts over from. */
  function Rendered(t: Terminal, s: Remote): seq<Operation> {
    if t.snapshot(s.screen) == [] then [] else [Output(t.snapshot(s.screen))]
  }

  /**
   A batch is taken exactly when its viewports are usable, its markers never go back, and it fits: beside
   the history, or else, if the escape parser is between sequences, beside a snapshot of the screen.
   What is refused is refused for the first of these that fails.
   */
  lemma AppliedIff(t: Terminal, s: Remote, batch: seq<Instruction>)
    requires Consistent(s)
    ensures ValidBatch(batch) <==> ViewportsAreUsable(batch)
    ensures var r := Applied(t, s, batch);
            if !ViewportsAreUsable(batch) then r == Err(InvalidViewport)
            else if !NeverBack(batch, s.echoAck) then r == Err(EchoAckRegression)
            else
              var added := BatchOperations(batch, s.viewport);
              var room := WithinLimits(s.history.operations, added);
              var roomAfterAll := t.atGround(OutputBytes(Flatten(s.history.operations)))
                                  && WithinLimits(Rendered(t, s), added);
              if !room && !roomAfterAll then r == Err(HistoryLimitExceeded)
              else
                && r.Ok? && IsLastMarker(batch, s.echoAck, r.value.echoAck)
                && r.value.viewport == FinalViewport(batch, s.viewport)
                && r.value.history.operations == (if room then s.history.operations else Rendered(t, s)) + added
                && r.value.initial == if room then s.initial else s.viewport
  {
    FinalEchoIff(batch, s.echoAck);
    RenderedLength(t, s);
    hide FinalEcho, BatchOperations, NeverBack, IsLastMarker, Flatten, OutputLength, FinalViewport;
  }

  lemma RenderedLength(t: Terminal, s: Remote)
    ensures OutputLength(Rendered(t, s)) == |t.snapshot(s.screen)|
    ensures Snapshot(t, s.screen).operations == Rendered(t, s)
  {
    var bytes := t.snapshot(s.screen);
    if bytes != [] { assert [Output(bytes)][..0] == []; }
  }

  // ---- What is recorded -----------------------------------------------------

  /** The effects that change anything: all but resizes to the size already in force. */
  function Telling(symbols: seq<Symbol>, size: Size): seq<Symbol> {
    if symbols == [] then []
    else if symbols[0].NewSize? then
      (if symbols[0].size == size then [] else [symbols[0]]) + Telling(symbols[1..], symbols[0].size)
    else [symbols[0]] + Telling(symbols[1..], size)
  }

  lemma {:induction false} TellingConcat(a: seq<Symbol>, b: seq<Symbol>, size: Size)
    ensures Telling(a + b, size) == Telling(a, size) + Telling(b, SizeAfter(size, a))
  {
    if a == [] {
      assert a + b == b;
    } else {
      assert (a + b)[1..] == a[1..] + b;
      var next := if a[0].NewSize? then a[0].size else size;
      TellingConcat(a[1..], b, next);
      SizeAfterConcat(size, [a[0]], a[1..]);
      assert [a[0]] + a[1..] == a && [a[0]][..0] == [];
    }
    hide SizeAfter;
  }

  lemma {:induction false} NoResizeTells(symbols: seq<Symbol>, size: Size)
    requires !HasNewSize(symbols)
    ensures Telling(symbols, size) == symbols && SizeAfter(size, symbols) == size
  {
    if symbols != [] {
      var rest := symbols[1..];
      assert forall i :: 0 <= i < |rest| ==> rest[i] == symbols[i + 1];
      NoResizeTells(rest, size);
      SizeAfterConcat(size, [symbols[0]], rest);
      assert [symbols[0]] + rest == symbols && [symbols[0]][..0] == [];
    }
    hide SizeAfter;
  }

  lemma ThreePartsTell(a: seq<Symbol>, b: seq<Symbol>, c: seq<Symbol>, size: Size)
    requires !HasNewSize(a) && !HasNewSize(c)
    ensures Telling(a + b + c, size) == a + Telling(b, size) + c
    ensures SizeAfter(size, a + b + c) == SizeAfter(size, b)
  {
    TellingConcat(a + b, c, size);
    TellingConcat(a, b, size);
    SizeAfterConcat(size, a + b, c);
    SizeAfterConcat(size, a, b);
    NoResizeTells(a, size);
    NoResizeTells(c, SizeAfter(size, b));
    hide Telling, SizeAfter, HasNewSize;
  }

  lemma InstructionIsRecorded(i: Instruction, size: Size)
    requires i.viewport.Some? ==> ValidViewport(i.viewport.value)
    ensures Flatten(InstructionOperations(i, size)) == Telling(InstructionEffects(i), size)
    ensures SizeAfter(size, InstructionEffects(i)) == if i.viewport.Some? then i.viewport.value else size
  {
    var bytes := if i.bytes.Some? && i.bytes.value != [] then [Output(i.bytes.value)] else [];
    var resize := if i.viewport.Some? && i.viewport.value != size then [Resized(i.viewport.value)] else [];
    var control := if i.control.Some? then [Controlled(i.control.value)] else [];
    FlattenConcat(bytes + resize, control);
    FlattenConcat(bytes, resize);
    AtMostOneOperation(bytes);
    AtMostOneOperation(resize);
    AtMostOneOperation(control);
    var heard := if i.bytes.Some? then BytesAsSymbols(i.bytes.value) else [];
    var sized: seq<Symbol> := if i.viewport.Some? then [NewSize(i.viewport.value)] else [];
    var told: seq<Symbol> := if i.control.Some? then [Ctl(i.control.value)] else [];
    OneResizeTells(sized, size);
    hide Flatten, Telling, SizeAfter;
    ThreePartsTell(heard, sized, told, size);
  }

  lemma OneResizeTells(sized: seq<Symbol>, size: Size)
    requires |sized| <= 1 && (sized != [] ==> sized[0].NewSize?)
    ensures Telling(sized, size) == if sized == [] || sized[0].size == size then [] else sized
    ensures SizeAfter(size, sized) == if sized == [] then size else sized[0].size
  {
    if sized != [] { assert sized[1..] == []; }
  }

  /**
   A batch is recorded as what the host hears of it, each byte, resize and control in order, without the
   resizes that change nothing.
   */
  lemma {:induction false} RecordedIsHeard(batch: seq<Instruction>, size: Size)
    requires ValidBatch(batch)
    ensures Flatten(BatchOperations(batch, size)) == Telling(Effects(batch), size)
    ensures FinalViewport(batch, size) == SizeAfter(size, Effects(batch))
  {
    hide InstructionOperations, InstructionEffects, Telling, SizeAfter;
    if batch == [] {
      OneResizeTells([], size);
    } else {
      var front, last := batch[..|batch| - 1], batch[|batch| - 1];
      RecordedIsHeard(front, size);
      InstructionIsRecorded(last, FinalViewport(front, size));
      FlattenConcat(BatchOperations(front, size), InstructionOperations(last, FinalViewport(front, size)));
      TellingConcat(Effects(front), InstructionEffects(last), size);
      SizeAfterConcat(size, Effects(front), InstructionEffects(last));
    }
  }
}
