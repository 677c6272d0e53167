/** The prediction overlay: tentative edits of one line, and what it takes to undo them. */
module Predict {
  import opened Prelude

  const ADAPTIVE_DISPLAY_MILLISECONDS := 20
  const MAXIMUM_PENDING_PREDICTIONS := 1024

  datatype Display = Adaptive | Always | Never

  /** `PrintableUtf8` holds a Unicode scalar value. */
  datatype Action = PrintableAscii(value: byte) | PrintableUtf8(scalar: nat) | Backspace | Left | Right | Barrier

  /** Authoritative cursor and rendition captured before a prediction is shown. */
  datatype Context = Context(row: u16, column: u16, columns: u16, attributes: seq<byte>, cursorState: seq<byte>)

  datatype Cell = Cell(frame: u64, acknowledged: bool)

  /** One escape sequence, rendition or character of the overlay's output. */
  datatype Token =
    | InsertCharacter
    | DeleteCharacters(count: nat)
    | CursorLeft
    | CursorRight
    | Underline
    | NoUnderline
    | Glyph(scalar: nat)
    | Rendition(bytes: seq<byte>)
    | MoveTo(row: nat, column: nat)
    | RestoreCursor(bytes: seq<byte>)

  datatype Reconciliation = Nothing | Local(tokens: seq<Token>) | Redraw

  datatype Overlay = Overlay(
    display: Display,
    overwrite: bool,
    roundTrip: Option<u16>,
    pending: seq<u64>,
    predicted: seq<Cell>,
    cursorOffset: nat,
    highest: Option<u64>,
    displayedCells: nat,
    rollbackCells: nat,
    active: bool,
    required: bool,
    context: Option<Context>,
    acknowledged: Option<u64>)

  function New(display: Display, overwrite: bool): Overlay {
    Overlay(display, overwrite, None, [], [], 0, None, 0, 0, false, false, None, None)
  }

  // ---- Offers ---------------------------------------------------------------

  predicate DisplayEnabled(s: Overlay) {
    match s.display
    case Adaptive => s.roundTrip.Some? && s.roundTrip.value >= ADAPTIVE_DISPLAY_MILLISECONDS
    case Always => true
    case Never => false
  }

  predicate IsControl(scalar: nat) {
    scalar < 32 || 127 <= scalar < 160
  }

  /** The character an action shows, if it is printable. */
  function Printed(action: Action): Option<nat> {
    match action
    case PrintableAscii(value) => if 32 <= value <= 126 then Some(value as nat) else None
    case PrintableUtf8(scalar) => if IsControl(scalar) then None else Some(scalar)
    case _ => None
  }

  function Invalidated(s: Overlay): Overlay {
    s.(pending := [], predicted := [], cursorOffset := 0, required := s.required || s.active)
  }

  /** The cell after the span is at or past the right margin. */
  predicate AtMargin(context: Context, offset: nat) {
    context.column + offset >= SaturatingSub(context.columns, 1)
  }

  predicate SamePlace(a: Context, b: Context) {
    a.row == b.row && a.column == b.column && a.columns == b.columns
  }

  function PrintedTokens(overwrite: bool, scalar: nat, rendition: Token): seq<Token> {
    if overwrite then [Underline, Glyph(scalar), rendition] else [InsertCharacter, Underline, Glyph(scalar), rendition]
  }

  function PredictPrintable(s: Overlay, frame: u64, scalar: nat, context: Option<Context>)
    : (Overlay, Option<seq<Token>>)
  {
    if s.cursorOffset != |s.predicted| then (s, None)
    else
      var anchored := if context.Some? && s.context.None? then s.(context := context) else s;
      if context.Some?
         && (!SamePlace(anchored.context.value, context.value) || AtMargin(anchored.context.value, s.cursorOffset))
      then (Invalidated(anchored), None)
      else
        (anchored.(predicted := s.predicted + [Cell(frame, false)], cursorOffset := s.cursorOffset + 1,
                   displayedCells := s.displayedCells + 1, rollbackCells := s.rollbackCells + 1, active := true),
         Some(PrintedTokens(s.overwrite, scalar,
                            if context.Some? then Rendition(context.value.attributes) else NoUnderline)))
  }

  function PredictBackspace(s: Overlay): (Overlay, Option<seq<Token>>) {
    if s.cursorOffset == 0 || s.cursorOffset != |s.predicted| then (s, None)
    else if s.acknowledged.Some? && s.predicted[|s.predicted| - 1].frame <= s.acknowledged.value then (s, None)
    else if s.overwrite then (Invalidated(s), None)
    else (s.(predicted := s.predicted[..|s.predicted| - 1], cursorOffset := s.cursorOffset - 1,
             displayedCells := SaturatingSub(s.displayedCells, 1), rollbackCells := SaturatingSub(s.rollbackCells, 1),
             active := true),
          Some([CursorLeft, DeleteCharacters(1)]))
  }

  function PredictLeft(s: Overlay): (Overlay, Option<seq<Token>>) {
    if s.cursorOffset == 0 then (s, None)
    else (s.(cursorOffset := s.cursorOffset - 1, active := true), Some([CursorLeft]))
  }

  function PredictRight(s: Overlay): (Overlay, Option<seq<Token>>) {
    if s.cursorOffset >= |s.predicted| then (s, None)
    else (s.(cursorOffset := s.cursorOffset + 1, active := true), Some([CursorRight]))
  }

  function Predicted(s: Overlay, frame: u64, action: Action, context: Option<Context>): (Overlay, Option<seq<Token>>) {
    match action
    case Backspace => PredictBackspace(s)
    case Left => PredictLeft(s)
    case Right => PredictRight(s)
    case Barrier => (s, None)
    case _ => if Printed(action).Some? then PredictPrintable(s, frame, Printed(action).value, context)
      else (Invalidated(s), None)
  }

  /** A prediction that is shown is pending under its frame. */
  function Attempted(s: Overlay, frame: u64, action: Action, context: Option<Context>): (Overlay, Option<seq<Token>>) {
    var (next, output) := Predicted(s, frame, action, context);
    (if output.Some? then next.(pending := next.pending + [frame]) else next, output)
  }

  /** `offer_for_frame_with_context`. */
  function Offer(s: Overlay, frame: u64, action: Action, context: Option<Context>): (Overlay, Option<seq<Token>>) {
    if s.highest.Some? && frame < s.highest.value then (s, None)
    else
      var seen := s.(highest := Some(frame));
      if action == Barrier then (Invalidated(seen), None)
      else if !DisplayEnabled(s) || s.required then (seen, None)
      else if |s.pending| >= MAXIMUM_PENDING_PREDICTIONS || |s.predicted| >= MAXIMUM_PENDING_PREDICTIONS
      then (Invalidated(seen), None)
      else Attempted(seen, frame, action, context)
  }

  // ---- Reconciliation and acknowledgement -----------------------------------

  /** What removes the span locally: delete its cells and put the cursor back. */
  function LocalReconciliation(s: Overlay): Option<seq<Token>> {
    if s.context.None? then None
    else
      var c := s.context.value;
      Some(if s.rollbackCells == 0 then [RestoreCursor(c.cursorState)]
           else [MoveTo(Min(c.row + 1, U16_MAX), Min(c.column + 1, U16_MAX)), DeleteCharacters(s.rollbackCells),
                 RestoreCursor(c.cursorState)])
  }

  /** `take_reconciliation`. */
  function Reconciled(s: Overlay): (Overlay, Reconciliation) {
    if !s.active && !s.required then (s, Nothing)
    else
      var local := if s.overwrite then None else LocalReconciliation(s);
      (s.(pending := [], predicted := [], cursorOffset := 0, displayedCells := 0, rollbackCells := 0,
          active := false, required := false, context := None),
       if local.None? then Redraw else Local(local.value))
  }

  /** The frames still pending once every frame up to `id` at the front is gone. */
  function PopThrough(pending: seq<u64>, id: u64): seq<u64> {
    if pending == [] || pending[0] > id then pending else PopThrough(pending[1..], id)
  }

  function MarkedThrough(predicted: seq<Cell>, id: u64): (marked: seq<Cell>)
    ensures |marked| == |predicted|
  {
    seq(|predicted|, i requires 0 <= i < |predicted| =>
      predicted[i].(acknowledged := predicted[i].acknowledged || predicted[i].frame <= id))
  }

  /** Whether an acknowledgement is news: not of the future, and beyond the latest one. */
  predicate IsNews(s: Overlay, id: u64) {
    s.highest.Some? && id <= s.highest.value && (s.acknowledged.Some? ==> id > s.acknowledged.value)
  }

  /** `acknowledge`. */
  function Acknowledge(s: Overlay, id: u64): Overlay {
    if !IsNews(s, id) then s
    else s.(acknowledged := Some(id), pending := PopThrough(s.pending, id), predicted := MarkedThrough(s.predicted, id))
  }

  // ---- What every reachable overlay satisfies -------------------------------

  predicate Nondecreasing(frames: seq<u64>) {
    forall i, j :: 0 <= i < j < |frames| ==> frames[i] <= frames[j]
  }

  /** The span, the bounds and the bookkeeping of what is on the screen agree. */
  predicate Counts(s: Overlay) {
    && s.cursorOffset <= |s.predicted| <= MAXIMUM_PENDING_PREDICTIONS && |s.pending| <= MAXIMUM_PENDING_PREDICTIONS
    && s.displayedCells == s.rollbackCells <= MAXIMUM_PENDING_PREDICTIONS
    && (if s.required then s.active && s.predicted == [] else s.rollbackCells == |s.predicted|)
    && (!s.active ==> s.rollbackCells == 0 && s.pending == [])
    && (!s.active && s.context.Some? ==> AtMargin(s.context.value, 0))
  }

  predicate AtMost(frame: u64, bound: Option<u64>) {
    bound.Some? && frame <= bound.value
  }

  /** Cells are in frame order, none from the future, and none counts as acknowledged before its frame is. */
  predicate CellsInOrder(predicted: seq<Cell>, highest: Option<u64>, acknowledged: Option<u64>) {
    && (forall i, j :: 0 <= i < j < |predicted| ==> predicted[i].frame <= predicted[j].frame)
    && (forall i :: 0 <= i < |predicted| ==>
          AtMost(predicted[i].frame, highest)
            && (predicted[i].acknowledged ==> AtMost(predicted[i].frame, acknowledged)))
  }

  predicate FramesInOrder(pending: seq<u64>, highest: Option<u64>) {
    Nondecreasing(pending) && forall i :: 0 <= i < |pending| ==> AtMost(pending[i], highest)
  }

  predicate Inv(s: Overlay) {
    && Counts(s)
    && CellsInOrder(s.predicted, s.highest, s.acknowledged)
    && FramesInOrder(s.pending, s.highest)
    && (s.acknowledged.Some? ==> AtMost(s.acknowledged.value, s.highest))
  }

  lemma InvalidatedKeepsInv(s: Overlay)
    requires Inv(s)
    ensures Inv(Invalidated(s))
  {
  }

  lemma LaterFrame(s: Overlay, frame: u64)
    requires Inv(s) && (s.highest.Some? ==> frame >= s.highest.value)
    ensures Inv(s.(highest := Some(frame)))
  {
  }

  /** What every kind of prediction keeps: the invariant, and the pending frames of a shown one. */
  predicate Sound(s: Overlay, next: Overlay, output: Option<seq<Token>>) {
    Inv(next) && next.highest == s.highest && (output.Some? ==> next.active && next.pending == s.pending)
  }

  lemma PrintableIsSound(s: Overlay, frame: u64, scalar: nat, context: Option<Context>)
    requires Inv(s) && s.highest == Some(frame) && !s.required && |s.predicted| < MAXIMUM_PENDING_PREDICTIONS
    ensures Sound(s, PredictPrintable(s, frame, scalar, context).0, PredictPrintable(s, frame, scalar, context).1)
  {
    InvalidatedKeepsInv(s);
    assert CellsInOrder(s.predicted + [Cell(frame, false)], s.highest, s.acknowledged);
    hide CellsInOrder, FramesInOrder;
  }

  lemma BackspaceIsSound(s: Overlay)
    requires Inv(s) && !s.required
    ensures Sound(s, PredictBackspace(s).0, PredictBackspace(s).1)
  {
    InvalidatedKeepsInv(s);
    assert s.predicted != [] ==> CellsInOrder(s.predicted[..|s.predicted| - 1], s.highest, s.acknowledged);
    hide CellsInOrder, FramesInOrder;
  }

  lemma MoveIsSound(s: Overlay)
    requires Inv(s) && !s.required
    ensures Sound(s, PredictLeft(s).0, PredictLeft(s).1) && Sound(s, PredictRight(s).0, PredictRight(s).1)
  {
    hide CellsInOrder, FramesInOrder;
  }

  lemma PredictedIsSound(s: Overlay, frame: u64, action: Action, context: Option<Context>)
    requires Inv(s) && s.highest == Some(frame) && !s.required && |s.predicted| < MAXIMUM_PENDING_PREDICTIONS
    ensures Sound(s, Predicted(s, frame, action, context).0, Predicted(s, frame, action, context).1)
  {
    InvalidatedKeepsInv(s);
    hide PredictBackspace, PredictLeft, PredictRight, PredictPrintable, Inv;
    BackspaceIsSound(s);
    MoveIsSound(s);
    if Printed(action).Some? { PrintableIsSound(s, frame, Printed(action).value, context); }
  }

  lemma AttemptKeepsInv(s: Overlay, frame: u64, action: Action, context: Option<Context>)
    requires Inv(s) && s.highest == Some(frame) && !s.required
    requires |s.predicted| < MAXIMUM_PENDING_PREDICTIONS && |s.pending| < MAXIMUM_PENDING_PREDICTIONS
    ensures Inv(Attempted(s, frame, action, context).0)
  {
    hide Predicted, Inv;
    PredictedIsSound(s, frame, action, context);
    var (next, output) := Predicted(s, frame, action, context);
    if output.Some? { PushKeepsInv(next, frame); }
  }

  /** Offers keep every bound and every agreement between span, rollback count and screen bookkeeping. */
  lemma OfferKeepsInv(s: Overlay, frame: u64, action: Action, context: Option<Context>)
    requires Inv(s)
    ensures Inv(Offer(s, frame, action, context).0)
  {
    if s.highest.None? || frame >= s.highest.value {
      var seen := s.(highest := Some(frame));
      LaterFrame(s, frame);
      InvalidatedKeepsInv(seen);
      hide Attempted, Inv, Invalidated;
      if !s.required && |s.pending| < MAXIMUM_PENDING_PREDICTIONS && |s.predicted| < MAXIMUM_PENDING_PREDICTIONS {
        AttemptKeepsInv(seen, frame, action, context);
      }
    }
  }

  lemma PushKeepsInv(s: Overlay, frame: u64)
    requires Inv(s) && s.active && |s.pending| < MAXIMUM_PENDING_PREDICTIONS && s.highest == Some(frame)
    ensures Inv(s.(pending := s.pending + [frame]))
  {
    hide CellsInOrder;
  }

  lemma ReconciledKeepsInv(s: Overlay)
    requires Inv(s)
    ensures var next := Reconciled(s).0; Inv(next) && !next.active && !next.required && next.predicted == []
  {
  }

  // ---- Acknowledgement ------------------------------------------------------

  /** The frames beyond an acknowledgement. */
  function Beyond(frames: seq<u64>, id: u64): seq<u64> {
    if frames == [] then [] else (if frames[0] > id then [frames[0]] else []) + Beyond(frames[1..], id)
  }

  lemma {:induction false} AllBeyond(frames: seq<u64>, id: u64)
    requires forall i :: 0 <= i < |frames| ==> frames[i] > id
    ensures Beyond(frames, id) == frames
  {
    if frames != [] { AllBeyond(frames[1..], id); }
  }

  /** Popping from the front is enough: what stays pending is exactly what lies beyond the acknowledgement. */
  lemma {:induction false} PoppingLeavesBeyond(pending: seq<u64>, id: u64)
    requires Nondecreasing(pending)
    ensures PopThrough(pending, id) == Beyond(pending, id)
  {
    if pending != [] {
      if pending[0] > id { AllBeyond(pending, id); } else { PoppingLeavesBeyond(pending[1..], id); }
    }
  }

  lemma {:induction false} PoppingKeepsOrder(pending: seq<u64>, id: u64, highest: Option<u64>)
    requires FramesInOrder(pending, highest)
    ensures FramesInOrder(PopThrough(pending, id), highest) && |PopThrough(pending, id)| <= |pending|
  {
    if pending != [] && pending[0] <= id { PoppingKeepsOrder(pending[1..], id, highest); }
  }

  lemma AcknowledgeKeepsInv(s: Overlay, id: u64)
    requires Inv(s)
    ensures Inv(Acknowledge(s, id))
  {
    if IsNews(s, id) {
      PoppingKeepsOrder(s.pending, id, s.highest);
      assert CellsInOrder(MarkedThrough(s.predicted, id), s.highest, Some(id));
      hide FramesInOrder, CellsInOrder, PopThrough, MarkedThrough;
    }
  }

  /**
   An acknowledgement of something new clears exactly the frames it covers and
   confirms exactly the cells it covers; a stale or future one does nothing.
   */
  lemma AcknowledgesExactly(s: Overlay, id: u64)
    requires Inv(s)
    ensures var next := Acknowledge(s, id);
            if !IsNews(s, id) then next == s
            else
              && next.pending == Beyond(s.pending, id) && next.acknowledged == Some(id)
              && |next.predicted| == |s.predicted|
              && (forall i :: 0 <= i < |s.predicted| ==>
                    && next.predicted[i].frame == s.predicted[i].frame
                    && (s.predicted[i].frame <= id ==> next.predicted[i].acknowledged)
                    && (s.predicted[i].frame > id ==> !next.predicted[i].acknowledged))
  {
    if IsNews(s, id) { PoppingLeavesBeyond(s.pending, id); }
  }

  /** A cell whose frame the server has acknowledged is never taken back by a backspace. */
  lemma AcknowledgedCellsStay(s: Overlay, frame: u64, context: Option<Context>)
    requires Inv(s) && s.predicted != [] && s.predicted[|s.predicted| - 1].acknowledged
    ensures Offer(s, frame, Backspace, context).1 == None
  {
  }

  // ---- Undoing the overlay --------------------------------------------------

  /** The rendition characters are drawn with. */
  datatype Pen = Pen(underlined: bool, rendition: seq<byte>)

  datatype Content = Blank | Shown(scalar: nat, pen: Pen)

  /** One row of the host terminal, with the cursor in it. */
  datatype Line = Line(row: nat, cells: seq<Content>, cursor: nat, pen: Pen)

  function Blanks(count: nat): (blanks: seq<Content>)
    ensures |blanks| == count
    ensures forall i :: 0 <= i < count ==> blanks[i] == Blank
  {
    seq(count, _ => Blank)
  }

  /**
   What the host terminal does with a token while the cursor is inside the line.
   `restore` is what a captured cursor state puts the cursor and rendition back to.
   */
  function Apply(restore: seq<byte> -> (nat, Pen), line: Line, token: Token): Line
    requires line.cursor < |line.cells|
  {
    var (cells, at, width) := (line.cells, line.cursor, |line.cells|);
    match token
    case InsertCharacter => line.(cells := Inserted(cells, at))
    case DeleteCharacters(count) =>
      line.(cells := Deleted(cells, at, Min(count, width - at)))
    case CursorLeft => line.(cursor := SaturatingSub(at, 1))
    case CursorRight => line.(cursor := Min(at + 1, width - 1))
    case Underline => line.(pen := line.pen.(underlined := true))
    case NoUnderline => line.(pen := line.pen.(underlined := false))
    case Glyph(scalar) => line.(cells := cells[at := Shown(scalar, line.pen)], cursor := Min(at + 1, width - 1))
    case Rendition(bytes) => line.(pen := Pen(false, bytes))
    case MoveTo(row, column) => line.(row := SaturatingSub(row, 1), cursor := Min(SaturatingSub(column, 1), width - 1))
    case RestoreCursor(bytes) => line.(cursor := Min(restore(bytes).0, width - 1), pen := restore(bytes).1)
  }

  function ApplyAll(restore: seq<byte> -> (nat, Pen), line: Line, tokens: seq<Token>): (after: Line)
    requires line.cursor < |line.cells|
    ensures after.cursor < |after.cells| == |line.cells|
    decreases |tokens|
  {
    if tokens == [] then line else ApplyAll(restore, Apply(restore, line, tokens[0]), tokens[1..])
  }

  /** The authoritative line with a span pushed in at the cursor; what the span pushes out on the right is lost. */
  function Spanned(home: Line, span: seq<Content>): seq<Content>
    requires home.cursor + |span| <= |home.cells|
  {
    home.cells[..home.cursor] + span + home.cells[home.cursor..|home.cells| - |span|]
  }

  predicate BlankTail(home: Line, count: nat) {
    count <= |home.cells| && forall i :: |home.cells| - count <= i < |home.cells| ==> home.cells[i] == Blank
  }

  /** The captured context describes the authoritative line. */
  predicate Captures(restore: seq<byte> -> (nat, Pen), context: Context, home: Line) {
    && context.columns == |home.cells| && home.cursor < |home.cells|
    && context.column == home.cursor && context.row == home.row < U16_MAX
    && home.pen == Pen(false, context.attributes)
    && restore(context.cursorState) == (home.cursor, home.pen)
  }

  /** Cell by cell: the line before the cursor, the span, and what it pushed along. */
  lemma SpannedAt(home: Line, span: seq<Content>)
    requires home.cursor + |span| <= |home.cells|
    ensures |Spanned(home, span)| == |home.cells|
    ensures forall k :: 0 <= k < |home.cells| ==>
              Spanned(home, span)[k] == if k < home.cursor then home.cells[k]
                                        else if k < home.cursor + |span| then span[k - home.cursor]
                                        else home.cells[k - |span|]
  {
  }

  /** `count` cells deleted at `at`, blanks coming in from the right. */
  function Deleted(cells: seq<Content>, at: nat, count: nat): (after: seq<Content>)
    requires at + count <= |cells|
    ensures |after| == |cells|
    ensures forall k :: 0 <= k < |cells| ==>
              after[k] == if k < at then cells[k] else if k + count < |cells| then cells[k + count] else Blank
  {
    cells[..at] + cells[at + count..] + Blanks(count)
  }

  /** A blank inserted at `at`, the last cell pushed out. */
  function Inserted(cells: seq<Content>, at: nat): (after: seq<Content>)
    requires at < |cells|
    ensures |after| == |cells|
    ensures forall k :: 0 <= k < |cells| ==>
            after[k] == if k < at then cells[k] else if k == at then Blank else cells[k - 1]
  {
    cells[..at] + [Blank] + cells[at..|cells| - 1]
  }

  lemma InsertionExtendsSpan(home: Line, span: seq<Content>, glyph: Content)
    requires home.cursor + |span| < |home.cells|
    ensures var (cells, at, width) := (Spanned(home, span), home.cursor + |span|, |home.cells|);
            |cells| == width && Inserted(cells, at)[at := glyph] == Spanned(home, span + [glyph])
  {
    SpannedAt(home, span);
    SpannedAt(home, span + [glyph]);
    hide Spanned, Inserted;
  }

  lemma DeletionShrinksSpan(home: Line, span: seq<Content>)
    requires span != [] && home.cursor + |span| <= |home.cells| && BlankTail(home, |span|)
    ensures var (cells, at) := (Spanned(home, span), home.cursor + |span| - 1);
            |cells| == |home.cells| && Deleted(cells, at, 1) == Spanned(home, span[..|span| - 1])
  {
    SpannedAt(home, span);
    SpannedAt(home, span[..|span| - 1]);
    hide Spanned, Deleted;
  }

  lemma DeletionRestores(home: Line, span: seq<Content>)
    requires home.cursor + |span| <= |home.cells| && BlankTail(home, |span|)
    ensures var cells := Spanned(home, span);
            |cells| == |home.cells| && Deleted(cells, home.cursor, |span|) == home.cells
  {
    SpannedAt(home, span);
    hide Spanned, Deleted;
  }

  lemma SpanInside(home: Line, span: seq<Content>)
    requires home.cursor + |span| <= |home.cells|
    ensures |Spanned(home, span)| == |home.cells| && Spanned(home, span)[home.cursor..home.cursor + |span|] == span
  {
    SpannedAt(home, span);
    hide Spanned;
  }

  lemma ApplyFirst(restore: seq<byte> -> (nat, Pen), line: Line, tokens: seq<Token>, rest: seq<Token>)
    requires line.cursor < |line.cells| && tokens != [] && tokens[1..] == rest
    ensures var next := Apply(restore, line, tokens[0]);
            && next.cursor < |next.cells| == |line.cells|
            && ApplyAll(restore, line, tokens) == if rest == [] then next else ApplyAll(restore, next, rest)
  {
  }

  lemma PrintTokens(restore: seq<byte> -> (nat, Pen), line: Line, scalar: nat, attributes: seq<byte>)
    requires line.cursor + 1 < |line.cells|
    ensures ApplyAll(restore, line, PrintedTokens(false, scalar, Rendition(attributes)))
            == line.(cells :=
                     Inserted(line.cells, line.cursor)[line.cursor := Shown(scalar, line.pen.(underlined := true))],
                     cursor := line.cursor + 1, pen := Pen(false, attributes))
  {
    hide Inserted, ApplyAll;
    var l1 := Apply(restore, line, InsertCharacter);
    var l2 := Apply(restore, l1, Underline);
    var l3 := Apply(restore, l2, Glyph(scalar));
    ApplyFirst(restore, line, [InsertCharacter, Underline, Glyph(scalar), Rendition(attributes)],
               [Underline, Glyph(scalar), Rendition(attributes)]);
    ApplyFirst(restore, l1, [Underline, Glyph(scalar), Rendition(attributes)], [Glyph(scalar), Rendition(attributes)]);
    ApplyFirst(restore, l2, [Glyph(scalar), Rendition(attributes)], [Rendition(attributes)]);
    ApplyFirst(restore, l3, [Rendition(attributes)], []);
  }

  lemma BackspaceTokens(restore: seq<byte> -> (nat, Pen), line: Line)
    requires 0 < line.cursor < |line.cells|
    ensures ApplyAll(restore, line, [CursorLeft, DeleteCharacters(1)])
            == line.(cells := Deleted(line.cells, line.cursor - 1, 1), cursor := line.cursor - 1)
  {
    hide Deleted, ApplyAll;
    ApplyFirst(restore, line, [CursorLeft, DeleteCharacters(1)], [DeleteCharacters(1)]);
    ApplyFirst(restore, Apply(restore, line, CursorLeft), [DeleteCharacters(1)], []);
  }

  /** The screen shows the authoritative line with the span pushed in, and the cursor where the overlay has it. */
  predicate Shows(home: Line, context: Context, s: Overlay, line: Line) {
    && line.row == home.row && line.pen == home.pen && |line.cells| == |home.cells| && line.cursor < |line.cells|
    && home.cursor + s.rollbackCells < |home.cells|
    && line.cells == Spanned(home, line.cells[home.cursor..home.cursor + s.rollbackCells])
    && (!s.required ==> line.cursor == home.cursor + s.cursorOffset)
    && (if s.active then s.context == Some(context) else s.context in {None, Some(context)})
  }

  /** The screen after the overlay's output, if it has any. */
  function AfterOutput(restore: seq<byte> -> (nat, Pen), line: Line, output: Option<seq<Token>>): (after: Line)
    requires line.cursor < |line.cells|
    ensures after.cursor < |after.cells|
  {
    if output.Some? then ApplyAll(restore, line, output.value) else line
  }

  lemma PrintableShows(restore: seq<byte> -> (nat, Pen), home: Line, context: Context, s: Overlay, line: Line,
                       frame: u64, scalar: nat)
    requires Inv(s) && !s.required && !s.overwrite && Captures(restore, context, home) && Shows(home, context, s, line)
    ensures var (next, output) := PredictPrintable(s, frame, scalar, Some(context));
            Shows(home, context, next, AfterOutput(restore, line, output))
  {
    var (next, output) := PredictPrintable(s, frame, scalar, Some(context));
    if output.Some? {
      hide CellsInOrder, FramesInOrder, Spanned, Inserted, Apply, ApplyAll;
      var n := s.rollbackCells;
      var span, glyph := line.cells[home.cursor..home.cursor + n], Shown(scalar, line.pen.(underlined := true));
      PrintTokens(restore, line, scalar, context.attributes);
      InsertionExtendsSpan(home, span, glyph);
      SpanInside(home, span + [glyph]);
    }
  }

  lemma BackspaceShows(restore: seq<byte> -> (nat, Pen), home: Line, context: Context, s: Overlay, line: Line)
    requires Inv(s) && !s.required && !s.overwrite && Captures(restore, context, home) && Shows(home, context, s, line)
    requires BlankTail(home, s.rollbackCells)
    ensures var (next, output) := PredictBackspace(s); Shows(home, context, next, AfterOutput(restore, line, output))
  {
    hide CellsInOrder, FramesInOrder, Spanned, Deleted, BlankTail, Apply, ApplyAll;
    if PredictBackspace(s).1.Some? {
      var span := line.cells[home.cursor..home.cursor + s.rollbackCells];
      BackspaceTokens(restore, line);
      DeletionShrinksSpan(home, span);
      SpanInside(home, span[..|span| - 1]);
    }
  }

  lemma MoveShows(restore: seq<byte> -> (nat, Pen), home: Line, context: Context, s: Overlay, line: Line)
    requires Inv(s) && !s.required && Captures(restore, context, home) && Shows(home, context, s, line)
    ensures Shows(home, context, PredictLeft(s).0, AfterOutput(restore, line, PredictLeft(s).1))
    ensures Shows(home, context, PredictRight(s).0, AfterOutput(restore, line, PredictRight(s).1))
  {
    hide CellsInOrder, FramesInOrder, Spanned;
    ApplyFirst(restore, line, [CursorLeft], []);
    ApplyFirst(restore, line, [CursorRight], []);
    hide ApplyAll, Inserted, Deleted;
  }

  lemma PredictedShows(restore: seq<byte> -> (nat, Pen), home: Line, context: Context, s: Overlay, line: Line,
                  frame: u64, action: Action)
    requires Inv(s) && !s.required && !s.overwrite && Captures(restore, context, home) && Shows(home, context, s, line)
    requires BlankTail(home, s.rollbackCells)
    ensures var (next, output) := Predicted(s, frame, action, Some(context));
            Shows(home, context, next, AfterOutput(restore, line, output))
  {
    hide PredictBackspace, PredictLeft, PredictRight, PredictPrintable, Inv, Shows, ApplyAll, BlankTail, Invalidated;
    InvalidatedShows(home, context, s, line);
    BackspaceShows(restore, home, context, s, line);
    MoveShows(restore, home, context, s, line);
    if Printed(action).Some? { PrintableShows(restore, home, context, s, line, frame, Printed(action).value); }
  }

  /** Forgetting the span changes nothing on the screen; what is shown waits for reconciliation. */
  lemma InvalidatedShows(home: Line, context: Context, s: Overlay, line: Line)
    requires Inv(s) && Shows(home, context, s, line)
    ensures Shows(home, context, Invalidated(s), line)
  {
    hide CellsInOrder, FramesInOrder, Spanned;
  }

  /** The frame numbers are no part of what is shown. */
  lemma ShowsIgnores(home: Line, context: Context, s: Overlay, line: Line, frame: u64)
    requires Shows(home, context, s, line)
    ensures Shows(home, context, s.(highest := Some(frame)), line)
    ensures Shows(home, context, s.(pending := s.pending + [frame]), line)
  {
    hide Spanned;
  }

  lemma AttemptShows(restore: seq<byte> -> (nat, Pen), home: Line, context: Context, s: Overlay, line: Line,
                  frame: u64, action: Action)
    requires Inv(s) && !s.required && !s.overwrite && Captures(restore, context, home) && Shows(home, context, s, line)
    requires BlankTail(home, s.rollbackCells)
    ensures var (next, output) := Attempted(s, frame, action, Some(context));
            Shows(home, context, next, AfterOutput(restore, line, output))
  {
    assert line.cursor < |line.cells|;
    hide Predicted, Inv, Shows, ApplyAll, BlankTail;
    PredictedShows(restore, home, context, s, line, frame, action);
    var (next, output) := Predicted(s, frame, action, Some(context));
    ShowsIgnores(home, context, next, AfterOutput(restore, line, output), frame);
  }

  /** An offer is ignored, noted, refused for good, or attempted. */
  lemma OfferCases(s: Overlay, frame: u64, action: Action, context: Option<Context>)
    ensures var r := Offer(s, frame, action, context);
            var seen := s.(highest := Some(frame));
            || r == (s, None)
            || r == (seen, None)
            || r == (Invalidated(seen), None)
            || (&& !s.required && (s.highest.Some? ==> frame >= s.highest.value)
                && r == Attempted(seen, frame, action, context))
    ensures s.highest.Some? && frame < s.highest.value ==> Offer(s, frame, action, context) == (s, None)
  {
    hide Attempted, Invalidated;
  }

  lemma OfferShows(restore: seq<byte> -> (nat, Pen), home: Line, context: Context, s: Overlay, line: Line,
                  frame: u64, action: Action)
    requires Inv(s) && !s.overwrite && Captures(restore, context, home) && Shows(home, context, s, line)
    requires BlankTail(home, s.rollbackCells)
    ensures var (next, output) := Offer(s, frame, action, Some(context));
            Shows(home, context, next, AfterOutput(restore, line, output))
  {
    assert line.cursor < |line.cells|;
    hide Offer, Attempted, Inv, Shows, ApplyAll, BlankTail, Captures, Invalidated;
    OfferCases(s, frame, action, Some(context));
    ShowsIgnores(home, context, s, line, frame);
    if s.highest.None? || frame >= s.highest.value {
      var seen := s.(highest := Some(frame));
      LaterFrame(s, frame);
      InvalidatedShows(home, context, seen, line);
      if !s.required { AttemptShows(restore, home, context, seen, line, frame, action); }
    }
  }

  // ---- Whole runs -----------------------------------------------------------

  datatype Event = Offered(frame: u64, action: Action) | Echoed(id: u64) | RoundTripChanged(milliseconds: Option<u16>)

  /** The overlay and the screen after one event, offers being anchored to the same context. */
  function Step(restore: seq<byte> -> (nat, Pen), context: Context, s: Overlay, line: Line, event: Event)
    : (r: (Overlay, Line))
    requires line.cursor < |line.cells|
    ensures r.1.cursor < |r.1.cells|
  {
    match event
    case Offered(frame, action) =>
      var (next, output) := Offer(s, frame, action, Some(context)); (next, AfterOutput(restore, line, output))
    case Echoed(id) => (Acknowledge(s, id), line)
    case RoundTripChanged(milliseconds) => (s.(roundTrip := milliseconds), line)
  }

  function Run(restore: seq<byte> -> (nat, Pen), context: Context, s: Overlay, line: Line, events: seq<Event>)
    : (r: (Overlay, Line))
    requires line.cursor < |line.cells|
    ensures r.1.cursor < |r.1.cells|
    decreases |events|
  {
    if events == [] then (s, line)
    else
      var (before, shown) := Run(restore, context, s, line, events[..|events| - 1]);
      Step(restore, context, before, shown, events[|events| - 1])
  }

  /** The longest span the run ever had on the screen. */
  function LongestSpan(restore: seq<byte> -> (nat, Pen), context: Context, s: Overlay, line: Line, events: seq<Event>)
    : nat
    requires line.cursor < |line.cells|
    decreases |events|
  {
    var now := Run(restore, context, s, line, events).0.rollbackCells;
    if events == [] then now else Max(LongestSpan(restore, context, s, line, events[..|events| - 1]), now)
  }

  lemma StepKeepsInv(restore: seq<byte> -> (nat, Pen), context: Context, s: Overlay, line: Line, event: Event)
    requires Inv(s) && line.cursor < |line.cells|
    ensures Inv(Step(restore, context, s, line, event).0)
    ensures Step(restore, context, s, line, event).0.overwrite == s.overwrite
  {
    match event {
      case Offered(frame, action) =>
        OfferKeepsInv(s, frame, action, Some(context));
        OfferKeepsMode(s, frame, action, Some(context));
      case Echoed(id) => AcknowledgeKeepsInv(s, id);
      case _ =>
    }
    hide Inv, Offer, Acknowledge;
  }

  lemma OfferKeepsMode(s: Overlay, frame: u64, action: Action, context: Option<Context>)
    ensures Offer(s, frame, action, context).0.overwrite == s.overwrite
  {
  }

  lemma StepShows(restore: seq<byte> -> (nat, Pen), home: Line, context: Context, s: Overlay, line: Line, event: Event)
    requires Inv(s) && !s.overwrite && Captures(restore, context, home) && Shows(home, context, s, line)
    requires BlankTail(home, s.rollbackCells)
    ensures var (next, shown) := Step(restore, context, s, line, event); Shows(home, context, next, shown)
  {
    match event {
      case Offered(frame, action) => OfferShows(restore, home, context, s, line, frame, action);
      case _ =>
    }
    hide Offer, ApplyAll, Inv;
  }

  lemma {:induction false} RunShows(restore: seq<byte> -> (nat, Pen), home: Line, context: Context, s: Overlay,
                                    events: seq<Event>)
    requires Inv(s) && !s.overwrite && Captures(restore, context, home) && Shows(home, context, s, home)
    requires BlankTail(home, LongestSpan(restore, context, s, home, events))
    ensures var (later, line) := Run(restore, context, s, home, events);
            Inv(later) && !later.overwrite && Shows(home, context, later, line) && BlankTail(home, later.rollbackCells)
    decreases |events|
  {
    hide Inv, Shows, Step;
    if events != [] {
      var n := |events| - 1;
      RunShows(restore, home, context, s, events[..n]);
      var (before, line) := Run(restore, context, s, home, events[..n]);
      StepKeepsInv(restore, context, before, line, events[n]);
      StepShows(restore, home, context, before, line, events[n]);
    }
  }

  /** What the caller writes to take the overlay back. */
  function AfterReconciliation(restore: seq<byte> -> (nat, Pen), line: Line, reconciliation: Reconciliation): Line
    requires line.cursor < |line.cells|
  {
    match reconciliation
    case Local(tokens) => ApplyAll(restore, line, tokens)
    case _ => line
  }

  lemma RestoreToken(restore: seq<byte> -> (nat, Pen), line: Line, bytes: seq<byte>)
    requires line.cursor < |line.cells| && restore(bytes).0 < |line.cells|
    ensures ApplyAll(restore, line, [RestoreCursor(bytes)])
            == line.(cursor := restore(bytes).0, pen := restore(bytes).1)
  {
    hide ApplyAll;
    ApplyFirst(restore, line, [RestoreCursor(bytes)], []);
  }

  lemma UndoTokens(restore: seq<byte> -> (nat, Pen), line: Line, row: nat, column: nat, count: nat, bytes: seq<byte>)
    requires line.cursor < |line.cells| && column + count <= |line.cells| && column < |line.cells|
    requires restore(bytes).0 < |line.cells|
    ensures ApplyAll(restore, line, [MoveTo(row + 1, column + 1), DeleteCharacters(count), RestoreCursor(bytes)])
            == Line(row, Deleted(line.cells, column, count), restore(bytes).0, restore(bytes).1)
  {
    hide ApplyAll, Inserted, Deleted;
    var l1 := Apply(restore, line, MoveTo(row + 1, column + 1));
    var l2 := Apply(restore, l1, DeleteCharacters(count));
    assert l1 == line.(row := row, cursor := column) && l2 == l1.(cells := Deleted(line.cells, column, count));
    ApplyFirst(restore, line, [MoveTo(row + 1, column + 1), DeleteCharacters(count), RestoreCursor(bytes)],
               [DeleteCharacters(count), RestoreCursor(bytes)]);
    ApplyFirst(restore, l1, [DeleteCharacters(count), RestoreCursor(bytes)], [RestoreCursor(bytes)]);
    hide Apply;
    RestoreToken(restore, l2, bytes);
  }

  lemma ReconciliationRestores(restore: seq<byte> -> (nat, Pen), home: Line, context: Context, s: Overlay, line: Line)
    requires Inv(s) && !s.overwrite && Captures(restore, context, home) && Shows(home, context, s, line)
    requires BlankTail(home, s.rollbackCells)
    ensures Reconciled(s).1 != Redraw && AfterReconciliation(restore, line, Reconciled(s).1) == home
  {
    hide CellsInOrder, FramesInOrder, Spanned, Deleted, BlankTail, ApplyAll, Apply;
    SpannedNothing(home);
    DeletionRestores(home, line.cells[home.cursor..home.cursor + s.rollbackCells]);
    RestoreToken(restore, line, context.cursorState);
    UndoTokens(restore, line, context.row, context.column, s.rollbackCells, context.cursorState);
    if s.rollbackCells == 0 { assert line.cells[home.cursor..home.cursor + 0] == []; }
  }

  /**
   In insert mode and with one anchor, whatever run of offers, acknowledgements and
   round-trip changes went before, the local reconciliation puts the authoritative
   line, cursor and rendition back, provided as many cells at the end of the line
   were blank as the longest span pushed out.
   */
  lemma OverlayIsUndone(restore: seq<byte> -> (nat, Pen), home: Line, context: Context, s: Overlay, events: seq<Event>)
    requires Inv(s) && !s.active && !s.overwrite && s.context.None? && Captures(restore, context, home)
    requires BlankTail(home, LongestSpan(restore, context, s, home, events))
    ensures var (later, line) := Run(restore, context, s, home, events);
            && Reconciled(later).1 != Redraw
            && AfterReconciliation(restore, line, Reconciled(later).1) == home
  {
    SpannedNothing(home);
    assert Shows(home, context, s, home);
    hide Inv, Shows;
    RunShows(restore, home, context, s, events);
    var (later, line) := Run(restore, context, s, home, events);
    ReconciliationRestores(restore, home, context, later, line);
  }

  lemma SpannedNothing(home: Line)
    requires home.cursor < |home.cells|
    ensures Spanned(home, []) == home.cells && home.cells[home.cursor..home.cursor + 0] == []
  {
  }

  // ---- The right margin -----------------------------------------------------

  /** Nothing is shown, yet an anchor at the margin is remembered. */
  predicate Stuck(s: Overlay) {
    !s.active && !s.required && s.predicted == [] && s.cursorOffset == 0 && s.context.Some?
      && AtMargin(s.context.value, 0)
  }

  /**
   With nothing on the screen, a printable key is shown exactly when no anchor is left and it is not
   at the margin.
   */
  lemma PrintableIsShownIff(s: Overlay, frame: u64, action: Action, context: Context)
    requires Inv(s) && !s.active && DisplayEnabled(s) && Printed(action).Some?
    requires s.highest.Some? ==> frame >= s.highest.value
    ensures Offer(s, frame, action, Some(context)).1.Some? <==> s.context.None? && !AtMargin(context, 0)
  {
    hide CellsInOrder, FramesInOrder;
  }

  /** A key refused at the margin while nothing is shown leaves its anchor behind. */
  lemma MarginRefusalSticks(s: Overlay, frame: u64, action: Action, context: Context)
    requires Inv(s) && !s.active && s.context.None?
    requires DisplayEnabled(s) && Printed(action).Some? && (s.highest.Some? ==> frame >= s.highest.value)
    ensures AtMargin(context, 0) <==> Stuck(Offer(s, frame, action, Some(context)).0)
  {
    hide CellsInOrder, FramesInOrder;
  }

  /** Everything a host that always passes its context does with the overlay. */
  datatype HostEvent =
    | Key(frame: u64, action: Action, context: Context)
    | RaiseBarrier(frame: u64)
    | EchoAcknowledged(id: u64)
    | RoundTripMeasured(milliseconds: Option<u16>)
    | Reconcile

  function HostStep(s: Overlay, event: HostEvent): (Overlay, Option<seq<Token>>) {
    match event
    case Key(frame, action, context) => Offer(s, frame, action, Some(context))
    case RaiseBarrier(frame) => Offer(s, frame, Barrier, None)
    case EchoAcknowledged(id) => (Acknowledge(s, id), None)
    case RoundTripMeasured(milliseconds) => (s.(roundTrip := milliseconds), None)
    case Reconcile => (Reconciled(s).0, None)
  }

  function HostRun(s: Overlay, events: seq<HostEvent>): Overlay
    decreases |events|
  {
    if events == [] then s else HostStep(HostRun(s, events[..|events| - 1]), events[|events| - 1]).0
  }

  lemma StuckOffer(s: Overlay, frame: u64, action: Action, context: Option<Context>)
    requires Stuck(s) && (context.Some? || action == Barrier)
    ensures Stuck(Offer(s, frame, action, context).0) && Offer(s, frame, action, context).1 == None
  {
  }

  lemma StuckStep(s: Overlay, event: HostEvent)
    requires Stuck(s)
    ensures Stuck(HostStep(s, event).0) && HostStep(s, event).1 == None
  {
    match event {
      case Key(frame, action, context) => StuckOffer(s, frame, action, Some(context));
      case RaiseBarrier(frame) => StuckOffer(s, frame, Barrier, None);
      case _ =>
    }
  }

  /**
   From then on no key is ever shown again: not after barriers, acknowledgements or
   reconciliations, nor anywhere else on the screen.
   */
  lemma {:induction false} MarginRefusalIsPermanent(s: Overlay, events: seq<HostEvent>, event: HostEvent)
    requires Stuck(s)
    ensures Stuck(HostRun(s, events)) && HostStep(HostRun(s, events), event).1 == None
    decreases |events|
  {
    hide HostStep, Stuck;
    if events != [] {
      var n := |events| - 1;
      MarginRefusalIsPermanent(s, events[..n], events[n]);
      StuckStep(HostRun(s, events[..n]), events[n]);
    }
    StuckStep(HostRun(s, events), event);
  }

  // ---- The overlay object ---------------------------------------------------

  class PredictionOverlay {
    const display: Display
    const overwrite: bool
    var roundTripMilliseconds: Option<u16>
    var pending: seq<u64>
    var predicted: seq<Cell>
    var cursorOffset: nat
    var highestFrameId: Option<u64>
    var displayedCells: nat
    var rollbackCells: nat
    var overlayActive: bool
    var reconciliationRequired: bool
    var lineContext: Option<Context>
    var latestAcknowledgement: Option<u64>

    ghost function Value(): Overlay
      reads this
    {
      Overlay(display, overwrite, roundTripMilliseconds, pending, predicted, cursorOffset, highestFrameId,
              displayedCells,
              rollbackCells, overlayActive, reconciliationRequired, lineContext, latestAcknowledgement)
    }

    ghost predicate Valid()
      reads this
    {
      Inv(Value())
    }

    constructor (display: Display, overwrite: bool)
      ensures Valid() && Value() == New(display, overwrite)
    {
      this.display, this.overwrite := display, overwrite;
      roundTripMilliseconds, pending, predicted, cursorOffset, highestFrameId := None, [], [], 0, None;
      displayedCells, rollbackCells, overlayActive, reconciliationRequired := 0, 0, false, false;
      lineContext, latestAcknowledgement := None, None;
    }

    method InvalidateSpan()
      modifies this
      ensures Value() == Invalidated(old(Value()))
    {
      pending, predicted, cursorOffset := [], [], 0;
      reconciliationRequired := reconciliationRequired || overlayActive;
    }

    method ShowPrintable(frame: u64, scalar: nat, context: Option<Context>) returns (output: Option<seq<Token>>)
      requires cursorOffset <= |predicted| && displayedCells < U64_MAX && rollbackCells < U64_MAX
               && |predicted| < U64_MAX
      modifies this
      ensures Value() == PredictPrintable(old(Value()), frame, scalar, context).0
      ensures output == PredictPrintable(old(Value()), frame, scalar, context).1
    {
      if cursorOffset != |predicted| { return None; }
      if context.Some? {
        if lineContext.None? { lineContext := context; }
        var anchor := lineContext.value;
        if anchor.row != context.value.row || anchor.column != context.value.column
          || anchor.columns != context.value.columns
           || SaturatingAdd(anchor.column, cursorOffset) >= SaturatingSub(anchor.columns, 1) {
          InvalidateSpan();
          return None;
        }
      }
      predicted := predicted + [Cell(frame, false)];
      cursorOffset := SaturatingAdd(cursorOffset, 1);
      displayedCells := SaturatingAdd(displayedCells, 1);
      rollbackCells := SaturatingAdd(rollbackCells, 1);
      overlayActive := true;
      var tokens := if overwrite then [] else [InsertCharacter];
      tokens := tokens + [Underline, Glyph(scalar)];
      tokens := tokens + [if context.Some? then Rendition(context.value.attributes) else NoUnderline];
      assert tokens == PrintedTokens(overwrite, scalar,
                                     if context.Some? then Rendition(context.value.attributes) else NoUnderline);
      return Some(tokens);
    }

    method ShowBackspace() returns (output: Option<seq<Token>>)
      modifies this
      ensures Value() == PredictBackspace(old(Value())).0 && output == PredictBackspace(old(Value())).1
    {
      if cursorOffset == 0 || cursorOffset != |predicted| { return None; }
      if latestAcknowledgement.Some? && predicted[|predicted| - 1].frame <= latestAcknowledgement.value { return None; }
      if overwrite {
        InvalidateSpan();
        return None;
      }
      predicted := predicted[..|predicted| - 1];
      cursorOffset := cursorOffset - 1;
      displayedCells := SaturatingSub(displayedCells, 1);
      rollbackCells := SaturatingSub(rollbackCells, 1);
      overlayActive := true;
      return Some([CursorLeft, DeleteCharacters(1)]);
    }

    method ShowLeft() returns (output: Option<seq<Token>>)
      modifies this
      ensures Value() == PredictLeft(old(Value())).0 && output == PredictLeft(old(Value())).1
    {
      if cursorOffset == 0 { return None; }
      cursorOffset, overlayActive := cursorOffset - 1, true;
      return Some([CursorLeft]);
    }

    method ShowRight() returns (output: Option<seq<Token>>)
      modifies this
      ensures Value() == PredictRight(old(Value())).0 && output == PredictRight(old(Value())).1
    {
      if cursorOffset >= |predicted| { return None; }
      cursorOffset, overlayActive := cursorOffset + 1, true;
      return Some([CursorRight]);
    }

    method Show(frame: u64, action: Action, context: Option<Context>) returns (output: Option<seq<Token>>)
      requires Valid()
      modifies this
      ensures Value() == Predicted(old(Value()), frame, action, context).0
      ensures output == Predicted(old(Value()), frame, action, context).1
    {
      hide PredictPrintable, PredictBackspace, PredictLeft, PredictRight, Invalidated, CellsInOrder, FramesInOrder;
      match action {
        case Backspace => output := ShowBackspace();
        case Left => output := ShowLeft();
        case Right => output := ShowRight();
        case Barrier => output := None;
        case _ =>
          if Printed(action).Some? {
            output := ShowPrintable(frame, Printed(action).value, context);
          } else {
            InvalidateSpan();
            output := None;
          }
      }
    }

    method Attempt(frame: u64, action: Action, context: Option<Context>) returns (output: Option<seq<Token>>)
      requires Valid()
      modifies this
      ensures Value() == Attempted(old(Value()), frame, action, context).0
      ensures output == Attempted(old(Value()), frame, action, context).1
    {
      hide Predicted, Inv;
      output := Show(frame, action, context);
      if output.Some? {
        pending := pending + [frame];
      }
    }

    method OfferForFrameWithContext(frame: u64, action: Action, context: Option<Context>)
      returns (output: Option<seq<Token>>)
      requires Valid()
      modifies this
      ensures Valid()
      ensures Value() == Offer(old(Value()), frame, action, context).0
      ensures output == Offer(old(Value()), frame, action, context).1
    {
      OfferKeepsInv(Value(), frame, action, context);
      ghost var s := Value();
      if highestFrameId.Some? && frame < highestFrameId.value { return None; }
      LaterFrame(Value(), frame);
      hide Inv, Attempted, Invalidated;
      highestFrameId := Some(frame);
      assert Value() == s.(highest := Some(frame));
      if action == Barrier {
        InvalidateSpan();
        return None;
      }
      var enabled := match display
        case Adaptive => roundTripMilliseconds.Some? && roundTripMilliseconds.value >= ADAPTIVE_DISPLAY_MILLISECONDS
        case Always => true
        case Never => false;
      if !enabled || reconciliationRequired { return None; }
      if |pending| >= MAXIMUM_PENDING_PREDICTIONS || |predicted| >= MAXIMUM_PENDING_PREDICTIONS {
        InvalidateSpan();
        return None;
      }
      output := Attempt(frame, action, context);
    }

    method BuildLocalReconciliation() returns (tokens: Option<seq<Token>>)
      ensures tokens == LocalReconciliation(Value())
    {
      if lineContext.None? { return None; }
      var context := lineContext.value;
      var output := [];
      if rollbackCells != 0 {
        var home := MoveTo(Min(context.row + 1, U16_MAX), Min(context.column + 1, U16_MAX));
        output := [home, DeleteCharacters(rollbackCells)];
        assert output + [RestoreCursor(context.cursorState)]
            == [home, DeleteCharacters(rollbackCells), RestoreCursor(context.cursorState)];
      } else {
        assert output + [RestoreCursor(context.cursorState)] == [RestoreCursor(context.cursorState)];
      }
      return Some(output + [RestoreCursor(context.cursorState)]);
    }

    method TakeReconciliation() returns (reconciliation: Reconciliation)
      requires Valid()
      modifies this
      ensures Valid() && Value() == Reconciled(old(Value())).0 && reconciliation == Reconciled(old(Value())).1
    {
      ReconciledKeepsInv(Value());
      hide Inv, LocalReconciliation;
      if !overlayActive && !reconciliationRequired { return Nothing; }
      var local := None;
      if !overwrite { local := BuildLocalReconciliation(); }
      displayedCells, pending, predicted, cursorOffset := 0, [], [], 0;
      overlayActive, reconciliationRequired, rollbackCells, lineContext := false, false, 0, None;
      return if local.None? then Redraw else Local(local.value);
    }

    method AcknowledgeThrough(id: u64)
      requires Valid()
      modifies this`latestAcknowledgement, this`pending, this`predicted
      ensures Valid() && Value() == Acknowledge(old(Value()), id)
    {
      AcknowledgeKeepsInv(Value(), id);
      hide Inv;
      if highestFrameId.None? { return; }
      if id > highestFrameId.value || (latestAcknowledgement.Some? && id <= latestAcknowledgement.value) { return; }
      latestAcknowledgement := Some(id);
      while pending != [] && pending[0] <= id
        invariant PopThrough(pending, id) == PopThrough(old(pending), id)
        invariant predicted == old(predicted) && latestAcknowledgement == Some(id)
        decreases |pending|
      {
        pending := pending[1..];
      }
      for i := 0 to |predicted|
        invariant pending == PopThrough(old(pending), id) && latestAcknowledgement == Some(id)
        invariant |predicted| == |old(predicted)|
        invariant forall k :: 0 <= k < i ==> predicted[k] == MarkedThrough(old(predicted), id)[k]
        invariant forall k :: i <= k < |predicted| ==> predicted[k] == old(predicted)[k]
      {
        if predicted[i].frame <= id {
          predicted := predicted[i := predicted[i].(acknowledged := true)];
        }
      }
      assert predicted == MarkedThrough(old(predicted), id);
    }

    /** A line counts as acknowledged only when every cell still predicted is. */
    method LineConfidence() returns (acknowledged: Option<bool>)
      ensures acknowledged == if predicted == [] then None
                              else Some(forall i :: 0 <= i < |predicted| ==> predicted[i].acknowledged)
    {
      if predicted == [] { return None; }
      for i := 0 to |predicted|
        invariant forall k :: 0 <= k < i ==> predicted[k].acknowledged
      {
        if !predicted[i].acknowledged { return Some(false); }
      }
      return Some(true);
    }
  }
}
