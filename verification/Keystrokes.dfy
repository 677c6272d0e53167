/** When a keystroke is shown ahead of the server, and what is forgotten when it is not, in the user's terms. */
module Keystrokes {
  import opened Prelude
  import opened Predict

  /** The setting asks for predictions: always, or from a round trip of 20 milliseconds on. */
  predicate Wanted(s: Overlay) {
    s.display == Always || (s.display == Adaptive && s.roundTrip.Some? && s.roundTrip.value >= 20)
  }

  /** The character a key stands for, control characters of either range and deletion left out. */
  function Character(action: Action): Option<nat> {
    match action
    case PrintableAscii(code) => if 0x20 <= code < 0x7f then Some(code as nat) else None
    case PrintableUtf8(code) => if 0x20 <= code < 0x7f || 0xa0 <= code then Some(code) else None
    case _ => None
  }

  /** Where the shown span starts: where it was first anchored, or where the cursor is now. */
  function Home(s: Overlay, context: Context): Context {
    if s.context.Some? then s.context.value else context
  }

  /** The cursor is still where the span starts from, and after one more cell a column is left. */
  predicate OnTheLine(s: Overlay, context: Context) {
    var home := Home(s, context);
    && home.row == context.row && home.column == context.column && home.columns == context.columns
    && home.column + s.cursorOffset + 1 < home.columns
  }

  predicate AtEnd(s: Overlay) {
    s.cursorOffset == |s.predicted|
  }

  /** The last cell shown can still be taken back. */
  predicate CanTakeBack(s: Overlay) {
    s.predicted != [] && (s.acknowledged.Some? ==> s.acknowledged.value < s.predicted[|s.predicted| - 1].frame)
  }

  /** The key has a place in what is shown. */
  predicate HasPlace(s: Overlay, action: Action, context: Option<Context>) {
    match action
    case Barrier => false
    case Left => 0 < s.cursorOffset
    case Right => s.cursorOffset < |s.predicted|
    case Backspace => AtEnd(s) && CanTakeBack(s) && !s.overwrite
    case _ => Character(action).Some? && AtEnd(s) && (context.Some? ==> OnTheLine(s, context.value))
  }

  /** The key is looked at: it is not older than one seen, and predictions are wanted and not waiting for a redraw. */
  predicate IsConsidered(s: Overlay, frame: u64) {
    (s.highest.Some? ==> s.highest.value <= frame) && Wanted(s) && !s.required
  }

  predicate HasRoom(s: Overlay) {
    |s.pending| < 1024 && |s.predicted| < 1024
  }

  /** A key is shown exactly when it is looked at, there is room, and it has its place. */
  lemma ShownIff(s: Overlay, frame: u64, action: Action, context: Option<Context>)
    requires Inv(s)
    ensures Offer(s, frame, action, context).1.Some?
            <==> IsConsidered(s, frame) && HasRoom(s) && HasPlace(s, action, context)
  {
    hide CellsInOrder, FramesInOrder;
  }

  /** What is shown afterwards. */
  lemma ShownLeaves(s: Overlay, frame: u64, action: Action, context: Option<Context>)
    requires Inv(s) && Offer(s, frame, action, context).1.Some?
    ensures var next := Offer(s, frame, action, context).0;
            && next.pending == s.pending + [frame] && next.highest == Some(frame) && next.active
            && next.predicted == (if action == Backspace then s.predicted[..|s.predicted| - 1]
                                  else if Character(action).Some? then s.predicted + [Cell(frame, false)]
                                  else s.predicted)
            && next.cursorOffset == s.cursorOffset + (if action in {Backspace, Left} then -1 else 1)
            && next.context == (if Character(action).Some? && s.context.None? then context else s.context)
            && next.acknowledged == s.acknowledged && !next.required
  {
    hide CellsInOrder, FramesInOrder;
  }

  /** Everything not confirmed has to be given up: the key could change the line in ways that cannot be shown. */
  predicate GivesUp(s: Overlay, frame: u64, action: Action, context: Option<Context>) {
    (s.highest.Some? ==> s.highest.value <= frame)
    && (action == Barrier
        || (IsConsidered(s, frame)
            && (!HasRoom(s)
                || match action
                   case Barrier => true
                   case Left => false
                   case Right => false
                   case Backspace => AtEnd(s) && CanTakeBack(s) && s.overwrite
                   case _ => Character(action).None?
                             || (AtEnd(s) && context.Some? && !OnTheLine(s, context.value)))))
  }

  /** What giving everything up leaves. */
  predicate GaveUp(s: Overlay, frame: u64, next: Overlay) {
    && next.highest == Some(frame) && next.pending == [] && next.predicted == [] && next.cursorOffset == 0
    && next.required == (s.required || s.active) && next.active == s.active
    && next.rollbackCells == s.rollbackCells && next.acknowledged == s.acknowledged
  }

  lemma UnplacedLeaves(s: Overlay, frame: u64, action: Action, context: Option<Context>)
    requires Inv(s) && HasRoom(s) && action != Barrier
    requires var seen := s.(highest := Some(frame)); Attempted(seen, frame, action, context).1.None?
    ensures var next := Attempted(s.(highest := Some(frame)), frame, action, context).0;
            if action.Backspace? && AtEnd(s) && CanTakeBack(s) && s.overwrite then GaveUp(s, frame, next)
            else if !action.Backspace? && !action.Left? && !action.Right?
                    && (Character(action).None? || (AtEnd(s) && context.Some? && !OnTheLine(s, context.value)))
            then GaveUp(s, frame, next)
            else next == s.(highest := Some(frame))
  {
    hide CellsInOrder, FramesInOrder;
  }

  /**
   A key that is not shown is noted by its frame, unless it is old, and nothing else changes unless
   all is given up.
   */
  lemma UnshownLeaves(s: Overlay, frame: u64, action: Action, context: Option<Context>)
    requires Inv(s) && Offer(s, frame, action, context).1.None?
    ensures var next := Offer(s, frame, action, context).0;
            if s.highest.Some? && frame < s.highest.value then next == s
            else if GivesUp(s, frame, action, context) then GaveUp(s, frame, next)
            else next == s.(highest := Some(frame))
  {
    if IsConsidered(s, frame) && HasRoom(s) && action != Barrier { UnplacedLeaves(s, frame, action, context); }
    hide CellsInOrder, FramesInOrder, Attempted, OnTheLine, CanTakeBack, Character;
  }

  /** Overwriting, a key replaces the cell under the cursor, underlined, and moves on; the rendition is as before. */
  lemma OverwritingShows(restore: seq<byte> -> (nat, Pen), s: Overlay, frame: u64, action: Action, context: Context,
                         line: Line)
    requires Inv(s) && s.overwrite && Character(action).Some? && Offer(s, frame, action, Some(context)).1.Some?
    requires line.cursor + 1 < |line.cells|
    ensures var after := AfterOutput(restore, line, Offer(s, frame, action, Some(context)).1);
            && after.cells == line.cells[line.cursor := Shown(Character(action).value, line.pen.(underlined := true))]
            && after.cursor == line.cursor + 1 && after.row == line.row && after.pen == Pen(false, context.attributes)
  {
    OverwritingTokens(s, frame, action, context);
    ThreeTokens(restore, line, Character(action).value, context.attributes);
    hide Offer, Inv, ApplyAll;
  }

  lemma OverwritingTokens(s: Overlay, frame: u64, action: Action, context: Context)
    requires s.overwrite && Character(action).Some? && Offer(s, frame, action, Some(context)).1.Some?
    ensures Offer(s, frame, action, Some(context)).1
            == Some([Underline, Glyph(Character(action).value), Rendition(context.attributes)])
  {
  }

  lemma ThreeTokens(restore: seq<byte> -> (nat, Pen), line: Line, glyph: nat, bytes: seq<byte>)
    requires line.cursor + 1 < |line.cells|
    ensures ApplyAll(restore, line, [Underline, Glyph(glyph), Rendition(bytes)])
            == line.(cells := line.cells[line.cursor := Shown(glyph, line.pen.(underlined := true))],
                     cursor := line.cursor + 1, pen := Pen(false, bytes))
  {
    hide ApplyAll;
    var pressed := Apply(restore, line, Underline);
    var written := Apply(restore, pressed, Glyph(glyph));
    ApplyFirst(restore, line, [Underline, Glyph(glyph), Rendition(bytes)], [Glyph(glyph), Rendition(bytes)]);
    ApplyFirst(restore, pressed, [Glyph(glyph), Rendition(bytes)], [Rendition(bytes)]);
    ApplyFirst(restore, written, [Rendition(bytes)], []);
  }

  /** What was shown is undone locally exactly when it was inserted at a known place; overwritten, it takes a redraw. */
  lemma ReconcilesIff(s: Overlay)
    requires Inv(s)
    ensures var (next, r) := Reconciled(s);
            && (r.Nothing? <==> !s.active)
            && (r.Redraw? <==> s.active && (s.overwrite || s.context.None?))
            && (r.Nothing? ==> next == s)
            && (!r.Nothing? ==> next == New(s.display, s.overwrite).(
                                  roundTrip := s.roundTrip, highest := s.highest, acknowledged := s.acknowledged))
  {
    hide CellsInOrder, FramesInOrder;
  }

  /** An acknowledgement counts exactly when it is above the last one and of a frame that has been offered. */
  lemma CountsIff(s: Overlay, id: u64)
    requires Inv(s)
    ensures var next := Acknowledge(s, id);
            if s.highest.Some? && id <= s.highest.value && (s.acknowledged.Some? ==> s.acknowledged.value < id)
            then next.acknowledged == Some(id) && |next.predicted| == |s.predicted|
                 && (forall k :: 0 <= k < |s.predicted| ==>
                       next.predicted[k].frame == s.predicted[k].frame
                       && (next.predicted[k].acknowledged <==>
                           s.predicted[k].acknowledged || s.predicted[k].frame <= id))
                 && next == s.(acknowledged := Some(id), pending := next.pending, predicted := next.predicted)
            else next == s
  {
    hide CellsInOrder, FramesInOrder, PopThrough;
  }
}
