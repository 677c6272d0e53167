/** What becomes of a title command, a cancelled one, and any other command, from opener to terminator. */
module TitleCommands {
  import opened Prelude
  import opened Title

  // ---- Commands, as they come in --------------------------------------------

  /** Either form of the operating-system-command opener. */
  predicate IsOpener(opener: Bytes) {
    opener == [0x1b, 0x5d] || opener == [0x9d]
  }

  /** No number or 0 names both titles, 1 the icon's and 2 the window's. */
  predicate Names(name: Bytes, command: Command) {
    match command
    case IconAndWindow => name == [] || name == [0x30]
    case Icon => name == [0x31]
    case Window => name == [0x32]
  }

  /** A bell, or a string terminator of one or two bytes. */
  predicate IsTerminator(end: Bytes) {
    end == [0x07] || end == [0x9c] || end == [0x1b, 0x5c]
  }

  /** Nothing in it ends a command. */
  predicate IsBody(body: Bytes) {
    && (forall i :: 0 <= i < |body| ==> body[i] !in {0x07, 0x9c, 0x18, 0x1a})
    && (forall i :: 0 < i < |body| && body[i - 1] == 0x1b ==> body[i] != 0x5c)
  }

  /** The title that is kept: up to 1,024 bytes, and escapes beyond them are not counted. */
  function Kept(title: Bytes): Option<Bytes> {
    if |title| <= 1024 then Some(title)
    else if forall i :: 1024 <= i < |title| ==> title[i] == 0x1b then Some(title[..1024])
    else None
  }

  /** The pair of titles a command leaves. */
  function Retitled(f: Filter, command: Command, title: Bytes): (Bytes, Bytes) {
    match command
    case IconAndWindow => (title, title)
    case Icon => (title, f.window)
    case Window => (f.icon, title)
  }

  // "[mosh] ", put in front of the window's title.
  const MOSH: Bytes := [0x5b, 0x6d, 0x6f, 0x73, 0x68, 0x5d, 0x20]

  /**
   What the host shows for the pair: a window title that begins with the mark, and an icon title
   that equals it or is as sent.
   */
  predicate IsShown(shown: (Bytes, Bytes), icon: Bytes, window: Bytes, marked: bool) {
    && shown.1 == (if marked then MOSH else []) + window
    && shown.0 == (if icon == window then shown.1 else icon)
  }

  /** The command, or the two, that give the host this pair. */
  function Setting(shown: (Bytes, Bytes)): Bytes {
    if shown.0 == shown.1 then [0x1b, 0x5d, 0x30, 0x3b] + shown.1 + [0x07]
    else [0x1b, 0x5d, 0x31, 0x3b] + shown.0 + [0x07] + ([0x1b, 0x5d, 0x32, 0x3b] + shown.1 + [0x07])
  }

  // ---- Reading a title ------------------------------------------------------

  /** The automaton after `title`, however long. */
  function AfterTitle(command: Command, title: Bytes): State {
    if |title| <= 1024 then Reading(command, title)
    else if Kept(title).Some? then TitleText(command, title[..1024], true)
    else DiscardTitle(title[|title| - 1] == ESC)
  }

  lemma BodyFront(body: Bytes, b: byte)
    requires IsBody(body + [b])
    ensures IsBody(body) && !Ends(b) && (EndsInEscape(body) ==> b != BACKSLASH)
  {
    assert forall i :: 0 <= i < |body| ==> (body + [b])[i] == body[i];
    assert (body + [b])[|body|] == b;
  }

  lemma ReadsBeyond(f: Filter, command: Command, title: Bytes, b: byte)
    requires f.state == AfterTitle(command, title) && IsBody(title + [b]) && |title| >= 1024
    ensures Step(f, b) == (f.(state := AfterTitle(command, title + [b])), [])
  {
    BodyFront(title, b);
    var more := title + [b];
    assert more[..|title|] == title && more[|title|] == b;
    assert forall i :: 0 <= i < |title| ==> more[i] == title[i];
    assert more[..1024] == title[..1024];
    if EndsInEscape(title) { assert title == title[..|title| - 1] + [ESC]; }
  }

  lemma ReadsOne(f: Filter, command: Command, title: Bytes, b: byte)
    requires f.state == AfterTitle(command, title) && IsBody(title + [b])
    ensures Step(f, b) == (f.(state := AfterTitle(command, title + [b])), [])
  {
    hide Step, Reading;
    if |title| < 1024 { ReadingOne(f, command, title, b); } else { ReadsBeyond(f, command, title, b); }
  }

  lemma {:induction false} ReadsAll(f: Filter, command: Command, title: Bytes)
    requires f.state == TitleText(command, [], false) && IsBody(title)
    ensures Run(f, title) == (f.(state := AfterTitle(command, title)), [])
    decreases |title|
  {
    var none: Bytes := [];
    assert none + none == none && Reading(command, none) == TitleText(command, none, false);
    hide Step, Reading, AfterTitle, IsBody;
    if title == [] {
      StartsEmpty(command);
    } else {
      var front, last := title[..|title| - 1], title[|title| - 1];
      assert front + [last] == title;
      BodyFront(front, last);
      ReadsAll(f, command, front);
      ReadsOne(f.(state := AfterTitle(command, front)), command, front, last);
      RunSnoc(f, front, last);
    }
  }

  lemma StartsEmpty(command: Command)
    ensures AfterTitle(command, []) == TitleText(command, [], false)
  {
  }

  /** What the filter does with a completed title, or with one too long to keep. */
  function Completed(f: Filter, command: Command, title: Bytes): (Filter, Bytes) {
    if Kept(title).None? then (f.(state := Ground), [])
    else Emitted(WithTitle(f.(state := Ground), command, Kept(title).value))
  }

  lemma EndsByByte(f: Filter, command: Command, title: Bytes, b: byte)
    requires f.state == AfterTitle(command, title)
    ensures b in {BEL, ST} ==> Step(f, b) == Completed(f, command, title)
    ensures b in {CAN, SUB} ==> Step(f, b) == (f.(state := Ground), [])
  {
    if EndsInEscape(title) { assert title == title[..|title| - 1] + [ESC]; }
    hide Emitted, WithTitle;
  }

  lemma EndsByString(f: Filter, command: Command, title: Bytes)
    requires f.state == AfterTitle(command, title) && IsBody(title)
    ensures Run(f, [ESC, BACKSLASH]) == Completed(f, command, title)
  {
    var waiting := f.(state := AfterTitle(command, title + [ESC]));
    assert IsBody(title + [ESC]);
    ReadsOne(f, command, title, ESC);
    EscapeWaits(waiting, command, title);
    TwoBytes(f, ESC, BACKSLASH);
    hide Step, AfterTitle, Completed, IsBody;
    assert [] + Step(waiting, BACKSLASH).1 == Step(waiting, BACKSLASH).1;
  }

  lemma EscapeWaits(f: Filter, command: Command, title: Bytes)
    requires f.state == AfterTitle(command, title + [ESC])
    ensures Step(f, BACKSLASH) == Completed(f, command, title)
  {
    var more := title + [ESC];
    assert more[..|title|] == title && more[|title|] == ESC;
    assert forall i :: 0 <= i < |title| ==> more[i] == title[i];
    if |title| >= 1024 { assert more[..1024] == title[..1024]; }
    if |title| == 1024 { assert title[..1024] == title; }
    hide Emitted, WithTitle;
  }

  lemma TwoBytes(f: Filter, a: byte, b: byte)
    ensures var (f1, o1) := Step(f, a);
            var (f2, o2) := Step(f1, b);
            Run(f, [a, b]) == (f2, o1 + o2)
  {
    hide Step;
    RunSnoc(f, [], a);
    RunSnoc(f, [a], b);
    assert [] + [a] == [a] && [a] + [b] == [a, b] && [] + Step(f, a).1 == Step(f, a).1;
  }

  lemma OneByte(f: Filter, b: byte)
    ensures Run(f, [b]) == Step(f, b)
  {
    hide Step;
    RunSnoc(f, [], b);
    assert [] + [b] == [b] && [] + Step(f, b).1 == Step(f, b).1;
  }

  // ---- Reading a header -----------------------------------------------------

  /** Bytes that only spell the name of a command. */
  predicate IsName(name: Bytes) {
    IsBody(name) && forall i :: 0 <= i < |name| ==> name[i] !in {ESC, SEMICOLON}
  }

  lemma OpenerIsHeld(f: Filter, opener: Bytes)
    requires f.state == Ground && IsOpener(opener)
    ensures Run(f, opener) == (f.(state := OscHeader(opener, false)), [])
  {
    if opener == [0x9d] { OneByte(f, 0x9d); } else { TwoBytes(f, 0x1b, 0x5d); }
    var none: Bytes := [];
    assert none + none == none;
  }

  lemma NameOne(f: Filter, opener: Bytes, name: Bytes, b: byte)
    requires IsOpener(opener) && IsName(name + [b]) && |name| < 16
    requires f.state == OscHeader(opener + name, false)
    ensures Step(f, b) == (f.(state := OscHeader(opener + (name + [b]), false)), [])
  {
    assert (name + [b])[|name|] == b;
    assert opener + name + [b] == opener + (name + [b]);
    OpenerOf(opener, name + [b]);
  }

  lemma OpenerOf(opener: Bytes, name: Bytes)
    requires IsOpener(opener)
    ensures OpenerLength(opener + name) == |opener| && (opener + name)[|opener|..] == name
  {
    assert (opener + name)[0] == opener[0];
    if |opener| == 2 { assert (opener + name)[..2] == opener; }
  }

  lemma {:induction false} NameAll(f: Filter, opener: Bytes, name: Bytes)
    requires f.state == OscHeader(opener, false) && IsOpener(opener) && IsName(name) && |name| <= 16
    ensures Run(f, name) == (f.(state := OscHeader(opener + name, false)), [])
    decreases |name|
  {
    hide Step, IsOpener;
    assert opener + [] == opener;
    if name != [] {
      var front, last := name[..|name| - 1], name[|name| - 1];
      assert front + [last] == name;
      BodyFront(front, last);
      NameAll(f, opener, front);
      NameOne(f.(state := OscHeader(opener + front, false)), opener, front, last);
      RunSnoc(f, front, last);
      var none: Bytes := [];
      assert none + none == none;
    }
  }

  lemma HeaderIsHeld(f: Filter, opener: Bytes, name: Bytes)
    requires f.state == Ground && IsOpener(opener) && IsName(name) && |name| <= 16
    ensures Run(f, opener + name) == (f.(state := OscHeader(opener + name, false)), [])
  {
    hide Step, IsOpener, IsName;
    OpenerIsHeld(f, opener);
    NameAll(f.(state := OscHeader(opener, false)), opener, name);
    RunConcat(f, opener, name);
    var none: Bytes := [];
    assert none + none == none;
  }

  lemma NamedStep(f: Filter, opener: Bytes, name: Bytes, command: Command)
    requires IsOpener(opener) && Names(name, command) && f.state == OscHeader(opener + name, false)
    ensures Step(f, SEMICOLON) == (f.(state := TitleText(command, [], false)), [])
  {
    OpenerOf(opener, name);
  }

  lemma CommandIsOpened(f: Filter, opener: Bytes, name: Bytes, command: Command)
    requires f.state == Ground && IsOpener(opener) && Names(name, command)
    ensures Run(f, opener + name + [SEMICOLON]) == (f.(state := TitleText(command, [], false)), [])
  {
    assert IsName(name) && |name| <= 16;
    hide Step, IsOpener, Names, IsName;
    HeaderIsHeld(f, opener, name);
    NamedStep(f.(state := OscHeader(opener + name, false)), opener, name, command);
    RunSnoc(f, opener + name, SEMICOLON);
    var none: Bytes := [];
    assert none + none == none;
  }

  // ---- From opener to terminator --------------------------------------------

  lemma TitleIsRead(f: Filter, opener: Bytes, name: Bytes, command: Command, title: Bytes, end: Bytes)
    requires f.state == Ground && IsOpener(opener) && Names(name, command) && IsBody(title) && IsTerminator(end)
    ensures Run(f, opener + name + [SEMICOLON] + title + end) == Completed(f, command, title)
  {
    var reading := f.(state := TitleText(command, [], false));
    var read := f.(state := AfterTitle(command, title));
    ReadsAll(reading, command, title);
    if end == [BEL] || end == [ST] {
      EndsByByte(read, command, title, end[0]);
      OneByte(read, end[0]);
    } else {
      EndsByString(read, command, title);
    }
    assert Completed(read, command, title) == Completed(f, command, title);
    assert Run(read, end) == Completed(f, command, title);
    hide Step, Run, AfterTitle, Completed, IsBody, IsOpener, Names, IsTerminator;
    CommandIsOpened(f, opener, name, command);
    RunConcat(f, opener + name + [SEMICOLON], title);
    RunConcat(f, opener + name + [SEMICOLON] + title, end);
    assert [] + [] + Run(read, end).1 == Run(read, end).1;
  }

  lemma CompletedShows(f: Filter, command: Command, title: Bytes, marked: bool)
    requires f.state == Ground && f.prefixActive == marked && Kept(title).Some?
    requires f.displayed == (if f.initialized then Some(ShownTitles(f)) else None)
    ensures var (next, output) := Completed(f, command, title);
            && (next.icon, next.window) == Retitled(f, command, Kept(title).value)
            && next.state == Ground && next.initialized && next.prefixActive == marked && next.displayed.Some?
            && IsShown(next.displayed.value, next.icon, next.window, marked)
            && output == (if f.displayed == next.displayed then [] else Setting(next.displayed.value))
  {
    hide Kept;
  }

  /**
   From a filter between commands that shows what it should, a title command of any form becomes the stored pair
   and is answered with the commands that show it, if the host does not already; a title too long to keep is
   swallowed and changes nothing.
   */
  lemma TitleIsTaken(f: Filter, opener: Bytes, name: Bytes, command: Command, title: Bytes, end: Bytes)
    requires Inv(f) && f.state == Ground && IsOpener(opener) && Names(name, command) && IsBody(title)
    requires IsTerminator(end)
    ensures var (next, output) := Run(f, opener + name + [0x3b] + title + end);
            if Kept(title).None? then next == f && output == []
            else
              && (next.icon, next.window) == Retitled(f, command, Kept(title).value)
              && next.state == Ground && next.prefixActive == f.prefixActive && next.displayed.Some?
              && IsShown(next.displayed.value, next.icon, next.window, f.prefixActive)
              && output == (if f.displayed == next.displayed then [] else Setting(next.displayed.value))
  {
    hide Run, Storable, Kept, IsBody, IsOpener, Names, IsTerminator, Setting, IsShown, Retitled, Emitted;
    TitleIsRead(f, opener, name, command, title, end);
    if Kept(title).Some? { CompletedShows(f, command, title, f.prefixActive); }
  }

  /** A title command that is cancelled is swallowed and changes nothing. */
  lemma CancelledTitleIsDropped(f: Filter, opener: Bytes, name: Bytes, command: Command, title: Bytes, b: byte)
    requires f.state == Ground && IsOpener(opener) && Names(name, command) && IsBody(title) && b in {0x18, 0x1a}
    ensures Run(f, opener + name + [0x3b] + title + [b]) == (f, [])
  {
    var reading := f.(state := TitleText(command, [], false));
    var read := f.(state := AfterTitle(command, title));
    ReadsAll(reading, command, title);
    EndsByByte(read, command, title, b);
    assert f.(state := Ground) == f;
    hide Step, Run, AfterTitle, IsBody, IsOpener, Names;
    CommandIsOpened(f, opener, name, command);
    RunConcat(f, opener + name + [SEMICOLON], title);
    RunSnoc(f, opener + name + [SEMICOLON] + title, b);
    var none: Bytes := [];
    assert none + none == none;
  }

  // ---- Other commands -------------------------------------------------------

  /** Waiting out a command. */
  lemma {:induction false} PassesBody(f: Filter, body: Bytes)
    requires f.state == PassthroughOsc(false) && IsBody(body)
    ensures Run(f, body) == (f.(state := PassthroughOsc(EndsInEscape(body))), body)
    decreases |body|
  {
    if body != [] {
      var front, last := body[..|body| - 1], body[|body| - 1];
      assert front + [last] == body;
      BodyFront(front, last);
      PassesBody(f, front);
      RunSnoc(f, front, last);
    }
  }

  /** It ends at a terminator or where it is cancelled. */
  predicate IsEnd(end: Bytes) {
    IsTerminator(end) || end == [0x18] || end == [0x1a]
  }

  lemma PassesStep(f: Filter, pending: bool, b: byte)
    requires f.state == PassthroughOsc(pending)
    ensures Step(f, b)
            == (f.(state := if (pending && b == BACKSLASH) || Ends(b) then Ground else PassthroughOsc(b == ESC)), [b])
  {
  }

  lemma PassesByte(f: Filter, pending: bool, b: byte)
    requires f.state == PassthroughOsc(pending) && Ends(b)
    ensures Run(f, [b]) == (f.(state := Ground), [b])
  {
    PassesStep(f, pending, b);
    OneByte(f, b);
    hide Step, Run;
  }

  lemma PassesString(f: Filter, pending: bool)
    requires f.state == PassthroughOsc(pending)
    ensures Run(f, [ESC, BACKSLASH]) == (f.(state := Ground), [ESC, BACKSLASH])
  {
    PassesStep(f, pending, ESC);
    PassesStep(f.(state := PassthroughOsc(true)), true, BACKSLASH);
    var first: Bytes, second: Bytes := [ESC], [BACKSLASH];
    assert first + second == [ESC, BACKSLASH];
    TwoBytes(f, ESC, BACKSLASH);
    hide Step, Run;
    assert Step(f, ESC) == (f.(state := PassthroughOsc(true)), first);
  }

  lemma PassesEnd(f: Filter, pending: bool, end: Bytes)
    requires f.state == PassthroughOsc(pending) && IsEnd(end)
    ensures Run(f, end) == (f.(state := Ground), end)
  {
    hide Step, Run;
    if end == [ESC, BACKSLASH] { PassesString(f, pending); } else { PassesByte(f, pending, end[0]); }
  }

  lemma OtherStep(f: Filter, opener: Bytes, name: Bytes)
    requires IsOpener(opener) && f.state == OscHeader(opener + name, false)
    requires !Names(name, IconAndWindow) && !Names(name, Icon) && !Names(name, Window)
    ensures Step(f, SEMICOLON) == (f.(state := PassthroughOsc(false)), opener + name + [SEMICOLON])
  {
    OpenerOf(opener, name);
  }

  /** A command with another name, of at most 16 bytes, comes out as it went in, and the filter is where it was. */
  lemma OtherCommandPasses(f: Filter, opener: Bytes, name: Bytes, body: Bytes, end: Bytes)
    requires f.state == Ground && IsOpener(opener) && IsName(name) && |name| <= 16 && IsBody(body) && IsEnd(end)
    requires !Names(name, IconAndWindow) && !Names(name, Icon) && !Names(name, Window)
    ensures var command := opener + name + [0x3b] + body + end; Run(f, command) == (f, command)
  {
    var waiting := f.(state := PassthroughOsc(false));
    assert f.(state := Ground) == f;
    HeaderIsHeld(f, opener, name);
    OtherStep(f.(state := OscHeader(opener + name, false)), opener, name);
    RunSnoc(f, opener + name, SEMICOLON);
    hide Step, Run, IsBody, IsOpener, Names, IsName, IsEnd;
    PassesBody(waiting, body);
    PassesEnd(waiting.(state := PassthroughOsc(EndsInEscape(body))), EndsInEscape(body), end);
    RunConcat(f, opener + name + [SEMICOLON], body);
    RunConcat(f, opener + name + [SEMICOLON] + body, end);
    assert [] + (opener + name + [SEMICOLON]) == opener + name + [SEMICOLON];
  }

  lemma HeaderEndsByByte(f: Filter, header: Bytes, b: byte)
    requires f.state == OscHeader(header, false) && Ends(b)
    ensures Run(f, [b]) == (f.(state := Ground), header + [b])
  {
    OneByte(f, b);
    hide Run;
  }

  lemma HeaderEndsByString(f: Filter, header: Bytes)
    requires f.state == OscHeader(header, false)
    ensures Run(f, [ESC, BACKSLASH]) == (f.(state := Ground), header + [ESC, BACKSLASH])
  {
    var none: Bytes := [];
    var waiting := f.(state := OscHeader(header, true));
    assert Step(f, ESC) == (waiting, none);
    assert Step(waiting, BACKSLASH) == (f.(state := Ground), header + [ESC, BACKSLASH]);
    assert none + (header + [ESC, BACKSLASH]) == header + [ESC, BACKSLASH];
    TwoBytes(f, ESC, BACKSLASH);
    hide Run, Step;
  }

  lemma HeaderEnds(f: Filter, header: Bytes, end: Bytes)
    requires f.state == OscHeader(header, false) && IsEnd(end)
    ensures Run(f, end) == (f.(state := Ground), header + end)
  {
    hide Run, Step;
    if end == [ESC, BACKSLASH] { HeaderEndsByString(f, header); } else { HeaderEndsByByte(f, header, end[0]); }
  }

  /** A command that ends before any text passes too, whatever its name. */
  lemma BareCommandPasses(f: Filter, opener: Bytes, name: Bytes, end: Bytes)
    requires f.state == Ground && IsOpener(opener) && IsName(name) && |name| <= 16 && IsEnd(end)
    ensures Run(f, opener + name + end) == (f, opener + name + end)
  {
    var held := f.(state := OscHeader(opener + name, false));
    assert f.(state := Ground) == f;
    HeaderIsHeld(f, opener, name);
    HeaderEnds(held, opener + name, end);
    hide Run, Step, IsOpener, IsName, IsEnd;
    RunConcat(f, opener + name, end);
    assert [] + (opener + name + end) == opener + name + end;
  }

  lemma SeventeenthByte(f: Filter, opener: Bytes, name: Bytes, b: byte)
    requires IsOpener(opener) && IsName(name + [b]) && |name| == 16 && f.state == OscHeader(opener + name, false)
    ensures Step(f, b) == (f.(state := PassthroughOsc(false)), opener + (name + [b]))
  {
    assert (name + [b])[|name|] == b;
    assert opener + name + [b] == opener + (name + [b]);
    OpenerOf(opener, name + [b]);
  }

  lemma NamesCut(name: Bytes, i: nat, j: nat)
    requires IsName(name) && i <= j <= |name|
    ensures IsName(name[i..j]) && IsBody(name[i..j]) && !EndsInEscape(name[i..j])
  {
    assert forall k :: 0 <= k < j - i ==> name[i..j][k] == name[i + k];
  }

  lemma SeventeenPass(f: Filter, opener: Bytes, name: Bytes, b: byte)
    requires f.state == Ground && IsOpener(opener) && IsName(name) && IsName(name + [b]) && |name| == 16
    ensures Run(f, opener + name + [b]) == (f.(state := PassthroughOsc(false)), opener + name + [b])
  {
    hide Run, Step, IsOpener, IsName;
    HeaderIsHeld(f, opener, name);
    SeventeenthByte(f.(state := OscHeader(opener + name, false)), opener, name, b);
    RunSnoc(f, opener + name, b);
    assert [] + (opener + (name + [b])) == opener + name + [b];
  }

  /** At most 16 bytes of a name are withheld: a longer one passes, and the rest of its command with it. */
  lemma LongNamePasses(f: Filter, opener: Bytes, name: Bytes)
    requires f.state == Ground && IsOpener(opener) && IsName(name) && |name| > 16
    ensures Run(f, opener + name) == (f.(state := PassthroughOsc(false)), opener + name)
  {
    CutAtSeventeen(opener, name);
    LongNameCut(f, opener, name[0..16], name[16], name[17..|name|]);
  }

  lemma LongNameCut(f: Filter, opener: Bytes, front: Bytes, b: byte, rest: Bytes)
    requires f.state == Ground && IsOpener(opener) && IsName(front) && IsName(front + [b]) && |front| == 16
    requires IsBody(rest) && !EndsInEscape(rest)
    ensures Run(f, opener + front + [b] + rest)
            == (f.(state := PassthroughOsc(false)), opener + front + [b] + rest)
  {
    SeventeenPass(f, opener, front, b);
    PassesBody(f.(state := PassthroughOsc(false)), rest);
    hide Run, Step, IsOpener, IsName, IsBody, EndsInEscape;
    RunConcat(f, opener + front + [b], rest);
  }

  lemma CutAtSeventeen(opener: Bytes, name: Bytes)
    requires IsName(name) && |name| > 16
    ensures opener + name[0..16] + [name[16]] + name[17..|name|] == opener + name
    ensures IsName(name[0..16]) && IsName(name[0..16] + [name[16]])
    ensures IsBody(name[17..|name|]) && !EndsInEscape(name[17..|name|])
  {
    NamesCut(name, 0, 16);
    NamesCut(name, 0, 17);
    NamesCut(name, 17, |name|);
    hide IsName, IsBody, EndsInEscape;
    assert name[0..16] + [name[16]] == name[0..17];
    assert name[0..17] + name[17..|name|] == name;
  }
}
