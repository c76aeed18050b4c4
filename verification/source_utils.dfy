/** `SourceUtils`: the helpers that convert between editor positions and
    offsets into a document, and the edit applier that replays a batch of
    Language Server Protocol change events onto a text buffer while moving
    the tracked coverage sections of the document by the change in lines. */
module SourceUtils {
  import opened Protocol
  import opened TextMap
  import opened Coverage
  import opened Surrogates

  /** The result of undoing the last insertion: the text without it, the
      characters removed and the character where they started. */
  datatype SourceFix = SourceFix(text: string, removedCharacters: string, characterIdx: int)

  /** A source section of the language runtime in its one-based coordinates,
      with its characters. */
  datatype SourceSection = SourceSection(startLine: nat, startColumn: nat, endLine: nat, endColumn: nat,
                                         characters: string)

  /** The runtime numbers lines and columns from one. */
  predicate OneBased(s: SourceSection)
  {
    s.startLine >= 1 && s.startColumn >= 1 && s.endLine >= 1 && s.endColumn >= 1
  }

  // ---------------------------------------------------------------------
  // Small helpers

  /** `endsWithNewline`: false for the empty text, otherwise whether the
      last character is a terminator, which is the line index's `finalNL`. */
  function EndsWithNewline(source: string): (ends: bool)
    ensures ends <==> FinalNL(source)
    ensures ends ==> NewlineCount(source) > 0
  {
    if !(source == []) && source[|source| - 1] == '\n' then
      NewlineCountLast(source);
      true
    else false
  }

  /** `isLineValid` for a zero-based line: valid exactly when the one-based
      line after it has a start in the line index, one line per terminator
      plus the first. */
  function IsLineValid(zeroBasedLine: int, source: string): (valid: bool)
    ensures valid <==> 0 <= zeroBasedLine <= NewlineCount(source)
  {
    LineCountCoversNewlines(source);
    && zeroBasedLine >= 0
    && (|| zeroBasedLine < LineCount(source)
        || (zeroBasedLine == LineCount(source) && EndsWithNewline(source))
        || (zeroBasedLine == 0 && LineCount(source) == 0))
  }

  /** `zeroBasedLineToOneBasedLine` (its warning is console output); a valid
      line lands in the domain of `LineStartOffset`. */
  function ZeroBasedLineToOneBasedLine(line: int, source: string): (r: int)
    ensures IsLineValid(line, source) ==> 1 <= r <= NewlineCount(source) + 1
    ensures r - 1 == line
  {
    line + 1
  }

  /** The offset of a zero-based editor position: its line's start plus its
      character. */
  function PositionOffset(t: string, p: Position): (r: nat)
    requires p.line + 1 <= NewlineCount(t) + 1
    ensures r >= LineStartOffset(t, p.line + 1)
  {
    LineStartOffset(t, p.line + 1) + p.character
  }

  lemma PositionOffsetOnLine(t: string, p: Position, line: nat)
    requires p.line + 1 == line <= NewlineCount(t) + 1
    ensures PositionOffset(t, p) == LineStartOffset(t, line) + p.character
  {
  }

  /** `sourceSectionToRange`: one-based coordinates become zero-based; the
      end column is kept as the exclusive end, one less when the section's
      text ends in a line terminator; no section gives the empty range at
      the start of the document. */
  function SourceSectionToRange(section: Option<SourceSection>): (r: Range)
    requires section.Some? ==> OneBased(section.value)
    ensures section.None? ==> r == DocumentStart
    ensures section.Some? ==> r.start == Position(section.value.startLine - 1, section.value.startColumn - 1)
    ensures section.Some? ==> r.end.line == section.value.endLine - 1
    ensures section.Some? ==> r.end.character + (if EndsWithNewline(section.value.characters) then 1 else 0)
                              == section.value.endColumn
  {
    match section
    case None => Range(Position(0, 0), Position(0, 0))
    case Some(s) =>
      var endColumn := if EndsWithNewline(s.characters) then s.endColumn - 1 else s.endColumn;
      Range(Position(s.startLine - 1, s.startColumn - 1), Position(s.endLine - 1, endColumn))
  }

  /** The section the runtime reports for the non-empty character span
      `[charIndex, charIndex + charLength)`: start and end line and column
      of its first and last character, counted from one. */
  function SectionAt(t: string, charIndex: nat, charLength: nat): (s: SourceSection)
    requires 1 <= charLength && charIndex + charLength <= |t|
    ensures OneBased(s) && s.characters == t[charIndex..charIndex + charLength]
    ensures s.startLine <= NewlineCount(t) + 1 && s.endLine <= NewlineCount(t) + 1
    ensures NewlineCount(t[..charIndex]) == s.startLine - 1
    ensures LineStartOffset(t, s.startLine) + s.startColumn - 1 == charIndex
    ensures NewlineCount(t[..charIndex + charLength - 1]) == s.endLine - 1
    ensures LineStartOffset(t, s.endLine) + s.endColumn - 1 == charIndex + charLength - 1
  {
    var last := charIndex + charLength - 1;
    var startLine := OffsetToLine(t, charIndex);
    var endLine := OffsetToLine(t, last);
    SourceSection(startLine, charIndex - LineStartOffset(t, startLine) + 1,
                  endLine, last - LineStartOffset(t, endLine) + 1,
                  t[charIndex..charIndex + charLength])
  }

  /** The last character of a section is the last character of its span. */
  lemma SectionLastCharacter(t: string, charIndex: nat, charLength: nat)
    requires 1 <= charLength && charIndex + charLength <= |t|
    ensures EndsWithNewline(SectionAt(t, charIndex, charLength).characters) <==> t[charIndex + charLength - 1] == '\n'
  {
    var c := t[charIndex..charIndex + charLength];
    assert c[|c| - 1] == t[charIndex + charLength - 1];
  }

  /** The editor range of a section covers exactly its characters, without
      a final line terminator. */
  lemma SectionRangeCoversSection(t: string, charIndex: nat, charLength: nat)
    requires 1 <= charLength && charIndex + charLength <= |t|
    ensures var r := SourceSectionToRange(Some(SectionAt(t, charIndex, charLength)));
            && r.start.line + 1 <= NewlineCount(t) + 1
            && r.end.line + 1 <= NewlineCount(t) + 1
            && PositionOffset(t, r.start) == charIndex
            && PositionOffset(t, r.end) == charIndex + charLength - (if t[charIndex + charLength - 1] == '\n' then 1 else 0)
  {
    var s := SectionAt(t, charIndex, charLength);
    SectionLastCharacter(t, charIndex, charLength);
    var r := SourceSectionToRange(Some(s));
    PositionOffsetOnLine(t, r.start, s.startLine);
    PositionOffsetOnLine(t, r.end, s.endLine);
  }

  /** `convertLineAndColumnToOffset`: the line start plus the column counted
      from one, where columns 0 and 1 both mean the line start. A line the
      index does not have is rejected. */
  function ConvertLineAndColumnToOffset(source: string, oneBasedLineNumber: int, column: int): (r: Result<nat>)
    ensures r.Ok? <==> 1 <= oneBasedLineNumber <= NewlineCount(source) + 1
    ensures r.Err? ==> r.failure == IndexOutOfBounds
    ensures r.Ok? ==> LineStartOffset(source, oneBasedLineNumber) <= r.value
    ensures r.Ok? && column <= 1 ==> r.value == LineStartOffset(source, oneBasedLineNumber)
  {
    if !(1 <= oneBasedLineNumber <= NewlineCount(source) + 1) then Err(IndexOutOfBounds)
    else
      var offset := LineStartOffset(source, oneBasedLineNumber);
      Ok(if column > 0 then offset + column - 1 else offset)
  }

  /** Converting a section's start back gives the offset of its first
      character, and columns 0 and 1 agree. */
  lemma ConvertInvertsSection(t: string, charIndex: nat, charLength: nat)
    requires 1 <= charLength && charIndex + charLength <= |t|
    ensures var s := SectionAt(t, charIndex, charLength);
            && ConvertLineAndColumnToOffset(t, s.startLine, s.startColumn) == Ok(charIndex)
            && ConvertLineAndColumnToOffset(t, s.startLine, 0) == ConvertLineAndColumnToOffset(t, s.startLine, 1)
  {
  }

  // ---------------------------------------------------------------------
  // The edit applier

  /** The number of lines a text spans as `updateCoverageData` counts them:
      the recorded lines, plus one for the empty line after a final
      terminator, plus one for the empty text. */
  function LinesSpanned(s: string): (n: nat)
    ensures n == NewlineCount(s) + 1
  {
    LineCountCoversNewlines(s);
    LineCount(s) + (if FinalNL(s) then 1 else 0) + (if s == [] then 1 else 0)
  }

  /** `newLineModification`: the lines the new text spans minus the lines
      the replaced text spanned, which is the change in the number of
      terminators. */
  function LineDelta(newText: string, oldText: string): (d: int)
    ensures d == NewlineCount(newText) - NewlineCount(oldText)
  {
    (LinesSpanned(newText) as int) - LinesSpanned(oldText)
  }

  /** The offsets a range event replaces in the buffer `buf`; `text` is the
      text the batch started from. Three cases: the range starts past the
      last line (an append, whose shape the source asserts), it ends past
      the last line (the end is the length of the ORIGINAL text), or both
      ends are on recorded lines. */
  function ReplaceBounds(buf: string, text: string, range: Range): (r: Result<(nat, nat)>)
    ensures r.Err? ==> r.failure == AssertionViolated
  {
    var startLine := range.start.line + 1;
    var endLine := range.end.line + 1;
    var lines := LineCount(buf);
    LineCountCoversNewlines(buf);
    if lines < startLine then
      if && range.start.character == 0
         && (FinalNL(buf) || lines == 0)
         && lines < endLine
         && range.end.character == 0
      then Ok((|buf|, |buf|))
      else Err(AssertionViolated)
    else if lines < endLine then
      Ok((PositionOffset(buf, range.start), |text|))
    else
      Ok((PositionOffset(buf, range.start), PositionOffset(buf, range.end)))
  }

  /** `StringBuilder.replace`: a begin past the end or past `end` throws;
      `end` is clamped to the length. */
  function Splice(buf: string, begin: nat, end: nat, s: string): (r: Result<string>)
    ensures r.Ok? <==> begin <= |buf| && begin <= end
    ensures r.Err? ==> r.failure == IndexOutOfBounds
    ensures r.Ok? ==> var kept := if end < |buf| then end else |buf|;
                      && |r.value| == |buf| + |s| - (kept - begin)
                      && r.value[..begin] == buf[..begin]
                      && r.value[begin..begin + |s|] == s
                      && r.value[begin + |s|..] == buf[kept..]
  {
    if begin > |buf| || begin > end then Err(IndexOutOfBounds)
    else
      var kept := if end < |buf| then end else |buf|;
      var r := buf[..begin] + s + buf[kept..];
      assert r[..begin] == buf[..begin];
      assert r[begin..begin + |s|] == s;
      assert r[begin + |s|..] == buf[kept..];
      Ok(r)
  }

  /** One event applied to the buffer: an event without a range replaces the
      whole buffer, a range event is spliced in. */
  function ApplyEvent(buf: string, text: string, event: ChangeEvent): (r: Result<string>)
    ensures event.range.None? ==> r == Ok(event.text)
    ensures event.range.Some? && r.Ok? ==> ReplaceBounds(buf, text, event.range.value).Ok?
  {
    match event.range
    case None => Ok(event.text)
    case Some(range) =>
      match ReplaceBounds(buf, text, range)
      case Err(f) => Err(f)
      case Ok(bounds) => Splice(buf, bounds.0, bounds.1, event.text)
  }

  /** The text a batch produces when no coverage is tracked: the events in
      order, each over the buffer the earlier ones left; the first failure
      ends the batch. */
  function ApplyText(events: seq<ChangeEvent>, text: string, buf: string): (r: Result<string>)
    ensures events == [] ==> r == Ok(buf)
    decreases |events|
  {
    if events == [] then Ok(buf)
    else
      match ApplyEvent(buf, text, events[0])
      case Err(f) => Err(f)
      case Ok(next) => ApplyText(events[1..], text, next)
  }

  /** `updateCoverageData` on the coverage map alone: the removed text is
      read from the ORIGINAL text at the offsets computed on the buffer (a
      bad pair throws from `substring`); when the line count changes, the
      two relocation passes run over a snapshot of the keys. */
  function CoverageUpdate(cov: CoverageMap, text: string, newText: string, range: Range, begin: nat, end: nat,
                          includes: (Section, Range) -> bool, behind: (Section, Range) -> bool): (r: Relocated)
    ensures !(begin <= end <= |text|) ==> r == Relocated(Some(IndexOutOfBounds), cov)
    ensures begin <= end <= |text| && NewlineCount(newText) == NewlineCount(text[begin..end])
            ==> r == Relocated(None, cov)
    ensures r.failure == None || r.failure == Some(AssertionViolated) || r.failure == Some(IndexOutOfBounds)
  {
    if !(begin <= end <= |text|) then Relocated(Some(IndexOutOfBounds), cov)
    else
      var delta := LineDelta(newText, text[begin..end]);
      if delta == 0 then Relocated(None, cov)
      else Relocate(cov, KeyOrder(cov.Keys), range, delta, includes, behind)
  }

  /** A batch's outcome: the text or the failure that ended it, and the
      coverage map as far as the batch got. */
  datatype Applied = Applied(result: Result<string>, sections: CoverageMap)

  /** One iteration of `applyTextDocumentChanges`: the splice, then, when
      coverage is tracked and present, its relocation. */
  function EventStep(event: ChangeEvent, text: string, buf: string, tracking: bool, cov: CoverageMap,
                     includes: (Section, Range) -> bool, behind: (Section, Range) -> bool): (r: Applied)
    ensures r.result.Ok? ==> r.result == ApplyEvent(buf, text, event)
    ensures ApplyEvent(buf, text, event).Err? ==> r == Applied(ApplyEvent(buf, text, event), cov)
    ensures !tracking || cov == map[] || event.range.None? ==> r == Applied(ApplyEvent(buf, text, event), cov)
  {
    var next := ApplyEvent(buf, text, event);
    if next.Err? || event.range.None? || !tracking || cov == map[] then Applied(next, cov)
    else
      var range := event.range.value;
      var bounds := ReplaceBounds(buf, text, range).value;
      var u := CoverageUpdate(cov, text, event.text, range, bounds.0, bounds.1, includes, behind);
      if u.failure.Some? then Applied(Err(u.failure.value), u.sections)
      else Applied(next, u.sections)
  }

  /** `applyTextDocumentChanges` as a function of the batch, the original
      text, the current buffer, whether a surrogate tracks coverage, and
      its coverage map. */
  function ApplyChanges(events: seq<ChangeEvent>, text: string, buf: string, tracking: bool, cov: CoverageMap,
                        includes: (Section, Range) -> bool, behind: (Section, Range) -> bool): (r: Applied)
    ensures events == [] ==> r == Applied(Ok(buf), cov)
    decreases |events|
  {
    if events == [] then Applied(Ok(buf), cov)
    else
      var step := EventStep(events[0], text, buf, tracking, cov, includes, behind);
      if step.result.Err? then step
      else ApplyChanges(events[1..], text, step.result.value, tracking, step.sections, includes, behind)
  }

  // ---------------------------------------------------------------------
  // Properties of the edit applier

  /** An event without a range makes the buffer exactly its text, whatever
      the buffer held. */
  lemma WholeReplacementForgetsBuffer(events: seq<ChangeEvent>, text: string, buf1: string, buf2: string)
    requires events != [] && events[0].range.None?
    ensures ApplyText(events, text, buf1) == ApplyText(events, text, buf2) == ApplyText(events[1..], text, events[0].text)
  {
  }

  /** Both ends on recorded lines: the replaced span is cut out and the new
      text put in its place, changing the length by the difference. */
  lemma NormalSplice(buf: string, text: string, event: ChangeEvent)
    requires event.range.Some?
    requires event.range.value.start.line + 1 <= LineCount(buf)
    requires event.range.value.end.line + 1 <= LineCount(buf)
    ensures event.range.value.end.line + 1 <= NewlineCount(buf) + 1
    ensures var b := PositionOffset(buf, event.range.value.start);
            var e := PositionOffset(buf, event.range.value.end);
            b <= e <= |buf| ==>
              && ApplyEvent(buf, text, event) == Ok(buf[..b] + event.text + buf[e..])
              && |ApplyEvent(buf, text, event).value| == |buf| + |event.text| - (e - b)
  {
    LineCountCoversNewlines(buf);
    var b := PositionOffset(buf, event.range.value.start);
    var e := PositionOffset(buf, event.range.value.end);
    if b <= e <= |buf| {
      var r := ApplyEvent(buf, text, event);
      assert r.value == buf[..b] + event.text + buf[e..];
    }
  }

  /** A range starting past the last recorded line is an append: it succeeds
      exactly when both characters are 0, the end is past the last line and
      the buffer ends in a terminator or is empty, and then the text is
      added at the end; otherwise an assertion fails. */
  lemma AppendPastEnd(buf: string, text: string, event: ChangeEvent)
    requires event.range.Some? && LineCount(buf) < event.range.value.start.line + 1
    ensures var range := event.range.value;
            var shaped := && range.start.character == 0 && range.end.character == 0
                          && (FinalNL(buf) || buf == [])
                          && LineCount(buf) < range.end.line + 1;
            && (shaped ==> ApplyEvent(buf, text, event) == Ok(buf + event.text))
            && (!shaped ==> ApplyEvent(buf, text, event) == Err(AssertionViolated))
  {
    var range := event.range.value;
    LineCountCoversNewlines(buf);
    if FinalNL(buf) {
      NewlineCountLast(buf);
    }
    assert LineCount(buf) == 0 <==> buf == [];
    if && range.start.character == 0 && range.end.character == 0
       && (FinalNL(buf) || buf == []) && LineCount(buf) < range.end.line + 1 {
      assert buf[..|buf|] + event.text + buf[|buf|..] == buf + event.text;
    }
  }

  /** A range that starts on a recorded line but ends past the last one
      replaces from its start up to the length of the batch's ORIGINAL
      text. On the first event of a batch the buffer is that text, so the
      rest of the buffer is replaced. */
  lemma EndPastLastLine(buf: string, event: ChangeEvent)
    requires event.range.Some?
    requires event.range.value.start.line + 1 <= LineCount(buf) < event.range.value.end.line + 1
    ensures var b := PositionOffset(buf, event.range.value.start);
            b <= |buf| ==> ApplyEvent(buf, buf, event) == Ok(buf[..b] + event.text)
  {
    LineCountCoversNewlines(buf);
    var b := PositionOffset(buf, event.range.value.start);
    if b <= |buf| {
      assert buf[..b] + event.text + buf[|buf|..] == buf[..b] + event.text;
    }
  }

  /** A batch is its first part followed by the rest, the rest running over
      the buffer the first part produced. */
  lemma {:induction false} ApplyTextConcat(a: seq<ChangeEvent>, b: seq<ChangeEvent>, text: string, buf: string)
    ensures ApplyText(a + b, text, buf) ==
              match ApplyText(a, text, buf)
              case Err(f) => Err(f)
              case Ok(mid) => ApplyText(b, text, mid)
    decreases |a|
  {
    if a == [] {
      assert a + b == b;
    } else {
      assert (a + b)[0] == a[0];
      assert (a + b)[1..] == a[1..] + b;
      match ApplyEvent(buf, text, a[0])
      case Err(f) =>
      case Ok(next) => ApplyTextConcat(a[1..], b, text, next);
    }
  }

  /** Tracking coverage never changes the text a batch produces; it can only
      end the batch early. Without tracking the batch is the text-only
      replay and the map is untouched. */
  lemma {:induction false} TrackingOnlyAborts(events: seq<ChangeEvent>, text: string, buf: string, tracking: bool,
                                              cov: CoverageMap, includes: (Section, Range) -> bool,
                                              behind: (Section, Range) -> bool)
    ensures var r := ApplyChanges(events, text, buf, tracking, cov, includes, behind);
            && (r.result.Ok? ==> r.result == ApplyText(events, text, buf))
            && (ApplyText(events, text, buf).Err? ==> r.result.Err?)
            && (!tracking ==> r == Applied(ApplyText(events, text, buf), cov))
    decreases |events|
  {
    if events != [] {
      var step := EventStep(events[0], text, buf, tracking, cov, includes, behind);
      if step.result.Ok? {
        TrackingOnlyAborts(events[1..], text, step.result.value, tracking, step.sections, includes, behind);
      }
    }
  }

  /** The line delta of an edit is the change in the number of line
      terminators; with no change nothing is relocated, otherwise the two
      passes run over the key snapshot (see `RelocateIdeal` for where they
      move each section). */
  lemma CoverageUpdateDelta(cov: CoverageMap, text: string, newText: string, range: Range, begin: nat, end: nat,
                            includes: (Section, Range) -> bool, behind: (Section, Range) -> bool)
    requires begin <= end <= |text|
    ensures var delta := LineDelta(newText, text[begin..end]);
            && delta == NewlineCount(newText) - NewlineCount(text[begin..end])
            && (delta == 0 ==> CoverageUpdate(cov, text, newText, range, begin, end, includes, behind) == Relocated(None, cov))
            && (delta != 0 ==> CoverageUpdate(cov, text, newText, range, begin, end, includes, behind)
                               == Relocate(cov, KeyOrder(cov.Keys), range, delta, includes, behind))
  {
  }

  /** In a batch, the end-past-last-line case of a later event still uses
      the original text's length. Starting from an empty document, filling
      it with "a\nb" and then replacing from line 1 to a line past the end
      fails in `StringBuilder.replace`, where the buffer suggests "a\nX". */
  lemma StaleLengthInBatch()
    ensures var events := [ChangeEvent(None, None, "a\nb"),
                           ChangeEvent(Some(Range(Position(1, 0), Position(5, 0))), None, "X")];
            && ApplyText(events, "", "") == Err(IndexOutOfBounds)
            && ApplyText(events[1..], "a\nb", "a\nb") == Ok("a\nX")
  {
    var events := [ChangeEvent(None, None, "a\nb"),
                   ChangeEvent(Some(Range(Position(1, 0), Position(5, 0))), None, "X")];
    var t := "a\nb";
    assert NewlineCount(t[2..]) == 0;
    assert NewlineCount(t[1..]) == 1;
    assert NewlineCount(t) == 1;
    assert LineCount(t) == 2;
    assert t[..1] == "a";
    assert t[1..] == "\nb";
    assert t[1..][..0] == [];
    assert LineStartOffset(t, 2) == 2 by {
      assert t[..2] == "a\n";
      assert NewlineCount(t[..2]) == 1 by {
        assert t[..2][1..] == "\n";
        assert t[..2][1..][1..] == [];
      }
      LineStartOffsetUnique(t, 2, 2);
    }
    assert events[1..] == [events[1]];
    assert ApplyEvent("", "", events[0]) == Ok(t);
    assert ReplaceBounds(t, "", events[1].range.value) == Ok((2, 0));
    assert t[..2] + "X" + t[3..] == "a\nX";
  }

  /** Line-only stand-ins for the region tests, used by the example below:
      a section encloses an edit on lines it spans and lies behind an edit
      that ends on an earlier line. */
  predicate LinesEnclose(s: Section, r: Range)
  {
    s.startLine <= r.start.line && r.end.line <= s.endLine
  }

  predicate LinesBelow(s: Section, r: Range)
  {
    r.end.line < s.startLine
  }

  /** Inserting two line terminators above a section on lines 5-7 moves it,
      columns and payload unchanged, to lines 7-9. */
  lemma SectionBelowInsertionMoves(d: CoverageData)
    ensures CoverageUpdate(map[Section(5, 0, 7, 0) := [d]], "ab", "\n\n", Range(Position(3, 0), Position(3, 0)),
                           1, 1, LinesEnclose, LinesBelow)
            == Relocated(None, map[Section(7, 0, 9, 0) := [d]])
  {
    var at := Range(Position(3, 0), Position(3, 0));
    var k := Section(5, 0, 7, 0);
    var cov := map[k := [d]];
    assert cov.Keys == {k};
    assert KeyOrder({k}) == [k];
    assert NewlineCount("\n\n") == 2 by {
      assert "\n\n"[1..] == "\n";
      assert "\n"[1..] == [];
    }
    assert "ab"[1..1] == [];
    assert [k][1..] == [];
    assert RelocatePass(cov, [k], at, 2, LinesEnclose, false) == Relocated(None, cov);
    assert Shift(k, 2, true) == Section(7, 0, 9, 0);
    assert ReplaceKey(cov, k, Section(7, 0, 9, 0)) == map[Section(7, 0, 9, 0) := [d]];
    assert RelocatePass(cov, [k], at, 2, LinesBelow, true) == Relocated(None, map[Section(7, 0, 9, 0) := [d]]);
  }

  // ---------------------------------------------------------------------
  // Undoing the last insertion

  /** The passes in ascending key order over two one-line sections of the
      same columns two lines apart, below an edit that adds two lines: the
      first section's shifted copy is the second one's key, so `replace`
      overwrites the second list and then moves the first list on. */
  lemma AscendingOrderDropsPayload(d1: CoverageData, d2: CoverageData)
    ensures Relocate(map[Section(5, 3, 5, 8) := [d1], Section(7, 3, 7, 8) := [d2]],
                     [Section(5, 3, 5, 8), Section(7, 3, 7, 8)], Range(Position(3, 0), Position(3, 0)), 2,
                     LinesEnclose, LinesBelow)
            == Relocated(None, map[Section(9, 3, 9, 8) := [d1]])
  {
    var a, b, c := Section(5, 3, 5, 8), Section(7, 3, 7, 8), Section(9, 3, 9, 8);
    var at := Range(Position(3, 0), Position(3, 0));
    var cov := map[a := [d1], b := [d2]];
    assert !LinesEnclose(a, at) && !LinesEnclose(b, at) && LinesBelow(a, at) && LinesBelow(b, at);
    assert Shift(a, 2, true) == b && Shift(b, 2, true) == c;
    assert [a, b][1..] == [b] && [b][1..] == [];
    assert RelocatePass(cov, [b], at, 2, LinesEnclose, false) == Relocated(None, cov);
    assert ReplaceKey(cov, a, b) == map[b := [d1]];
    assert ReplaceKey(map[b := [d1]], b, c) == map[c := [d1]];
    assert RelocatePass(map[b := [d1]], [b], at, 2, LinesBelow, true) == Relocated(None, map[c := [d1]]);
  }

  /** The same two sections in descending key order: the second section
      moves away first, and both lists arrive intact. */
  lemma DescendingOrderKeepsPayloads(d1: CoverageData, d2: CoverageData)
    ensures Relocate(map[Section(5, 3, 5, 8) := [d1], Section(7, 3, 7, 8) := [d2]],
                     [Section(7, 3, 7, 8), Section(5, 3, 5, 8)], Range(Position(3, 0), Position(3, 0)), 2,
                     LinesEnclose, LinesBelow)
            == Relocated(None, map[Section(9, 3, 9, 8) := [d2], Section(7, 3, 7, 8) := [d1]])
  {
    var a, b, c := Section(5, 3, 5, 8), Section(7, 3, 7, 8), Section(9, 3, 9, 8);
    var at := Range(Position(3, 0), Position(3, 0));
    var cov := map[a := [d1], b := [d2]];
    assert !LinesEnclose(a, at) && !LinesEnclose(b, at) && LinesBelow(a, at) && LinesBelow(b, at);
    assert Shift(a, 2, true) == b && Shift(b, 2, true) == c;
    assert [b, a][1..] == [a] && [a][1..] == [];
    assert RelocatePass(cov, [a], at, 2, LinesEnclose, false) == Relocated(None, cov);
    assert ReplaceKey(cov, b, c) == map[a := [d1], c := [d2]];
    assert ReplaceKey(map[a := [d1], c := [d2]], a, b) == map[c := [d2], b := [d1]];
    assert RelocatePass(map[a := [d1], c := [d2]], [a], at, 2, LinesBelow, true) == Relocated(None, map[c := [d2], b := [d1]]);
  }

  /** What `updateCoverageData` does with those two sections: the model's
      ascending key order takes the losing order, so the payload of the
      section on line 7 is gone and nothing is tracked there any more. */
  lemma SectionCollisionDropsPayload(d1: CoverageData, d2: CoverageData)
    ensures CoverageUpdate(map[Section(5, 3, 5, 8) := [d1], Section(7, 3, 7, 8) := [d2]], "ab", "\n\n",
                           Range(Position(3, 0), Position(3, 0)), 1, 1, LinesEnclose, LinesBelow)
            == Relocated(None, map[Section(9, 3, 9, 8) := [d1]])
  {
    var a, b := Section(5, 3, 5, 8), Section(7, 3, 7, 8);
    var cov := map[a := [d1], b := [d2]];
    assert cov.Keys == {a, b};
    assert KeyOrder({a, b}) == [a, b] by {
      assert IsLeast(a, {a, b}) && !IsLeast(b, {a, b});
      assert {a, b} - {a} == {b};
      assert KeyOrder({b}) == [b];
    }
    assert NewlineCount("\n\n") == 2 by {
      assert "\n\n"[1..] == "\n";
      assert "\n"[1..] == [];
    }
    assert "ab"[1..1] == [];
    AscendingOrderDropsPayload(d1, d2);
  }

  /** The event that removes what `lastChange` inserted at `range`: from the
      range's start to its end moved right by the inserted length, replaced
      by nothing. */
  function RemovalEvent(lastChange: ChangeEvent, range: Range): (r: ChangeEvent)
    ensures r.range.Some? && r.range.value.start == range.start && r.text == []
    ensures r.range.value.end.line == range.end.line
    ensures r.range.value.end.character - range.end.character == |lastChange.text|
    ensures r.rangeLength == Some(|lastChange.text|)
  {
    var n := |lastChange.text|;
    ChangeEvent(Some(Range(range.start, Position(range.end.line, range.end.character + n))), Some(n), [])
  }

  /** A text without terminators adds no line. */
  lemma {:induction false} NoTerminatorNoLine(s: string)
    requires forall i :: 0 <= i < |s| ==> s[i] != '\n'
    ensures NewlineCount(s) == 0
    decreases |s|
  {
    if s != [] {
      assert forall i :: 0 <= i < |s[1..]| ==> s[1..][i] == s[i + 1];
      NoTerminatorNoLine(s[1..]);
    }
  }

  /** Inserting a text without terminators keeps the terminators, does not
      lose a line, and keeps every line start up to the insertion point. */
  lemma InsertedLines(buf: string, line: nat, b: nat, s: string)
    requires forall i :: 0 <= i < |s| ==> s[i] != '\n'
    requires line + 1 <= LineCount(buf) && LineStartOffset(buf, line + 1) <= b <= |buf|
    ensures var inserted := buf[..b] + s + buf[b..];
            && NewlineCount(inserted) == NewlineCount(buf)
            && LineCount(buf) <= LineCount(inserted)
            && LineStartOffset(inserted, line + 1) == LineStartOffset(buf, line + 1)
  {
    var inserted := buf[..b] + s + buf[b..];
    assert NewlineCount(inserted) == NewlineCount(buf) by {
      NoTerminatorNoLine(s);
      NewlineCountAppend(buf[..b], s);
      NewlineCountAppend(buf[..b] + s, buf[b..]);
      NewlineCountAppend(buf[..b], buf[b..]);
      assert buf[..b] + buf[b..] == buf;
    }
    assert LineCount(buf) <= LineCount(inserted) by {
      LineCountCoversNewlines(buf);
      LineCountCoversNewlines(inserted);
      if buf != [] && !FinalNL(buf) {
        if b < |buf| {
          assert inserted[|inserted| - 1] == buf[|buf| - 1];
        } else if s != [] {
          assert inserted[|inserted| - 1] == s[|s| - 1];
        } else {
          assert inserted == buf;
        }
      }
    }
    assert LineStartOffset(inserted, line + 1) == LineStartOffset(buf, line + 1) by {
      assert inserted[..b] == buf[..b];
      LineStartOffsetPrefix(buf, inserted, line + 1, b);
    }
  }

  /** A one-event batch whose splice succeeds and whose relocation moves
      nothing yields the spliced text and the map unchanged. */
  lemma SingleEventKeepsCoverage(range: Range, rangeLength: Option<nat>, newText: string, text: string, buf: string,
                                 cov: CoverageMap, b: nat, e: nat, result: string,
                                 includes: (Section, Range) -> bool, behind: (Section, Range) -> bool)
    requires ReplaceBounds(buf, text, range) == Ok((b, e))
    requires Splice(buf, b, e, newText) == Ok(result)
    requires CoverageUpdate(cov, text, newText, range, b, e, includes, behind) == Relocated(None, cov)
    ensures ApplyChanges([ChangeEvent(Some(range), rangeLength, newText)], text, buf, true, cov, includes, behind)
            == Applied(Ok(result), cov)
  {
    assert [ChangeEvent(Some(range), rangeLength, newText)][1..] == [];
  }

  /** Inserting a single-line text at a position on a recorded line splices
      it in and moves no tracked section. */
  lemma InsertionApplies(buf: string, line: nat, character: nat, s: string, cov: CoverageMap,
                         includes: (Section, Range) -> bool, behind: (Section, Range) -> bool)
    requires line + 1 <= LineCount(buf)
    requires PositionOffset(buf, Position(line, character)) <= |buf|
    requires forall i :: 0 <= i < |s| ==> s[i] != '\n'
    ensures var at := Range(Position(line, character), Position(line, character));
            var b := PositionOffset(buf, Position(line, character));
            ApplyChanges([ChangeEvent(Some(at), None, s)], buf, buf, true, cov, includes, behind)
            == Applied(Ok(buf[..b] + s + buf[b..]), cov)
  {
    var p := Position(line, character);
    var at := Range(p, p);
    var b := PositionOffset(buf, p);
    NoTerminatorNoLine(s);
    assert ReplaceBounds(buf, buf, at) == Ok((b, b));
    assert Splice(buf, b, b, s) == Ok(buf[..b] + s + buf[b..]);
    assert buf[b..b] == [];
    assert CoverageUpdate(cov, buf, s, at, b, b, includes, behind) == Relocated(None, cov);
    SingleEventKeepsCoverage(at, None, s, buf, buf, cov, b, b, buf[..b] + s + buf[b..], includes, behind);
  }

  /** The removal event's range covers exactly the inserted characters. */
  lemma RemovalBounds(buf: string, line: nat, character: nat, s: string)
    requires line + 1 <= LineCount(buf)
    requires PositionOffset(buf, Position(line, character)) <= |buf|
    requires forall i :: 0 <= i < |s| ==> s[i] != '\n'
    ensures var b := PositionOffset(buf, Position(line, character));
            var inserted := buf[..b] + s + buf[b..];
            ReplaceBounds(inserted, inserted, Range(Position(line, character), Position(line, character + |s|)))
            == Ok((b, b + |s|))
  {
    var p, q := Position(line, character), Position(line, character + |s|);
    var b := PositionOffset(buf, p);
    var inserted := buf[..b] + s + buf[b..];
    InsertedLines(buf, line, b, s);
    assert line + 1 <= LineCount(inserted);
    PositionOffsetOnLine(inserted, p, line + 1);
    PositionOffsetOnLine(inserted, q, line + 1);
    assert PositionOffset(inserted, p) == b;
    assert PositionOffset(inserted, q) == b + |s|;
  }

  /** Cutting the inserted characters out again gives the buffer back, and
      since they hold no terminator no section moves. */
  lemma RemovalRestores(buf: string, b: nat, s: string, range: Range, cov: CoverageMap,
                        includes: (Section, Range) -> bool, behind: (Section, Range) -> bool)
    requires b <= |buf|
    requires forall i :: 0 <= i < |s| ==> s[i] != '\n'
    requires ReplaceBounds(buf[..b] + s + buf[b..], buf[..b] + s + buf[b..], range) == Ok((b, b + |s|))
    ensures var inserted := buf[..b] + s + buf[b..];
            ApplyChanges([ChangeEvent(Some(range), Some(|s|), [])], inserted, inserted, true, cov, includes, behind)
            == Applied(Ok(buf), cov)
  {
    var inserted := buf[..b] + s + buf[b..];
    assert inserted[..b] == buf[..b];
    assert inserted[b + |s|..] == buf[b..];
    assert inserted[..b] + [] + inserted[b + |s|..] == buf;
    assert inserted[b..b + |s|] == s;
    NoTerminatorNoLine(s);
    SingleEventKeepsCoverage(range, Some(|s|), [], inserted, inserted, cov, b, b + |s|, buf, includes, behind);
  }

  /** Applying the removal event of that insertion to the text it produced
      gives the buffer back and moves no tracked section. */
  lemma RemovalApplies(buf: string, line: nat, character: nat, s: string, cov: CoverageMap,
                       includes: (Section, Range) -> bool, behind: (Section, Range) -> bool)
    requires line + 1 <= LineCount(buf)
    requires PositionOffset(buf, Position(line, character)) <= |buf|
    requires forall i :: 0 <= i < |s| ==> s[i] != '\n'
    ensures var at := Range(Position(line, character), Position(line, character));
            var b := PositionOffset(buf, Position(line, character));
            var inserted := buf[..b] + s + buf[b..];
            ApplyChanges([RemovalEvent(ChangeEvent(Some(at), None, s), at)], inserted, inserted, true, cov, includes, behind)
            == Applied(Ok(buf), cov)
  {
    var p, q := Position(line, character), Position(line, character + |s|);
    var at := Range(p, p);
    assert RemovalEvent(ChangeEvent(Some(at), None, s), at) == ChangeEvent(Some(Range(p, q)), Some(|s|), []);
    RemovalBounds(buf, line, character, s);
    RemovalRestores(buf, PositionOffset(buf, p), s, Range(p, q), cov, includes, behind);
  }

  /** Inserting a single-line text at a position on a recorded line and then
      applying the removal event over the result restores the buffer, and
      neither step moves any tracked section. */
  lemma InsertionRoundTrip(buf: string, line: nat, character: nat, s: string, cov: CoverageMap,
                           includes: (Section, Range) -> bool, behind: (Section, Range) -> bool)
    requires forall i :: 0 <= i < |s| ==> s[i] != '\n'
    requires line + 1 <= LineCount(buf)
    requires PositionOffset(buf, Position(line, character)) <= |buf|
    ensures var at := Range(Position(line, character), Position(line, character));
            var insertion := ChangeEvent(Some(at), None, s);
            var first := ApplyChanges([insertion], buf, buf, true, cov, includes, behind);
            && first.result.Ok? && first.sections == cov
            && ApplyChanges([RemovalEvent(insertion, at)], first.result.value, first.result.value, true, cov, includes, behind)
               == Applied(Ok(buf), cov)
  {
    InsertionApplies(buf, line, character, s, cov, includes, behind);
    RemovalApplies(buf, line, character, s, cov, includes, behind);
  }

  // ---------------------------------------------------------------------
  // The imperative operations

  /** The coverage map of a possibly absent surrogate. */
  function CoverageOf(surrogate: TextDocumentSurrogate?): CoverageMap
    reads if surrogate != null then {surrogate.coverage} else {}
  {
    if surrogate != null then surrogate.coverage.sections else map[]
  }

  /** One stream pipeline of `updateCoverageData`: every snapshot section
      that `matches` the edited range is re-keyed to its shifted copy
      through `replace`, in snapshot order. */
  method ShiftMatchingSections(surrogate: TextDocumentSurrogate, locations: seq<Section>, range: Range, delta: int,
                               matches: (Section, Range) -> bool, both: bool)
    returns (failure: Option<Failure>)
    modifies surrogate.coverage
    ensures Relocated(failure, surrogate.coverage.sections)
            == RelocatePass(old(surrogate.coverage.sections), locations, range, delta, matches, both)
  {
    for i := 0 to |locations|
      invariant RelocatePass(surrogate.coverage.sections, locations[i..], range, delta, matches, both)
                == RelocatePass(old(surrogate.coverage.sections), locations, range, delta, matches, both)
    {
      assert locations[i..][1..] == locations[i + 1..];
      var location := locations[i];
      if matches(location, range) {
        if location !in surrogate.coverage.sections {
          return Some(AssertionViolated);
        }
        surrogate.Replace(location, Shift(location, delta, both));
      }
    }
    assert locations[|locations|..] == [];
    return None;
  }

  /** `updateCoverageData`: computes the line delta and, when it is not 0,
      re-keys first the sections that include the edit and then those
      behind it, walking the same snapshot of the keys twice. */
  method UpdateCoverageData(surrogate: TextDocumentSurrogate, text: string, newText: string, range: Range,
                            replaceBegin: nat, replaceEnd: nat,
                            includes: (Section, Range) -> bool, behind: (Section, Range) -> bool)
    returns (failure: Option<Failure>)
    modifies surrogate.coverage
    ensures Relocated(failure, surrogate.coverage.sections)
            == CoverageUpdate(old(surrogate.coverage.sections), text, newText, range, replaceBegin, replaceEnd, includes, behind)
  {
    var linesNewText := LinesSpanned(newText);
    if !(replaceBegin <= replaceEnd <= |text|) {
      return Some(IndexOutOfBounds);
    }
    var oldText := text[replaceBegin..replaceEnd];
    var linesOldText := LinesSpanned(oldText);
    var newLineModification := (linesNewText as int) - linesOldText;
    assert newLineModification == LineDelta(newText, oldText);
    if newLineModification == 0 {
      return None;
    }
    var locations := surrogate.GetCoverageLocations();
    assert CoverageUpdate(old(surrogate.coverage.sections), text, newText, range, replaceBegin, replaceEnd, includes, behind)
           == Relocate(old(surrogate.coverage.sections), locations, range, newLineModification, includes, behind);
    failure := ShiftMatchingSections(surrogate, locations, range, newLineModification, includes, false);
    if failure.Some? {
      return;
    }
    failure := ShiftMatchingSections(surrogate, locations, range, newLineModification, behind, true);
  }

  /** `applyTextDocumentChanges`: replays the batch onto a `StringBuilder`
      holding `text`, relocating the surrogate's coverage after every splice
      while it has any. */
  method ApplyTextDocumentChanges(list: seq<ChangeEvent>, text: string, surrogate: TextDocumentSurrogate?,
                                  includes: (Section, Range) -> bool, behind: (Section, Range) -> bool)
    returns (r: Result<string>)
    modifies if surrogate != null then {surrogate.coverage} else {}
    ensures Applied(r, CoverageOf(surrogate))
            == ApplyChanges(list, text, text, surrogate != null, old(CoverageOf(surrogate)), includes, behind)
    ensures r.Ok? || surrogate == null ==> r == ApplyText(list, text, text)
  {
    TrackingOnlyAborts(list, text, text, surrogate != null, CoverageOf(surrogate), includes, behind);
    ghost var start := CoverageOf(surrogate);
    var sb := text;
    for i := 0 to |list|
      invariant ApplyChanges(list[i..], text, sb, surrogate != null, CoverageOf(surrogate), includes, behind)
                == ApplyChanges(list, text, text, surrogate != null, start, includes, behind)
    {
      assert list[i..][1..] == list[i + 1..];
      var event := list[i];
      if event.range.None? {
        sb := event.text;
        continue;
      }
      var range := event.range.value;
      var bounds := ReplaceBounds(sb, text, range);
      if bounds.Err? {
        return Err(bounds.failure);
      }
      var replaceBegin, replaceEnd := bounds.value.0, bounds.value.1;
      var spliced := Splice(sb, replaceBegin, replaceEnd, event.text);
      if spliced.Err? {
        return Err(spliced.failure);
      }
      sb := spliced.value;
      if surrogate != null && surrogate.HasCoverageData() {
        var failure := UpdateCoverageData(surrogate, text, event.text, range, replaceBegin, replaceEnd, includes, behind);
        if failure.Some? {
          return Err(failure.value);
        }
      }
    }
    assert list[|list|..] == [];
    return Ok(sb);
  }

  /** `removeLastTextInsertion`: undoes the surrogate's last change by
      applying its removal event to the editor text (relocating coverage as
      any edit does). A missing last change or range is a null
      dereference. */
  method RemoveLastTextInsertion(surrogate: TextDocumentSurrogate, originalCharacter: int, built: string,
                                 includes: (Section, Range) -> bool, behind: (Section, Range) -> bool)
    returns (fix: Result<SourceFix>)
    modifies surrogate`editorText, surrogate.coverage
    ensures var last := surrogate.lastChange;
            last.None? || last.value.range.None? ==>
              && fix == Err(NullDereference)
              && surrogate.editorText == old(surrogate.editorText)
              && surrogate.coverage.sections == old(surrogate.coverage.sections)
    ensures var last := surrogate.lastChange;
            last.Some? && last.value.range.Some? ==>
              var editor := if old(surrogate.editorText).Some? then old(surrogate.editorText).value else built;
              var range := last.value.range.value;
              var applied := ApplyChanges([RemovalEvent(last.value, range)], editor, editor, true,
                                          old(surrogate.coverage.sections), includes, behind);
              && surrogate.editorText == Some(editor)
              && surrogate.coverage.sections == applied.sections
              && fix == match applied.result
                        case Err(f) => Err(f)
                        case Ok(t) => Ok(SourceFix(t, last.value.text, range.start.character))
  {
    if surrogate.lastChange.None? || surrogate.lastChange.value.range.None? {
      return Err(NullDereference);
    }
    var lastChange := surrogate.lastChange.value;
    var range := lastChange.range.value;
    var replacementEvent := RemovalEvent(lastChange, range);
    var editor := surrogate.GetEditorText(built);
    var codeBeforeLastChange := ApplyTextDocumentChanges([replacementEvent], editor, surrogate, includes, behind);
    if codeBeforeLastChange.Err? {
      return Err(codeBeforeLastChange.failure);
    }
    var characterIdx := originalCharacter - (originalCharacter - range.start.character);
    return Ok(SourceFix(codeBeforeLastChange.value, lastChange.text, characterIdx));
  }
}
