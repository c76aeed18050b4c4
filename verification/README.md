# Incremental text documents of the Truffle language server

This project models the document state that the Truffle language server
keeps for each open file, and proves properties of that model:

- **The edit applier** (`SourceUtils.applyTextDocumentChanges`) replays a
  batch of Language Server Protocol change events onto a `StringBuilder`.
  - An event's zero-based (line, character) range becomes buffer offsets
    through a one-based line-start index, Truffle's `TextMap`.
  - An event without a range replaces the whole buffer.
  - A range that starts past the last line is an append; its shape is
    checked by assertions.
  - A range that ends past the last line replaces up to the length of the
    batch's original text.
  - Otherwise the range is spliced in.
- **Coverage relocation** (`updateCoverageData`): after each splice, the
  tracked coverage sections of the document move by the change in the
  number of lines. Sections that include the edit grow at their end;
  sections behind it move as a whole.
- **The document surrogate** (`TextDocumentSurrogate`) holds:
  - the map from source sections to coverage payloads, with add, clear,
    clear-by-run and re-key;
  - the backlog of edits since the last successful parse;
  - the memoised editor text;
  - URI-based equality;
  - `copy()`, which shares the map and the backlog by reference.
- **The server** (`LSPServer`) keeps:
  - the diagnostics collected per document until they are published;
  - the table of open documents and their language ids;
  - the trace level set by the client;
  - the code lenses it offers.

Modules:

- `Protocol` has the shared value types (positions, ranges, change events,
  `Option`, `Result`, and the `Failure` kinds that stand for Java
  exceptions).
- `TextMap` is the line index over a `seq<char>`.
- `Coverage` has the coverage map operations and the relocation passes as
  functions over map values.
- `Surrogates` has the classes `TextDocumentSurrogate`, `CoverageTable`,
  `ChangeBacklog` and `SourceWrapper`. Their methods update the fields in
  place.
- `SourceUtils` has:
  - the pure helpers;
  - the edit applier as a function `ApplyChanges`;
  - the imperative `ApplyTextDocumentChanges`, `UpdateCoverageData` and
    `RemoveLastTextInsertion`, each proved equal to that function.
- `Server` has the class `LspServer` and the functions that specify its
  methods.

Modelling conventions:

- Java assertions are modelled as enabled.
  - Inside a batch, a failing assertion ends the batch with
    `Err(AssertionViolated)`.
  - An exception from `StringBuilder.replace` or `String.substring` ends
    it with `Err(IndexOutOfBounds)`.
  - At the entry points `replace`, `didClose` and `processChanges`, the
    assertion is a precondition.
- `TextMap`, `SourceLocation` (`MutableSourceSection`) and `CoverageData`
  are not part of this model. They are defined abstractly:
  - `TextMap` is a line index in which a new line starts after every
    `'\n'`. `lineCount` does not count the empty line after a final
    terminator, and an empty text has no lines.
  - A section is a value with four integer coordinates.
  - The region tests `includes` and `behind` are parameters.
- The key order of the `HashMap` behind `getCoverageLocations` is
  unspecified. The model enumerates keys in ascending order.
  `RelocateIdeal` and `DoubleMatchAborts` hold for every duplicate-free
  enumeration, but only when the shifted copies are fresh keys and no two
  of them coincide (`FreshImages`). When a shifted copy is another tracked
  key, the outcome depends on the order, and the ascending order picks the
  one that loses a payload (see below).

Behaviour of the code that the model reproduces rather than corrects:

- Within one batch, the end-past-last-line case uses the length of the
  ORIGINAL text (SourceUtils.java:128), not the buffer's.
  `StaleLengthInBatch` shows a two-event batch that fails because of it.
- The text removed by an event, used to count the lines it spanned, is
  read from the original text. The offsets come from the current buffer
  (SourceUtils.java:136,145).
- Both relocation passes walk the same snapshot of the keys. A section
  that matches both `includes` and `behind` is re-keyed by the first pass.
  The second pass then calls `replace` on a key that is gone, and the
  assertion at TextDocumentSurrogate.java:166 fails. `DoubleMatchAborts`
  proves this.
- A shifted copy can be the key of another tracked section, for example
  two one-line sections with the same columns two lines apart, below an
  edit that adds two lines. If the upper section is visited first,
  `replace` (TextDocumentSurrogate.java:164-168) puts its list under the
  lower section's key, overwriting that list, and the pass then moves
  the key on: the lower section's payload is lost.
  `AscendingOrderDropsPayload` and `SectionCollisionDropsPayload` show
  this for the model's ascending order; `DescendingOrderKeepsPayloads`
  shows that the other order, which a `HashMap` may equally produce,
  keeps both lists.

## Model

| member | source | states |
|---|---|---|
| `TextMap.LineCount` | truffle-lsp/de.hpi.swa.trufflelsp/src/de/hpi/swa/trufflelsp/server/utils/SourceUtils.java:118-120 | the recorded lines are at most one more than the terminators, and an empty text has none, as the append assertions expect of `lineCount` |
| `TextMap.LineStartOffset` | truffle-lsp/de.hpi.swa.trufflelsp/src/de/hpi/swa/trufflelsp/server/utils/SourceUtils.java:127-131 | the start of a one-based line is an offset in the text that is 0 or just after a terminator, with exactly line-1 terminators before it |
| `TextMap.LineStartOffsetUnique` | truffle-lsp/de.hpi.swa.trufflelsp/src/de/hpi/swa/trufflelsp/server/utils/SourceUtils.java:127-131 | that characterisation has a single solution, so the line start is determined by it |
| `TextMap.OffsetToLine` | truffle-lsp/de.hpi.swa.trufflelsp/src/de/hpi/swa/trufflelsp/server/utils/SourceUtils.java:61-74 | the line holding an offset is one more than the terminators before it: it starts at or before the offset, and the next line, if there is one, starts after it |
| `TextMap.LineCountCoversNewlines` | truffle-lsp/de.hpi.swa.trufflelsp/src/de/hpi/swa/trufflelsp/server/utils/SourceUtils.java:144-147 | `lineCount` in terms of terminators, as `updateCoverageData` relies on: equal to them when the text ends in one, one more when a non-empty text does not (a characterisation of the definition, used by the proofs) |
| `Coverage.AddedCoverage` | tools/src/org.graalvm.tools.lsp/src/org/graalvm/tools/lsp/server/utils/TextDocumentSurrogate.java:126-131 | the payload is appended to the section's list, which is created when absent; the keys gain only that section; every other list is unchanged |
| `Coverage.ReplaceKey` | tools/src/org.graalvm.tools.lsp/src/org/graalvm/tools/lsp/server/utils/TextDocumentSurrogate.java:164-168 | the new key maps to exactly the old key's list; the old key is gone unless it is the new one; all other keys keep their lists |
| `Coverage.RunsOf` | tools/src/org.graalvm.tools.lsp/src/org/graalvm/tools/lsp/server/utils/TextDocumentSurrogate.java:121-124 | the set of run URIs holds exactly the coverage URIs of the list's payloads |
| `Coverage.WithoutRun` | tools/src/org.graalvm.tools.lsp/src/org/graalvm/tools/lsp/server/utils/TextDocumentSurrogate.java:148-153 | a payload is kept exactly when it was in the list and belongs to another run |
| `Coverage.WithoutRunAppend` | tools/src/org.graalvm.tools.lsp/src/org/graalvm/tools/lsp/server/utils/TextDocumentSurrogate.java:148-153 | removing a run's payloads distributes over concatenation, so the kept payloads stay in their order |
| `Coverage.WithoutRunNoop` | tools/src/org.graalvm.tools.lsp/src/org/graalvm/tools/lsp/server/utils/TextDocumentSurrogate.java:148-153 | a list with no payload of the run is left exactly as it is |
| `Coverage.ClearedByRun` | tools/src/org.graalvm.tools.lsp/src/org/graalvm/tools/lsp/server/utils/TextDocumentSurrogate.java:145-158 | a section stays tracked exactly when it keeps a payload of another run, and its list is then its old list without the run's payloads |
| `Coverage.ClearedByRunExact` | tools/src/org.graalvm.tools.lsp/src/org/graalvm/tools/lsp/server/utils/TextDocumentSurrogate.java:145-158 | no payload of the cleared run remains, and every payload of another run is still recorded under its section |
| `Coverage.ClearedByRunIdempotent` | tools/src/org.graalvm.tools.lsp/src/org/graalvm/tools/lsp/server/utils/TextDocumentSurrogate.java:145-158 | clearing the same run a second time changes nothing |
| `Coverage.KeyOrder` | tools/src/org.graalvm.tools.lsp/src/org/graalvm/tools/lsp/server/utils/TextDocumentSurrogate.java:160-162 | the snapshot of the key set lists every key exactly once and nothing else |
| `Coverage.Shift` | truffle-lsp/de.hpi.swa.trufflelsp/src/de/hpi/swa/trufflelsp/server/utils/SourceUtils.java:154-162 | columns never change; the end line moves by the delta; the start line moves only for a section behind the edit |
| `Coverage.RelocatePass` | truffle-lsp/de.hpi.swa.trufflelsp/src/de/hpi/swa/trufflelsp/server/utils/SourceUtils.java:152-165 | a pass either completes or stops on the `replace` assertion; it raises no other failure |
| `Coverage.PassMoves` | truffle-lsp/de.hpi.swa.trufflelsp/src/de/hpi/swa/trufflelsp/server/utils/SourceUtils.java:153-165 | when the targets are fresh and distinct, a pass re-keys exactly the matching sections, each to its shifted copy with its own payload list, and leaves every other section and list alone |
| `Coverage.PassAbortsOnMissing` | truffle-lsp/de.hpi.swa.trufflelsp/src/de/hpi/swa/trufflelsp/server/utils/SourceUtils.java:159-163 | a pass that meets a matching section that is no longer a key fails the `replace` assertion |
| `Coverage.Relocate` | truffle-lsp/de.hpi.swa.trufflelsp/src/de/hpi/swa/trufflelsp/server/utils/SourceUtils.java:151-165 | only the `replace` assertion can stop the two passes, and when no snapshot section matches either test the map is left as it is |
| `Coverage.PassWithoutMatches` | truffle-lsp/de.hpi.swa.trufflelsp/src/de/hpi/swa/trufflelsp/server/utils/SourceUtils.java:153-165 | a pass in which no snapshot section matches its test changes nothing and does not fail |
| `Coverage.RelocateIdeal` | truffle-lsp/de.hpi.swa.trufflelsp/src/de/hpi/swa/trufflelsp/server/utils/SourceUtils.java:151-165 | assuming fresh, distinct targets (`FreshImages`) and no section matching both tests, for every snapshot order the two passes succeed and move every section to its image with its payload list intact: nothing is dropped, duplicated or left behind. Without fresh targets the code can drop a payload (`SectionCollisionDropsPayload`) |
| `Coverage.DoubleMatchAborts` | truffle-lsp/de.hpi.swa.trufflelsp/src/de/hpi/swa/trufflelsp/server/utils/SourceUtils.java:152-165 | assuming fresh, distinct targets, a section that both includes and lies behind the edit makes the second pass fail the `replace` assertion, whatever the snapshot order |
| `Surrogates.ChangeBacklog.Add` | tools/src/org.graalvm.tools.lsp/src/org/graalvm/tools/lsp/server/utils/TextDocumentSurrogate.java:109-111 | an event added through the backlog list is appended after the earlier ones |
| `Surrogates.TextDocumentSurrogate.constructor` | tools/src/org.graalvm.tools.lsp/src/org/graalvm/tools/lsp/server/utils/TextDocumentSurrogate.java:44-50 | a new surrogate owns a fresh, empty coverage map and backlog, has no editor text, wrapper or last change, and keeps its URI, language and trigger characters |
| `Surrogates.TextDocumentSurrogate.CopyOf` | tools/src/org.graalvm.tools.lsp/src/org/graalvm/tools/lsp/server/utils/TextDocumentSurrogate.java:33-42 | the copy takes over every field, the coverage map and the backlog by reference, and starts with coverage analysis not done |
| `Surrogates.TextDocumentSurrogate.Copy` | tools/src/org.graalvm.tools.lsp/src/org/graalvm/tools/lsp/server/utils/TextDocumentSurrogate.java:197-199 | the copy is a new object that is equal to the original in both directions and shares its coverage map and backlog |
| `Surrogates.TextDocumentSurrogate.GetEditorText` | tools/src/org.graalvm.tools.lsp/src/org/graalvm/tools/lsp/server/utils/TextDocumentSurrogate.java:60-62 | a memoised text is returned unchanged; otherwise the characters of the built source are returned and become the memo |
| `Surrogates.TextDocumentSurrogate.SetEditorText` | tools/src/org.graalvm.tools.lsp/src/org/graalvm/tools/lsp/server/utils/TextDocumentSurrogate.java:64-66 | the memo becomes the given text, or is dropped for null, so the next `GetEditorText` returns the text that was set |
| `Surrogates.TextDocumentSurrogate.SetCoverageAnalysisDone` | tools/src/org.graalvm.tools.lsp/src/org/graalvm/tools/lsp/server/utils/TextDocumentSurrogate.java:72-74 | the flag takes the given value and nothing else changes |
| `Surrogates.TextDocumentSurrogate.SetLastChange` | tools/src/org.graalvm.tools.lsp/src/org/graalvm/tools/lsp/server/utils/TextDocumentSurrogate.java:97-99 | the last change takes the given event and nothing else changes |
| `Surrogates.TextDocumentSurrogate.GetCoverageUris` | tools/src/org.graalvm.tools.lsp/src/org/graalvm/tools/lsp/server/utils/TextDocumentSurrogate.java:121-124 | null exactly for an untracked section; otherwise exactly the run URIs of its payloads |
| `Surrogates.TextDocumentSurrogate.AddLocationCoverage` | tools/src/org.graalvm.tools.lsp/src/org/graalvm/tools/lsp/server/utils/TextDocumentSurrogate.java:126-135 | the map becomes `AddedCoverage` of the old one; afterwards the section is covered, the map has data, and the payload's run is among the section's URIs |
| `Surrogates.TextDocumentSurrogate.ClearCoverage` | tools/src/org.graalvm.tools.lsp/src/org/graalvm/tools/lsp/server/utils/TextDocumentSurrogate.java:137-143 | the map is emptied, and `hasCoverageData` no longer holds |
| `Surrogates.TextDocumentSurrogate.ClearCoverageOfRun` | tools/src/org.graalvm.tools.lsp/src/org/graalvm/tools/lsp/server/utils/TextDocumentSurrogate.java:145-158 | the loop over the entries leaves exactly `ClearedByRun` of the old map; the invariant is that visited entries are cleared and the others are untouched |
| `Surrogates.TextDocumentSurrogate.RemoveRunPayloads` | tools/src/org.graalvm.tools.lsp/src/org/graalvm/tools/lsp/server/utils/TextDocumentSurrogate.java:148-153 | the inner loop keeps exactly the payloads of other runs, in their order |
| `Surrogates.TextDocumentSurrogate.GetCoverageLocations` | tools/src/org.graalvm.tools.lsp/src/org/graalvm/tools/lsp/server/utils/TextDocumentSurrogate.java:160-162 | the snapshot holds every tracked section exactly once, and it is empty exactly when there is no coverage data |
| `Surrogates.TextDocumentSurrogate.Replace` | tools/src/org.graalvm.tools.lsp/src/org/graalvm/tools/lsp/server/utils/TextDocumentSurrogate.java:164-168 | for a tracked old section, the map becomes `ReplaceKey` of the old one: the new section is covered, and the old one is not unless they are equal |
| `Surrogates.TextDocumentSurrogate.PrepareParsing` | tools/src/org.graalvm.tools.lsp/src/org/graalvm/tools/lsp/server/utils/TextDocumentSurrogate.java:170-181 | a fresh wrapper over the built characters, which are the editor text when one is set, becomes the document's wrapper, and the document is unparsed |
| `Surrogates.TextDocumentSurrogate.NotifyParsingSuccessful` | tools/src/org.graalvm.tools.lsp/src/org/graalvm/tools/lsp/server/utils/TextDocumentSurrogate.java:183-187 | the wrapper is marked parsed with the given call target, the backlog is emptied, and the document is parsed with no pending edits |
| `Surrogates.TextDocumentSurrogate.Status` | tools/src/org.graalvm.tools.lsp/src/org/graalvm/tools/lsp/server/utils/TextDocumentSurrogate.java:183-191 | a document is unparsed exactly when it has no wrapper or the last parse did not succeed; a parsed document has an empty backlog, and an edited one a non-empty backlog |
| `Surrogates.TextDocumentSurrogate.ReadyForCodeCompletion` | tools/src/org.graalvm.tools.lsp/src/org/graalvm/tools/lsp/server/utils/TextDocumentSurrogate.java:189-191 | a null dereference without a wrapper; otherwise ready exactly when the document is not unparsed, that is, the last parse succeeded, with or without edits since |
| `Surrogates.TextDocumentSurrogate.IsLocationCovered` | tools/src/org.graalvm.tools.lsp/src/org/graalvm/tools/lsp/server/utils/TextDocumentSurrogate.java:133-135 | a section is covered exactly when `getCoverageUris` reports URIs for it rather than null |
| `Surrogates.TextDocumentSurrogate.HasCoverageData` | tools/src/org.graalvm.tools.lsp/src/org/graalvm/tools/lsp/server/utils/TextDocumentSurrogate.java:137-139 | the map has data exactly when some section is covered |
| `Surrogates.TextDocumentSurrogate.Equals` | tools/src/org.graalvm.tools.lsp/src/org/graalvm/tools/lsp/server/utils/TextDocumentSurrogate.java:102-107 | a surrogate equals itself, equals another exactly when their URIs are equal, and never equals null |
| `Surrogates.TextDocumentSurrogate.HashCode` | tools/src/org.graalvm.tools.lsp/src/org/graalvm/tools/lsp/server/utils/TextDocumentSurrogate.java:89-91 | the hash is that of the URI, so it depends on the URI alone |
| `Surrogates.EqualsConsistent` | tools/src/org.graalvm.tools.lsp/src/org/graalvm/tools/lsp/server/utils/TextDocumentSurrogate.java:88-107 | equality of surrogates is reflexive, symmetric and transitive, and equal surrogates have equal hashes for any URI hash |
| `SourceUtils.EndsWithNewline` | truffle-lsp/de.hpi.swa.trufflelsp/src/de/hpi/swa/trufflelsp/server/utils/SourceUtils.java:55-59 | false for the empty text and otherwise whether the last character is a terminator, which is the line index's `finalNL`; such a text has a terminator |
| `SourceUtils.IsLineValid` | truffle-lsp/de.hpi.swa.trufflelsp/src/de/hpi/swa/trufflelsp/server/utils/SourceUtils.java:35-41 | a zero-based line is valid exactly when it is between 0 and the number of terminators, so its one-based successor has a line start |
| `SourceUtils.ZeroBasedLineToOneBasedLine` | truffle-lsp/de.hpi.swa.trufflelsp/src/de/hpi/swa/trufflelsp/server/utils/SourceUtils.java:47-53 | the one-based line is one more than the zero-based one, and a valid line lands on a line the index has |
| `SourceUtils.PositionOffset` | truffle-lsp/de.hpi.swa.trufflelsp/src/de/hpi/swa/trufflelsp/server/utils/SourceUtils.java:127-131 | the offset of a position is at or after the start of its line |
| `SourceUtils.SourceSectionToRange` | truffle-lsp/de.hpi.swa.trufflelsp/src/de/hpi/swa/trufflelsp/server/utils/SourceUtils.java:61-74 | no section gives the empty range at the document start; otherwise the start is one less in both coordinates, the end line is one less, and the end column is kept, minus one when the section's text ends in a terminator |
| `SourceUtils.SectionAt` | truffle-lsp/de.hpi.swa.trufflelsp/src/de/hpi/swa/trufflelsp/server/utils/SourceUtils.java:65-73 | the section of a character span has one-based coordinates and exactly the span's characters; its start line holds the first character (one more than the terminators before it) and its line start plus its column less one is that character's offset; the same for the end and the last character |
| `SourceUtils.SectionRangeCoversSection` | truffle-lsp/de.hpi.swa.trufflelsp/src/de/hpi/swa/trufflelsp/server/utils/SourceUtils.java:61-74 | the editor range of a section starts at the offset of its first character and ends after its last one, or before a final terminator |
| `SourceUtils.ConvertLineAndColumnToOffset` | truffle-lsp/de.hpi.swa.trufflelsp/src/de/hpi/swa/trufflelsp/server/utils/SourceUtils.java:179-185 | a line outside the index fails; otherwise the offset is at or after the line start, and columns 0 and 1 both give the line start |
| `SourceUtils.ConvertInvertsSection` | truffle-lsp/de.hpi.swa.trufflelsp/src/de/hpi/swa/trufflelsp/server/utils/SourceUtils.java:179-185 | converting a section's start line and column back gives the offset of its first character, and columns 0 and 1 agree |
| `SourceUtils.LinesSpanned` | truffle-lsp/de.hpi.swa.trufflelsp/src/de/hpi/swa/trufflelsp/server/utils/SourceUtils.java:143-147 | `lineCount + finalNL + isEmpty` is always the number of terminators plus one |
| `SourceUtils.LineDelta` | truffle-lsp/de.hpi.swa.trufflelsp/src/de/hpi/swa/trufflelsp/server/utils/SourceUtils.java:143-148 | `newLineModification` is the number of terminators in the new text minus the number in the replaced text |
| `SourceUtils.ReplaceBounds` | truffle-lsp/de.hpi.swa.trufflelsp/src/de/hpi/swa/trufflelsp/server/utils/SourceUtils.java:111-132 | computing the offsets of a range fails only by an assertion |
| `SourceUtils.Splice` | truffle-lsp/de.hpi.swa.trufflelsp/src/de/hpi/swa/trufflelsp/server/utils/SourceUtils.java:133 | `StringBuilder.replace` succeeds exactly when begin is within the buffer and not after end; the result is the part before begin, the new text, and the part after the clamped end |
| `SourceUtils.ApplyEvent` | truffle-lsp/de.hpi.swa.trufflelsp/src/de/hpi/swa/trufflelsp/server/utils/SourceUtils.java:103-133 | an event without a range yields exactly its text; a range event succeeds only if its offsets could be computed |
| `SourceUtils.ApplyText` | truffle-lsp/de.hpi.swa.trufflelsp/src/de/hpi/swa/trufflelsp/server/utils/SourceUtils.java:101-139 | an empty batch leaves the buffer as it is |
| `SourceUtils.CoverageUpdate` | truffle-lsp/de.hpi.swa.trufflelsp/src/de/hpi/swa/trufflelsp/server/utils/SourceUtils.java:142-151 | offsets that do not fit the original text fail in `substring`; an edit that keeps the number of terminators moves nothing; relocation fails only by `substring` or the `replace` assertion |
| `SourceUtils.EventStep` | truffle-lsp/de.hpi.swa.trufflelsp/src/de/hpi/swa/trufflelsp/server/utils/SourceUtils.java:103-137 | a successful step yields the event's text result; a failed splice leaves the map alone; without tracking, without data or for a whole-text event the map is untouched |
| `SourceUtils.ApplyChanges` | truffle-lsp/de.hpi.swa.trufflelsp/src/de/hpi/swa/trufflelsp/server/utils/SourceUtils.java:100-140 | an empty batch returns the buffer and leaves the map untouched |
| `SourceUtils.WholeReplacementForgetsBuffer` | truffle-lsp/de.hpi.swa.trufflelsp/src/de/hpi/swa/trufflelsp/server/utils/SourceUtils.java:104-108 | an event without a range makes the buffer exactly its text, whatever the buffer held |
| `SourceUtils.NormalSplice` | truffle-lsp/de.hpi.swa.trufflelsp/src/de/hpi/swa/trufflelsp/server/utils/SourceUtils.java:129-133 | with both ends on recorded lines, the result is the buffer before `b`, the new text, and the buffer from `e`, and the length changes by the new text's length minus `e - b` |
| `SourceUtils.AppendPastEnd` | truffle-lsp/de.hpi.swa.trufflelsp/src/de/hpi/swa/trufflelsp/server/utils/SourceUtils.java:118-125 | a range starting past the last line succeeds exactly when both characters are 0, the end is past the last line and the buffer is empty or ends in a terminator, and then appends the text; otherwise an assertion fails |
| `SourceUtils.EndPastLastLine` | truffle-lsp/de.hpi.swa.trufflelsp/src/de/hpi/swa/trufflelsp/server/utils/SourceUtils.java:126-128 | on the original text, a range that ends past the last line replaces everything from its start |
| `SourceUtils.ApplyTextConcat` | truffle-lsp/de.hpi.swa.trufflelsp/src/de/hpi/swa/trufflelsp/server/utils/SourceUtils.java:101-111 | events compose left to right: a batch is its first part followed by the rest over the buffer the first part produced |
| `SourceUtils.TrackingOnlyAborts` | truffle-lsp/de.hpi.swa.trufflelsp/src/de/hpi/swa/trufflelsp/server/utils/SourceUtils.java:135-137 | relocating coverage never changes the text a batch produces and can only end it early; without a surrogate the batch is the text-only replay and the map is untouched |
| `SourceUtils.CoverageUpdateDelta` | truffle-lsp/de.hpi.swa.trufflelsp/src/de/hpi/swa/trufflelsp/server/utils/SourceUtils.java:143-151 | for offsets that fit the original text, the line delta is the change in the number of terminators; a zero delta moves nothing, and any other runs both passes over the key snapshot |
| `SourceUtils.StaleLengthInBatch` | truffle-lsp/de.hpi.swa.trufflelsp/src/de/hpi/swa/trufflelsp/server/utils/SourceUtils.java:126-128 | filling an empty document with "a\nb" and then replacing from line 1 past the end fails in `replace`, while the same second event alone on "a\nb" gives "a\nX" |
| `SourceUtils.SectionBelowInsertionMoves` | truffle-lsp/de.hpi.swa.trufflelsp/src/de/hpi/swa/trufflelsp/server/utils/SourceUtils.java:159-163 | inserting two terminators above a section on lines 5-7 moves it, columns and payload unchanged, to lines 7-9 |
| `SourceUtils.AscendingOrderDropsPayload` | truffle-lsp/de.hpi.swa.trufflelsp/src/de/hpi/swa/trufflelsp/server/utils/SourceUtils.java:159-163 | with one-line sections on lines 5 and 7 of equal columns and an edit above adding two lines, visiting line 5 first leaves only line 9, holding the payload of line 5: the payload of line 7 is lost |
| `SourceUtils.DescendingOrderKeepsPayloads` | truffle-lsp/de.hpi.swa.trufflelsp/src/de/hpi/swa/trufflelsp/server/utils/SourceUtils.java:159-163 | visiting the same two sections in the other order moves both intact, to lines 7 and 9 |
| `SourceUtils.SectionCollisionDropsPayload` | truffle-lsp/de.hpi.swa.trufflelsp/src/de/hpi/swa/trufflelsp/server/utils/SourceUtils.java:142-165 | `updateCoverageData` on those two sections, with the model's ascending key order, loses the payload of the section on line 7 |
| `SourceUtils.RemovalEvent` | truffle-lsp/de.hpi.swa.trufflelsp/src/de/hpi/swa/trufflelsp/server/utils/SourceUtils.java:92-93 | the removal event keeps the start and end line, moves the end character right by the inserted length, has that range length, and inserts nothing |
| `SourceUtils.InsertionRoundTrip` | truffle-lsp/de.hpi.swa.trufflelsp/src/de/hpi/swa/trufflelsp/server/utils/SourceUtils.java:89-98 | inserting a single-line text on a recorded line and then applying its removal event restores the buffer, and neither step moves a tracked section |
| `SourceUtils.ShiftMatchingSections` | truffle-lsp/de.hpi.swa.trufflelsp/src/de/hpi/swa/trufflelsp/server/utils/SourceUtils.java:153-165 | each of the two stream pipelines re-keys the matching snapshot sections through `replace`, in snapshot order, and leaves the map and the failure exactly as `RelocatePass` prescribes |
| `SourceUtils.UpdateCoverageData` | truffle-lsp/de.hpi.swa.trufflelsp/src/de/hpi/swa/trufflelsp/server/utils/SourceUtils.java:142-167 | the two loops over the key snapshot leave the surrogate's map, and return the failure, exactly as `CoverageUpdate` prescribes |
| `SourceUtils.ApplyTextDocumentChanges` | truffle-lsp/de.hpi.swa.trufflelsp/src/de/hpi/swa/trufflelsp/server/utils/SourceUtils.java:100-140 | the loop's result and the surrogate's final map are those of `ApplyChanges`; a successful batch, and any batch without a surrogate, yields the text-only replay |
| `SourceUtils.RemoveLastTextInsertion` | truffle-lsp/de.hpi.swa.trufflelsp/src/de/hpi/swa/trufflelsp/server/utils/SourceUtils.java:89-98 | without a last change or its range, a null dereference and no change; otherwise the editor text is materialised and the removal event is applied to it, and the fix carries that text, the removed characters and the change's start character |
| `Server.WithMessage` | truffle-lsp/de.hpi.swa.trufflelsp/src/de/hpi/swa/trufflelsp/server/LSPServer.java:168-170 | a stored diagnostic always has a message: a missing one becomes "<No message>", and a diagnostic that has one is kept as it is |
| `Server.WithMessages` | truffle-lsp/de.hpi.swa.trufflelsp/src/de/hpi/swa/trufflelsp/server/LSPServer.java:167-172 | the stored diagnostics are the arguments in order, each given a message |
| `Server.AddedDiagnostics` | truffle-lsp/de.hpi.swa.trufflelsp/src/de/hpi/swa/trufflelsp/server/LSPServer.java:160-173 | the document gets an entry if it had none; its earlier diagnostics are a prefix and the new ones follow in argument order; other documents are untouched; no stored diagnostic lacks a message |
| `Server.Flush` | truffle-lsp/de.hpi.swa.trufflelsp/src/de/hpi/swa/trufflelsp/server/LSPServer.java:189-196 | a present entry is sent and removed; an absent one sends an empty list when forced and nothing otherwise; other documents are untouched |
| `Server.AddedEntry` | truffle-lsp/de.hpi.swa.trufflelsp/src/de/hpi/swa/trufflelsp/server/LSPServer.java:160-173 | after collecting, the document's entry holds its earlier diagnostics followed by the new ones, and the rest of the table is as before |
| `Server.AddThenFlush` | truffle-lsp/de.hpi.swa.trufflelsp/src/de/hpi/swa/trufflelsp/server/LSPServer.java:160-196 | collecting and then flushing sends everything collected for the document in order, whatever `force` is, and forgets it, so a second unforced flush sends nothing |
| `Server.TraceServerSetting` | truffle-lsp/de.hpi.swa.trufflelsp/src/de/hpi/swa/trufflelsp/server/LSPServer.java:406-413 | a level is found exactly when the path `truffleLsp.trace.server` leads through objects to a string, and it is that string |
| `Server.NextTraceServer` | truffle-lsp/de.hpi.swa.trufflelsp/src/de/hpi/swa/trufflelsp/server/LSPServer.java:404-418 | the level changes only to a string found at `truffleLsp.trace.server`, and stays put otherwise |
| `Server.TraceLevelSetting` | truffle-lsp/de.hpi.swa.trufflelsp/src/de/hpi/swa/trufflelsp/server/LSPServer.java:404-418 | a string at `truffleLsp.trace.server` becomes the level, and a non-string value there changes nothing |
| `Server.CodeLenses` | truffle-lsp/de.hpi.swa.trufflelsp/src/de/hpi/swa/trufflelsp/server/LSPServer.java:284-297 | exactly two lenses, analyse then show coverage, both at the document start, each with the document URI as its only argument |
| `Server.LspServer.constructor` | truffle-lsp/de.hpi.swa.trufflelsp/src/de/hpi/swa/trufflelsp/server/LSPServer.java:88-90 | the server starts with no open documents, no diagnostics and trace level "off" |
| `Server.LspServer.AddDiagnostics` | truffle-lsp/de.hpi.swa.trufflelsp/src/de/hpi/swa/trufflelsp/server/LSPServer.java:160-173 | the loop leaves exactly `AddedDiagnostics` of the old table and keeps every stored diagnostic with a message |
| `Server.LspServer.ReportCollectedDiagnostics` | truffle-lsp/de.hpi.swa.trufflelsp/src/de/hpi/swa/trufflelsp/server/LSPServer.java:189-196 | the table becomes what `Flush` leaves, and what it sends is appended to the notifications sent to the client |
| `Server.LspServer.DidOpen` | truffle-lsp/de.hpi.swa.trufflelsp/src/de/hpi/swa/trufflelsp/server/LSPServer.java:330-332 | the document is recorded with its language id, and other documents are untouched |
| `Server.LspServer.DidClose` | truffle-lsp/de.hpi.swa.trufflelsp/src/de/hpi/swa/trufflelsp/server/LSPServer.java:384-387 | an open document is removed from the table, and nothing else changes |
| `Server.LspServer.ProcessChanges` | truffle-lsp/de.hpi.swa.trufflelsp/src/de/hpi/swa/trufflelsp/server/LSPServer.java:361-381 | for an open document, its recorded language id is looked up and the change list is passed on unchanged |
| `Server.LspServer.DidChangeConfiguration` | truffle-lsp/de.hpi.swa.trufflelsp/src/de/hpi/swa/trufflelsp/server/LSPServer.java:404-418 | the level becomes `NextTraceServer` of the old one, and the server is verbose afterwards exactly when that level is "verbose" |
| `Server.LspServer.IsVerbose` | truffle-lsp/de.hpi.swa.trufflelsp/src/de/hpi/swa/trufflelsp/server/LSPServer.java:451-453 | verbose exactly when the level is "verbose"; the initial level "off" is not verbose |
| `Server.OpenThenClose` | truffle-lsp/de.hpi.swa.trufflelsp/src/de/hpi/swa/trufflelsp/server/LSPServer.java:330-390 | opening a document that was not open records its language id, and closing it again restores the table |

## Left out

- Socket, launcher and thread-pool plumbing is left out because it is network I/O and concurrency. This covers `start`, `exit` and the asynchronous request wrappers (LSPServer.java:199-256, 455-516).
- The argument-less `reportCollectedDiagnostics()` (LSPServer.java:179-183) is left out because it removes entries while iterating the same map. Only the single-document flush is modelled.
- The one-argument `reportCollectedDiagnostics(String)` is the flush with `force` true. It has no member of its own.
- Calls into the Truffle runtime are not part of this model. These are `findSourceLocation`, `getRangeFrom`, `isValidSourceSection`, `getOrFixFileUri` and `buildSource`. Where the code needs the characters of a built source, they are a parameter (`built`). A runtime source section appears only as `SectionAt`, the section of a character span.
- `isColumnValid` is left out because it needs `Source.getLineLength`, which belongs to the runtime.
- The adapter calls in `didOpen`, `didClose` and `processChanges` (parse, `processChangesAndParse`, `didClose`) are not part of this model. `ProcessChanges` returns the list it would forward.
- The `Full` synchronisation branch of `processChanges` is left out, because the server's sync kind is the constant `Incremental`.
- Console output and warnings have no effect on the state and are left out (`System.out`/`System.err`, including the warning in `zeroBasedLineToOneBasedLine`).
- `CoverageRequestHandler`, `SignatureHelpRequestHandler`, `DefUseTree` and the tests are not part of this model.
- `TextMap`, `SourceLocation`/`MutableSourceSection` and `CoverageData` are not part of this model. They are given abstract definitions, and the region tests `includes`/`behind` are parameters.
- Plain getters (`getUri`, `getLangId`, `getTypeHarvestingDone`, `getSourceWrapper`, `getCoverageData`, `getSource`, `getChangeEventsSinceLastSuccessfulParsing`) are read as fields and have no members of their own. The same goes for `executeCommand` and the other request handlers of the server.
- Coverage.KeyOrder: the iteration order of a `HashMap` is unspecified; the model fixes ascending order, and `RelocateIdeal`/`DoubleMatchAborts` are proved for any order. Where the order matters (a shifted copy that is another tracked key), the ascending order takes the outcome that loses a payload, as `SectionCollisionDropsPayload` shows; the other outcomes a `HashMap` may produce are not modelled by `UpdateCoverageData`.
- Coverage.RelocateIdeal: proved only when every shifted copy is a fresh key and no two coincide (`FreshImages`); when they are not, the code can drop a payload, which the model reproduces rather than excludes (`SectionCollisionDropsPayload`).
- Coverage.Shift: line numbers are unbounded integers, so the 32-bit wrap-around of Java `int` fields on an enormous delta is not modelled.
- Server.LspServer.AddDiagnostics: the Java code writes the placeholder message into the caller's `Diagnostic` objects. The model stores updated copies, so that aliasing is not captured.
- Surrogates.TextDocumentSurrogate.Replace: the assertion that the old section is tracked is a precondition here. Inside a relocation pass the same `replace` assertion is modelled as a failure instead.
- Server.LspServer.DidClose: the assertion that the document is open (LSPServer.java:387) is a precondition here, so closing a document that is not open is not modelled.
- Server.LspServer.ProcessChanges: the assertion that the document has a language id (LSPServer.java:364) is a precondition here, so changes to a document that is not open are not modelled.
- Surrogates.TextDocumentSurrogate.PrepareParsing: without an editor text the Java builder is given `null` content; the model takes the built characters as a parameter and does not model that case.
- SourceUtils.PositionOffset: offsets are unbounded. In Java, `lineStartOffset + character` (SourceUtils.java:127,130-131) is an `int` sum, so a character near 2^31 wraps to a negative offset and `StringBuilder.replace` throws; the model adds without wrap-around.
- SourceUtils.RemovalEvent: the end character `getCharacter() + length` (SourceUtils.java:93) is an `int` sum that can wrap in Java; the model adds without wrap-around, so a huge end character is clamped by the splice instead of throwing.
- SourceUtils.SourceSectionToRange: requires one-based coordinates, which the runtime always reports; a zero coordinate would give a negative position, which the position type cannot hold.
- Surrogates.TextDocumentSurrogate.NotifyParsingSuccessful: requires a wrapper, where the Java code would throw a null-pointer exception without one.
- Surrogates.TextDocumentSurrogate.HashCode: `URI.hashCode` is not part of this model and is a parameter.
