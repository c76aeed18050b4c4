/** Value types shared by the document model: the Language Server Protocol's
    positions, ranges and change events, and the failure outcomes that stand
    for the exceptions the Java code can throw. */
module Protocol {

  datatype Option<+T> = None | Some(value: T)

  /** Why an operation stopped early: a failed `assert`, an index the Java
      string classes reject, or a dereferenced `null`. */
  datatype Failure = AssertionViolated | IndexOutOfBounds | NullDereference

  datatype Result<+T> = Ok(value: T) | Err(failure: Failure)

  /** A document URI, kept as its string form (`URI.toString()`). */
  type Uri = string

  /** A zero-based editor position: line and character within the line. */
  datatype Position = Position(line: nat, character: nat)

  /** An editor range; `end` is exclusive. */
  datatype Range = Range(start: Position, end: Position)

  /** `TextDocumentContentChangeEvent`: a range edit, or, when `range` is
      absent, the new text of the whole document. */
  datatype ChangeEvent = ChangeEvent(range: Option<Range>, rangeLength: Option<nat>, text: string)

  /** The empty range at the start of a document (`new Range(new Position(), new Position())`). */
  const DocumentStart: Range := Range(Position(0, 0), Position(0, 0))
}
