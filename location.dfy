/** Source positions and spans (src/Helper/Location.php). */
module Location {
  import opened Wrappers

  /** A point in the input: 1-based line and column, 0-based byte offset. */
  datatype Position = Position(line: nat, column: nat, offset: nat)

  /** A start/end pair with the optional source label taken from the configuration. */
  datatype Span = Span(start: Position, end: Position, source: Option<string>)

  /** `Location::loc`: assembles a span from its six coordinates and a label.
      Nothing is checked: the end may even lie before the start. */
  function Loc(startLine: nat, startColumn: nat, startOffset: nat,
               endLine: nat, endColumn: nat, endOffset: nat,
               source: Option<string>): (r: Span)
    ensures r.start == Position(startLine, startColumn, startOffset)
    ensures r.end == Position(endLine, endColumn, endOffset)
    ensures r.source == source
  {
    Span(Position(startLine, startColumn, startOffset),
         Position(endLine, endColumn, endOffset),
         source)
  }

  /** The record is a function of its arguments alone and performs no validation:
      a span whose end precedes its start is built as readily as any other. */
  lemma LocDoesNotValidate()
    ensures Loc(3, 5, 20, 1, 1, 0, None).end.offset < Loc(3, 5, 20, 1, 1, 0, None).start.offset
  {
  }
}
