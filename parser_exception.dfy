/** The exception the parser raises (src/Exception/ParserException.php, with
    `setErrorMessage` of src/Exception/Exception.php): where the error is reported
    and what the message says. Installing the exception handler and printing are
    left out; the thrown exception is the `Report` value. */
module ParserException {
  import opened Wrappers
  import opened Location
  import opened TokenTypes
  import opened NumberGrammar
  import opened CodeFragment
  import opened Tokenizer
  import opened Parser
  import opened ParserFacts
  import opened TokenizerExamples
  import opened SeqFacts

  /** `ParserException::UNEXPECTED_END` and `ParserException::UNEXPECTED_TOKEN` */
  const UnexpectedEndKind: int := 1
  const UnexpectedTokenKind: int := 2

  /** The line and column an exception names, and its message. */
  datatype Report = Report(line: nat, column: nat, message: string)

  /** `setErrorMessage`: the code fragment goes under the message unless the line is
      0, which PHP reads as false. */
  function ErrorMessage(message: string, input: seq<char>, line: nat, column: nat): (r: string)
    ensures message <= r
    ensures line != 0 ==> r == message + "\n" + Fragment(input, line, column)
    ensures line == 0 ==> r == message
  {
    if line != 0 then message + "\n" + Fragment(input, line, column) else message
  }

  const EndMessage: string := "Unexpected end of input"

  /** Where `unexpectedEnd` reports: the end of the last token, or 1:1 without tokens. */
  function EndPosition(ts: seq<Token>): Position
  {
    if |ts| > 0 then ts[|ts| - 1].loc.end else Position(1, 1, 0)
  }

  /** `unexpectedEnd` */
  function UnexpectedEndReport(input: seq<char>, ts: seq<Token>): (r: Report)
    ensures ts == [] ==> r.line == 1 && r.column == 1
    ensures ts != [] ==> r.line == ts[|ts| - 1].loc.end.line && r.column == ts[|ts| - 1].loc.end.column
    ensures EndMessage <= r.message
    ensures r.line != 0 ==> r.message == EndMessage + "\n" + Fragment(input, r.line, r.column)
  {
    var p := EndPosition(ts);
    Report(p.line, p.column, ErrorMessage(EndMessage, input, p.line, p.column))
  }

  /** `substr($input, $startOffset, 1)`: one byte, or nothing past the end. */
  function ByteAt(input: seq<char>, offset: nat): (r: string)
    ensures |r| <= 1
  {
    if offset < |input| then [input[offset]] else []
  }

  /** `sprintf('Unexpected token <%s> at %d:%d', $token, $line, $column)` */
  function TokenMessage(token: string, line: nat, column: nat): string
  {
    TokenHead(token) + NatToString(line) + ":" + NatToString(column)
  }

  function TokenHead(token: string): string
  {
    "Unexpected token <" + token + "> at "
  }

  /** `unexpectedToken`: the start of `tokens[index]`. An index past the list leaves
      PHP reading missing keys, which is not modelled. */
  function UnexpectedTokenReport(input: seq<char>, ts: seq<Token>, index: nat): (r: Option<Report>)
    ensures r.Some? <==> index < |ts|
    ensures r.Some? ==> r.value.line == ts[index].loc.start.line && r.value.column == ts[index].loc.start.column
    ensures r.Some? ==>
      TokenMessage(ByteAt(input, ts[index].loc.start.offset), r.value.line, r.value.column) <= r.value.message
  {
    if index < |ts| then
      var p := ts[index].loc.start;
      Some(Report(p.line, p.column,
                  ErrorMessage(TokenMessage(ByteAt(input, p.offset), p.line, p.column), input, p.line, p.column)))
    else None
  }

  /** The constructor's `switch` on the kind; any other kind raises nothing. */
  function Raise(kind: int, input: seq<char>, ts: seq<Token>, index: nat): (r: Option<Report>)
    ensures kind == UnexpectedEndKind ==> r == Some(UnexpectedEndReport(input, ts))
    ensures kind == UnexpectedTokenKind ==> r == UnexpectedTokenReport(input, ts, index)
    ensures kind != UnexpectedEndKind && kind != UnexpectedTokenKind ==> r.None?
  {
    if kind == UnexpectedEndKind then Some(UnexpectedEndReport(input, ts))
    else if kind == UnexpectedTokenKind then UnexpectedTokenReport(input, ts, index)
    else None
  }

  /** The exception a parser error raises. `Unspecified` stands for PHP warnings and
      the tokenizer's errors belong to `TokenizerException`; neither is reported here. */
  function ReportFor(input: seq<char>, ts: seq<Token>, e: ParseError): (r: Option<Report>)
    ensures e.UnexpectedEnd? ==> r == Some(UnexpectedEndReport(input, ts))
    ensures e.UnexpectedToken? ==> r == UnexpectedTokenReport(input, ts, e.index)
    ensures !e.UnexpectedEnd? && !e.UnexpectedToken? ==> r.None?
  {
    match e
    case UnexpectedEnd => Raise(UnexpectedEndKind, input, ts, 0)
    case UnexpectedToken(i) => Raise(UnexpectedTokenKind, input, ts, i)
    case _ => None
  }

  // ---------------------------------------------------------------------------

  /** A token message names the token after `Unexpected token <`, then the line and
      the column as decimal text that reads back as those numbers. */
  lemma TokenMessageReadsBack(token: string, line: nat, column: nat)
    ensures var m := TokenMessage(token, line, column);
      var l, c := NatToString(line), NatToString(column);
      var at := 18 + |token| + 5;
      |m| == at + |l| + 1 + |c| &&
      m[..18] == "Unexpected token <" && m[18..18 + |token|] == token &&
      m[at..at + |l|] == l && m[at + |l|] == ':' && m[at + |l| + 1..] == c &&
      AllDigits(l) && DecimalValue(l) == line && AllDigits(c) && DecimalValue(c) == column
  {
    var l, c := NatToString(line), NatToString(column);
    NatToStringRoundTrip(line);
    NatToStringRoundTrip(column);
    TokenHeadParts(token);
    ConcatParts(TokenHead(token), l, ":", c);
    var m := TokenMessage(token, line, column);
    SliceOfSlice(m, 0, |TokenHead(token)|, 0, 18);
    SliceOfSlice(m, 0, |TokenHead(token)|, 18, 18 + |token|);
  }

  lemma TokenHeadParts(token: string)
    ensures var h := TokenHead(token);
      |h| == 18 + |token| + 5 && h[..18] == "Unexpected token <" && h[18..18 + |token|] == token
  {
    ConcatParts("Unexpected token <", token, "> at ", []);
    assert TokenHead(token) + [] == TokenHead(token);
  }

  /** Every error the parser raises over a token list of the tokenizer's is reported,
      except the cases PHP leaves to warnings. */
  lemma ParserErrorsReported(input: seq<char>, ts: seq<Token>, config: Config)
    requires Readable(input, ts)
    ensures var r := FromTokens(input, ts, config);
      r.Err? && r.error != Unspecified ==> ReportFor(input, ts, r.error).Some?
  {
  }

  /** Empty input: no tokens, so the end of input is reported at 1:1, under which
      the fragment shows the one empty line and a caret. */
  lemma EmptyInputMessage(config: Config)
    ensures ParseOutcome("", config) == Err(UnexpectedEnd)
    ensures ReportFor("", [], UnexpectedEnd) == Some(Report(1, 1, EndMessage + "\n" + "1 | \n    ^"))
  {
    EmptyInputRejected(config);
    EmptyFragment();
    assert EndPosition([]) == Position(1, 1, 0);
    assert ErrorMessage(EndMessage, "", 1, 1) == EndMessage + "\n" + "1 | \n    ^";
    assert UnexpectedEndReport("", []) == Report(1, 1, ErrorMessage(EndMessage, "", 1, 1));
    assert ReportFor("", [], UnexpectedEnd) == Some(UnexpectedEndReport("", []));
  }

  lemma EmptyFragment()
    ensures Fragment("", 1, 1) == "1 | \n    ^"
  {
    var ls := SplitLines("");
    assert ls == [[]];
    assert NatToString(1) == "1";
    assert Width(ls, 1) == 1;
    assert PrintLine([], 1, 1) == "1 | ";
    var prev := NumberedLines(ls, 0, 1, 1);
    assert |prev| == 1 && prev[0] == "1 | ";
    assert prev == ["1 | "];
    assert PreviousBlock(ls, 1) == "1 | ";
    assert Prefix([], 0) == [];
    assert TargetBeforeCursor(ls, 1, 1) == "1 | ";
    assert CursorLine(ls, 1, 1) == "    ^";
    assert NextBlock(ls, 1) == [];
    FragmentLayout("", 1, 1);
  }

  /** A `,` at offset 2 on line 1, column 3 that the parser rejects is reported as
      `Unexpected token <,> at 1:3`. */
  lemma CommaMessage(input: seq<char>, ts: seq<Token>, i: nat)
    requires i < |ts| && ts[i].loc.start == Position(1, 3, 2) && |input| > 2 && input[2] == ','
    ensures var r := ReportFor(input, ts, UnexpectedToken(i));
      r.Some? && "Unexpected token <,> at 1:3" <= r.value.message
  {
    assert NatToString(1) == "1" && NatToString(3) == "3";
    assert TokenMessage([','], 1, 3) == "Unexpected token <,> at 1:3";
  }

  /** `[1,]` is rejected at its comma, and the exception names that comma at 1:3. */
  lemma TrailingCommaArrayReported(input: seq<char>)
    requires input == "[1,]"
    ensures Lex(input, None).Tokens?
    ensures ParseOutcome(input, DefaultConfig) == Err(UnexpectedToken(2))
    ensures var r := ReportFor(input, Lex(input, None).tokens, UnexpectedToken(2));
      r.Some? && "Unexpected token <,> at 1:3" <= r.value.message
  {
    TrailingCommaArrayRejected(input);
    TrailingCommaArrayTokens(input);
    CommaMessage(input, Lex(input, None).tokens, 2);
  }

  /** A `}` at line 1, column 9 is reported as `Unexpected token <}> at 1:9`. */
  lemma BraceMessage(input: seq<char>, ts: seq<Token>, i: nat)
    requires i < |ts| && ts[i].loc.start.line == 1 && ts[i].loc.start.column == 9
    requires ts[i].loc.start.offset < |input| && input[ts[i].loc.start.offset] == '}'
    ensures var r := ReportFor(input, ts, UnexpectedToken(i));
      r.Some? && "Unexpected token <}> at 1:9" <= r.value.message
  {
    assert NatToString(1) == "1" && NatToString(9) == "9";
    assert TokenMessage(['}'], 1, 9) == "Unexpected token <}> at 1:9";
  }
}
