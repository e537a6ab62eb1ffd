/** The token kinds (src/Token/TokenTypes.php) and the records the tokenizer builds. */
module TokenTypes {
  import opened Wrappers
  import opened Location

  datatype TokenType =
    | LeftBrace | RightBrace | LeftBracket | RightBracket | Colon | Comma
    | String | Number | True | False | Null

  /** What a recognizer returns on success: the token kind, the position just past the
      match and the matched text (absent for punctuators). */
  datatype Match = Match(kind: TokenType, line: nat, column: nat, index: nat, value: Option<string>)

  /** A token, with the span from the position before the match to the one after it. */
  datatype Token = Token(kind: TokenType, value: Option<string>, loc: Span)

  predicate IsKeywordKind(k: TokenType)
  {
    k == True || k == False || k == Null
  }

  predicate IsPunctuatorKind(k: TokenType)
  {
    k == LeftBrace || k == RightBrace || k == LeftBracket || k == RightBracket || k == Colon || k == Comma
  }
}
