/** What the tokenizer guarantees about the token list it returns
    (src/Token/Tokenizer.php, `tokenize` and its recognizers): every token is one of the
    recognizers' matches at its start offset, tokens follow each other left to right
    without overlapping, and only whitespace lies between them. It also says which
    characters no recognizer starts on, and that the scan can fail to finish only at
    a trailing minus. */
module TokenizerFacts {
  import opened Wrappers
  import opened Location
  import opened TokenTypes
  import opened NumberHelper
  import opened NumberGrammar
  import opened NumberStates
  import opened StringGrammar
  import opened Tokenizer

  /** A token as the main loop builds it: a non-empty span on one line whose column
      advances with the offset, and a lexeme that its recognizer accepts at that offset. */
  predicate TokenOk(input: seq<char>, t: Token)
  {
    var s, e := t.loc.start, t.loc.end;
    s.offset < e.offset <= |input| && s.line >= 1 && s.column >= 1 &&
    e.line == s.line && e.column == s.column + (e.offset - s.offset) &&
    match t.kind
    case String => t.value == Some(input[s.offset..e.offset]) && StringEnd(input, s.offset) == Some(e.offset)
    case Number => t.value == Some(input[s.offset..e.offset]) && NumberEnd(input, s.offset) == Some(e.offset)
    case True => t.value == Some(input[s.offset..e.offset]) && input[s.offset..e.offset] == "true"
    case False => t.value == Some(input[s.offset..e.offset]) && input[s.offset..e.offset] == "false"
    case Null => t.value == Some(input[s.offset..e.offset]) && input[s.offset..e.offset] == "null"
    case _ =>
      t.value == None && e.offset == s.offset + 1 &&
      input[s.offset] in PunctuatorTokens && PunctuatorTokens[input[s.offset]] == t.kind
  }

  /** Only whitespace lies in `input[a..b]`. */
  predicate Gap(input: seq<char>, a: nat, b: nat)
    requires a <= b <= |input|
  {
    forall k | a <= k < b :: IsWhitespace(input[k])
  }

  /** `input[from..]` is whitespace and the tokens `ts`, in order and without overlap. */
  predicate Layout(input: seq<char>, from: nat, ts: seq<Token>)
    decreases |ts|
  {
    from <= |input| &&
    if ts == [] then Gap(input, from, |input|)
    else
      var s := ts[0].loc.start.offset;
      from <= s <= |input| && Gap(input, from, s) && TokenOk(input, ts[0]) &&
      Layout(input, ts[0].loc.end.offset, ts[1..])
  }

  /** Every token of a layout is well formed. */
  predicate AllTokensOk(input: seq<char>, ts: seq<Token>)
  {
    forall k | 0 <= k < |ts| :: TokenOk(input, ts[k])
  }

  // ---------------------------------------------------------------------------

  /** The token list of a successful `tokenize` call: nothing for `empty()` input,
      otherwise a layout of the whole input. */
  lemma LexLayout(input: seq<char>, source: Option<string>, ts: seq<Token>)
    requires Lex(input, source) == Tokens(ts)
    ensures PhpEmpty(input) ==> ts == []
    ensures !PhpEmpty(input) ==> Layout(input, 0, ts)
  {
    if !PhpEmpty(input) {
      LexFromLayout(input, Cursor(0, 1, 1), source, ts);
    }
  }

  lemma {:induction false} LexFromLayout(input: seq<char>, at: Cursor, source: Option<string>, ts: seq<Token>)
    requires at.index <= |input| && at.line >= 1 && at.column >= 1
    requires LexFrom(input, at, source) == Tokens(ts)
    ensures Layout(input, at.index, ts)
    decreases |input| - at.index
  {
    if at.index == |input| {
      assert ts == [];
    } else {
      match StepAt(input, at, source)
      case Skip(next) =>
        var w := ParseWhitespace(input, at.index, at.line, at.column);
        assert w == Some(next);
        LexFromLayout(input, next, source, ts);
        LayoutWiden(input, at.index, next.index, ts);
      case Emit(t, next) =>
        assert next.index != at.index;
        var rest := LexFrom(input, next, source);
        assert rest.Tokens? && ts == [t] + rest.tokens;
        RecognizedOk(input, at, source);
        LexFromLayout(input, next, source, rest.tokens);
        assert ts[1..] == rest.tokens;
      case Fail(_, _, _) =>
        assert false;
    }
  }

  /** Whitespace in front of a layout extends it. */
  lemma LayoutWiden(input: seq<char>, a: nat, b: nat, ts: seq<Token>)
    requires a <= b <= |input| && Gap(input, a, b) && Layout(input, b, ts)
    ensures Layout(input, a, ts)
  {
  }

  /** A token the main loop emits with progress is well formed. */
  lemma RecognizedOk(input: seq<char>, at: Cursor, source: Option<string>)
    requires at.index < |input| && at.line >= 1 && at.column >= 1
    requires StepAt(input, at, source).Emit? && StepAt(input, at, source).next.index != at.index
    ensures TokenOk(input, StepAt(input, at, source).token)
    ensures StepAt(input, at, source).next.line >= 1 && StepAt(input, at, source).next.column >= 1
    ensures StepAt(input, at, source).next.index == StepAt(input, at, source).token.loc.end.offset
    ensures StepAt(input, at, source).token.loc.start.offset == at.index
  {
    var i, l, c := at.index, at.line, at.column;
    if ParseChar(input, i, l, c).None? {
      var k := ParseKeyword(input, i, l, c);
      if k.Some? {
        var e := k.value.index;
        assert (input[i..e], k.value.kind) in KeywordTokens;
      }
    }
  }

  /** A layout lists well-formed tokens at increasing, non-overlapping offsets. */
  lemma {:induction false} LayoutOrdered(input: seq<char>, from: nat, ts: seq<Token>)
    requires Layout(input, from, ts)
    ensures AllTokensOk(input, ts)
    ensures forall k | 0 <= k < |ts| :: from <= ts[k].loc.start.offset
    ensures forall k | 0 <= k < |ts| - 1 :: ts[k].loc.end.offset <= ts[k + 1].loc.start.offset
    decreases |ts|
  {
    if ts != [] {
      LayoutOrdered(input, ts[0].loc.end.offset, ts[1..]);
      forall k | 0 <= k < |ts| ensures TokenOk(input, ts[k]) {
        if k > 0 { assert ts[k] == ts[1..][k - 1]; }
      }
      forall k | 0 <= k < |ts| - 1 ensures ts[k].loc.end.offset <= ts[k + 1].loc.start.offset {
        if k > 0 { assert ts[k] == ts[1..][k - 1] && ts[k + 1] == ts[1..][k]; }
      }
    }
  }

  /** The tokens of a successful `tokenize` call are all well formed. */
  lemma LexTokensOk(input: seq<char>, source: Option<string>, ts: seq<Token>)
    requires Lex(input, source) == Tokens(ts)
    ensures AllTokensOk(input, ts)
  {
    LexLayout(input, source, ts);
    if !PhpEmpty(input) {
      LayoutOrdered(input, 0, ts);
    }
  }

  /** A number token is the longest prefix at its offset that is a JSON number. */
  lemma NumberTokenLongest(input: seq<char>, t: Token)
    requires TokenOk(input, t) && t.kind == Number
    ensures IsJsonNumber(input[t.loc.start.offset..t.loc.end.offset])
    ensures forall e | t.loc.end.offset < e <= |input| :: !IsJsonNumber(input[t.loc.start.offset..e])
  {
    var s, e := t.loc.start.offset, t.loc.end.offset;
    var w := input[s..];
    assert w[..e - s] == input[s..e];
    forall e' | e < e' <= |input| ensures !IsJsonNumber(input[s..e']) {
      assert w[..e' - s] == input[s..e'];
      assert !NumberPrefix(w, e' - s);
    }
  }

  /** A string token is a whole string literal, closed by its first unescaped quote. */
  lemma StringTokenLiteral(input: seq<char>, t: Token)
    requires TokenOk(input, t) && t.kind == String
    ensures IsStringLiteral(input[t.loc.start.offset..t.loc.end.offset])
    ensures forall e | t.loc.start.offset <= e <= |input| && e != t.loc.end.offset ::
      !IsStringLiteral(input[t.loc.start.offset..e])
  {
    var s, e := t.loc.start.offset, t.loc.end.offset;
    assert LiteralAt(input, s, e);
    forall e' | s <= e' <= |input| && e' != e ensures !IsStringLiteral(input[s..e']) {
      if IsStringLiteral(input[s..e']) {
        StringLiteralUnique(input, s, e, e');
        assert false;
      }
    }
  }

  /** A character that starts no token: no recognizer matches there. */
  lemma NoRecognizerAt(input: seq<char>, i: nat, line: nat, column: nat)
    requires i < |input|
    requires input[i] !in PunctuatorTokens && input[i] != '"' && input[i] != '-' && !IsDigit(input[i])
    requires input[i] != 't' && input[i] != 'f' && input[i] != 'n'
    ensures Recognize(input, i, line, column).None?
  {
    NoLiteralAfterBadStart(input, i);
    var w := input[i..];
    assert w[..0] == [] && w[0] == input[i];
    PrefixDeath(w, 0);
    forall k | 0 <= k < |KeywordTokens| ensures !StartsWith(input, i, KeywordTokens[k].0) {
      var name := KeywordTokens[k].0;
      if i + |name| <= |input| {
        assert input[i..i + |name|][0] == input[i] != name[0];
      }
    }
  }

  /** The loop diverges only at such a trailing minus. */
  lemma {:induction false} DivergesOnlyAtTrailingMinus(input: seq<char>, at: Cursor, source: Option<string>)
    requires at.index <= |input|
    requires LexFrom(input, at, source).Diverges?
    ensures var d := LexFrom(input, at, source).at;
      at.index <= d.index < |input| && d.index > 0 && input[d.index..] == ['-']
    decreases |input| - at.index
  {
    match StepAt(input, at, source)
    case Skip(next) =>
      DivergesOnlyAtTrailingMinus(input, next, source);
    case Emit(t, next) =>
      if next.index == at.index {
        EmptyMatchIsTrailingMinus(input, at);
      } else {
        DivergesOnlyAtTrailingMinus(input, next, source);
      }
    case Fail(_, _, _) =>
  }

  /** Only the number recognizer can match without consuming anything, and only at a
      trailing minus past offset 0. */
  lemma EmptyMatchIsTrailingMinus(input: seq<char>, at: Cursor)
    requires at.index < |input|
    requires Recognize(input, at.index, at.line, at.column).Some?
    requires Recognize(input, at.index, at.line, at.column).value.index == at.index
    ensures at.index > 0 && input[at.index..] == ['-']
  {
    var i := at.index;
    assert ParseChar(input, i, at.line, at.column).None?;
    assert ParseKeyword(input, i, at.line, at.column).None?;
    assert StringMatch(input, i, at.line, at.column).None?;
    assert LongestNumberPrefix(input[i..]).None?;
  }
}
