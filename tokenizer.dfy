/** The tokenizer (src/Token/Tokenizer.php): one left-to-right scan over the input
    that skips whitespace and tries, in order, the punctuator, keyword, string and
    number recognizers at each position. */
module Tokenizer {
  import opened Wrappers
  import opened NumberHelper
  import opened Location
  import opened TokenTypes
  import opened NumberGrammar
  import opened NumberStates
  import opened StringGrammar
  import opened SeqFacts

  /** The scan position: what `parseWhitespace` returns and what the main loop threads. */
  datatype Cursor = Cursor(index: nat, line: nat, column: nat)

  /** `punctuatorTokensMap` */
  const PunctuatorTokens: map<char, TokenType> :=
    map['{' := LeftBrace, '}' := RightBrace, '[' := LeftBracket,
        ']' := RightBracket, ':' := Colon, ',' := Comma]

  /** `keywordTokensMap`, in its iteration order. */
  const KeywordTokens: seq<(string, TokenType)> :=
    [("true", True), ("false", False), ("null", Null)]

  predicate IsWhitespace(c: char)
  {
    c == ' ' || c == '\t' || c == '\n' || c == '\r'
  }

  predicate IsNewline(c: char)
  {
    c == '\n' || c == '\r'
  }

  // ---------------------------------------------------------------------------
  // The straight-line recognizers.

  /** `parseWhitespace`: consumes one blank or one line break (CR LF counts as one). */
  function ParseWhitespace(input: seq<char>, index: nat, line: nat, column: nat): (r: Option<Cursor>)
    requires index < |input|
    ensures r.Some? <==> IsWhitespace(input[index])
    ensures r.Some? ==> index < r.value.index <= |input|
    ensures r.Some? ==> forall k | index <= k < r.value.index :: IsWhitespace(input[k])
    ensures r.Some? && !IsNewline(input[index]) ==> r.value == Cursor(index + 1, line, column + 1)
    ensures r.Some? && IsNewline(input[index]) ==> r.value.line == line + 1 && r.value.column == 1
    ensures r.Some? && IsNewline(input[index]) ==>
      r.value.index == index + (if input[index] == '\r' && index + 1 < |input| && input[index + 1] == '\n' then 2 else 1)
  {
    var c := input[index];
    if c == '\r' then
      if index + 1 < |input| && input[index + 1] == '\n' then Some(Cursor(index + 2, line + 1, 1))
      else Some(Cursor(index + 1, line + 1, 1))
    else if c == '\n' then Some(Cursor(index + 1, line + 1, 1))
    else if c == '\t' || c == ' ' then Some(Cursor(index + 1, line, column + 1))
    else None
  }

  /** `parseChar`: a one-character punctuator. */
  function ParseChar(input: seq<char>, index: nat, line: nat, column: nat): (r: Option<Match>)
    requires index < |input|
    ensures r.Some? <==> input[index] in PunctuatorTokens
    ensures r.Some? ==> IsPunctuatorKind(r.value.kind) && r.value.kind == PunctuatorTokens[input[index]]
    ensures r.Some? ==> r.value.index == index + 1 && r.value.line == line && r.value.column == column + 1
    ensures r.Some? ==> r.value.value == None
  {
    var c := input[index];
    if c in PunctuatorTokens then Some(Match(PunctuatorTokens[c], line, column + 1, index + 1, None))
    else None
  }

  /** The prefix test `substr($input, $index, strlen($name)) === $name`. */
  predicate StartsWith(input: seq<char>, index: nat, word: string)
  {
    index + |word| <= |input| && input[index..index + |word|] == word
  }

  /** `parseKeyword`: the first keyword of the table that is a prefix of the rest of
      the input. Nothing is required to follow it, so `trueX` yields `true`. */
  function ParseKeyword(input: seq<char>, index: nat, line: nat, column: nat): (r: Option<Match>)
    requires index <= |input|
    ensures r.Some? <==> exists k | 0 <= k < |KeywordTokens| :: StartsWith(input, index, KeywordTokens[k].0)
    ensures r.Some? ==> IsKeywordKind(r.value.kind) && r.value.line == line
    ensures r.Some? ==> index < r.value.index <= |input| && r.value.column == column + (r.value.index - index)
    ensures r.Some? ==> r.value.value == Some(input[index..r.value.index]) &&
                        (input[index..r.value.index], r.value.kind) in KeywordTokens
  {
    KeywordFrom(input, index, line, column, 0)
  }

  function KeywordFrom(input: seq<char>, index: nat, line: nat, column: nat, k: nat): (r: Option<Match>)
    requires index <= |input| && k <= |KeywordTokens|
    ensures r.Some? <==> exists j | k <= j < |KeywordTokens| :: StartsWith(input, index, KeywordTokens[j].0)
    ensures r.Some? ==> IsKeywordKind(r.value.kind) && r.value.line == line
    ensures r.Some? ==> index < r.value.index <= |input| && r.value.column == column + (r.value.index - index)
    ensures r.Some? ==> r.value.value == Some(input[index..r.value.index]) &&
                        (input[index..r.value.index], r.value.kind) in KeywordTokens
    decreases |KeywordTokens| - k
  {
    if k == |KeywordTokens| then None
    else
      var (name, kind) := KeywordTokens[k];
      if StartsWith(input, index, name) then
        Some(Match(kind, line, column + |name|, index + |name|, Some(name)))
      else KeywordFrom(input, index, line, column, k + 1)
  }

  // ---------------------------------------------------------------------------
  // The string recognizer.

  /** The string token at `index`, as the grammar determines it. */
  function StringMatch(input: seq<char>, index: nat, line: nat, column: nat): (r: Option<Match>)
    requires index <= |input|
    ensures r.Some? <==> exists e | index <= e <= |input| :: LiteralAt(input, index, e)
    ensures r.Some? ==> r.value.kind == String && index < r.value.index <= |input| && LiteralAt(input, index, r.value.index)
    ensures r.Some? ==> r.value.line == line && r.value.column == column + (r.value.index - index)
    ensures r.Some? ==> r.value.value == Some(input[index..r.value.index])
  {
    match StringEnd(input, index)
    case None => None
    case Some(e) => Some(Match(String, line, column + (e - index), e, Some(input[index..e])))
  }

  datatype StringState = StringStart | StartQuoteOrChar | Escape

  /** No candidate `input[start..e]` with `e <= i` is a string token. */
  predicate NoLiteralUpTo(input: seq<char>, start: nat, i: nat)
    requires start <= i <= |input|
  {
    forall e | start <= e <= i :: !LiteralAt(input, start, e)
  }

  /** What the string machine knows in each state after reading `input[start..i]`:
      no candidate so far is a token, and what it has read forms a valid body (up to a
      pending backslash in the `Escape` state). */
  predicate Scanned(input: seq<char>, start: nat, i: nat, state: StringState)
    requires start <= i <= |input|
  {
    NoLiteralUpTo(input, start, i) &&
    match state
    case StringStart => i == start
    case StartQuoteOrChar => start < i && input[start] == '"' && Body(input[start + 1..i])
    case Escape =>
      start + 2 <= i && input[start] == '"' && input[i - 1] == '\\' && Body(input[start + 1..i - 1])
  }

  /** `parseString`: the string state machine. (`$buffer` is accumulated by the source
      but never read, so it is left out.) */
  method ParseString(input: seq<char>, index: nat, line: nat, column: nat) returns (m: Option<Match>)
    requires index <= |input|
    ensures m == StringMatch(input, index, line, column)
  {
    var start := index;
    var i := index;
    var state := StringStart;
    while i < |input|
      invariant start <= i <= |input|
      invariant Scanned(input, start, i, state)
      decreases |input| - i
    {
      var c := input[i];
      match state
      case StringStart =>
        if c == '"' {
          ScanOpen(input, start);
          i := i + 1;
          state := StartQuoteOrChar;
        } else {
          NoLiteralAfterBadStart(input, start);
          return None;
        }
      case StartQuoteOrChar =>
        if c == '\\' {
          ScanBackslash(input, start, i);
          i := i + 1;
          state := Escape;
        } else if c == '"' {
          i := i + 1;
          ClosingQuote(input, start, i);
          return Some(Match(String, line, column + (i - start), i, Some(input[start..i])));
        } else {
          ScanPlain(input, start, i);
          i := i + 1;
        }
      case Escape =>
        var next := ParseEscape(input, start, i);
        if next.None? {
          return None;
        }
        i := next.value;
        state := StartQuoteOrChar;
    }
    return None;
  }

  /** The `Escape` case of `parseString`'s switch: the character after a backslash
      and, after `u`, the four hex digits the inner loop reads. Either the escape is
      complete and the machine reads body characters again from `next`, or no string
      token starts at `start`. */
  method ParseEscape(input: seq<char>, start: nat, i: nat) returns (next: Option<nat>)
    requires start <= i < |input|
    requires Scanned(input, start, i, Escape)
    ensures next.Some? ==> i < next.value <= |input| && Scanned(input, start, next.value, StartQuoteOrChar)
    ensures next.None? ==> StringEnd(input, start).None?
  {
    var c := input[i];
    if c !in EscapeChars {
      NoLiteralAfterBadEscape(input, start, i);
      return None;
    }
    var bs := i - 1;
    EscapedCharStep(input, start, i);
    var j := i + 1;
    if c == 'u' {
      for k := 0 to 4
        invariant j == bs + 2 + k <= |input|
        invariant forall p | bs + 2 <= p < j :: HexAccepted(input[p])
        invariant NoLiteralUpTo(input, start, j)
      {
        if j < |input| && HexAccepted(input[j]) {
          NoLiteralExtend(input, start, j);
          j := j + 1;
        } else {
          NoLiteralAfterBadHex(input, start, bs, j);
          return None;
        }
      }
      UnicodeStep(input, start, bs);
    } else {
      EscapeStep(input, start, bs);
    }
    ScanResume(input, start, j);
    return Some(j);
  }

  lemma ScanOpen(input: seq<char>, start: nat)
    requires start < |input| && input[start] == '"'
    requires Scanned(input, start, start, StringStart)
    ensures Scanned(input, start, start + 1, StartQuoteOrChar)
  {
    NoLiteralExtend(input, start, start);
    assert input[start + 1..start + 1] == [];
  }

  lemma ScanBackslash(input: seq<char>, start: nat, i: nat)
    requires start <= i < |input| && input[i] == '\\'
    requires Scanned(input, start, i, StartQuoteOrChar)
    ensures Scanned(input, start, i + 1, Escape)
  {
    NoLiteralExtend(input, start, i);
  }

  lemma ScanPlain(input: seq<char>, start: nat, i: nat)
    requires start <= i < |input| && input[i] != '\\' && input[i] != '"'
    requires Scanned(input, start, i, StartQuoteOrChar)
    ensures Scanned(input, start, i + 1, StartQuoteOrChar)
  {
    NoLiteralExtend(input, start, i);
    PlainStep(input, start, i);
  }

  /** After a complete escape the machine reads body characters again. */
  lemma ScanResume(input: seq<char>, start: nat, i: nat)
    requires start < i <= |input| && input[start] == '"'
    requires Body(input[start + 1..i]) && NoLiteralUpTo(input, start, i)
    ensures Scanned(input, start, i, StartQuoteOrChar)
  {
  }

  /** A candidate that does not end in a quote is not a string token. */
  lemma NoLiteralExtend(input: seq<char>, start: nat, i: nat)
    requires start <= i < |input| && (input[i] != '"' || i == start)
    requires NoLiteralUpTo(input, start, i)
    ensures NoLiteralUpTo(input, start, i + 1)
  {
    var t := input[start..i + 1];
    assert t[|t| - 1] == input[i];
  }

  /** The character after a backslash never closes the token, even when it is a quote. */
  lemma EscapedCharStep(input: seq<char>, start: nat, i: nat)
    requires start + 2 <= i < |input| && input[i - 1] == '\\'
    requires Body(input[start + 1..i - 1])
    requires NoLiteralUpTo(input, start, i)
    ensures NoLiteralUpTo(input, start, i + 1)
  {
    var t := input[start..i + 1];
    SliceOfSlice(input, start, i + 1, 1, |t| - 1);
    assert input[start + 1..i] == input[start + 1..i - 1] + ['\\'];
    BodyNotBackslash(input[start + 1..i - 1]);
  }

  /** A plain character extends the body. */
  lemma PlainStep(input: seq<char>, start: nat, i: nat)
    requires start + 1 <= i < |input| && input[i] != '"' && input[i] != '\\'
    requires Body(input[start + 1..i])
    ensures Body(input[start + 1..i + 1])
  {
    BodySnocPlain(input[start + 1..i], input[i]);
    assert input[start + 1..i + 1] == input[start + 1..i] + [input[i]];
  }

  /** A simple escape extends the body. */
  lemma EscapeStep(input: seq<char>, start: nat, bs: nat)
    requires start + 1 <= bs && bs + 2 <= |input| && input[bs] == '\\' && IsSimpleEscape(input[bs + 1])
    requires Body(input[start + 1..bs])
    ensures Body(input[start + 1..bs + 2])
  {
    BodySnocEscape(input[start + 1..bs], input[bs + 1]);
    assert input[start + 1..bs + 2] == input[start + 1..bs] + ['\\', input[bs + 1]];
  }

  /** A complete `\u` escape extends the body. */
  lemma UnicodeStep(input: seq<char>, start: nat, bs: nat)
    requires start + 1 <= bs && bs + 6 <= |input|
    requires input[bs] == '\\' && input[bs + 1] == 'u'
    requires forall j | bs + 2 <= j < bs + 6 :: HexAccepted(input[j])
    requires Body(input[start + 1..bs])
    ensures Body(input[start + 1..bs + 6])
  {
    FourHexAt(input, bs + 2);
    BodySnocUnicode(input[start + 1..bs], input[bs + 2..bs + 6]);
    UnicodeSplit(input, start, bs);
  }

  lemma FourHexAt(input: seq<char>, p: nat)
    requires p + 4 <= |input|
    requires forall j | p <= j < p + 4 :: HexAccepted(input[j])
    ensures FourHex(input[p..p + 4])
  {
    var h := input[p..p + 4];
    assert h[0] == input[p] && h[1] == input[p + 1] && h[2] == input[p + 2] && h[3] == input[p + 3];
  }

  lemma UnicodeSplit(input: seq<char>, start: nat, bs: nat)
    requires start + 1 <= bs && bs + 6 <= |input|
    requires input[bs] == '\\' && input[bs + 1] == 'u'
    ensures input[start + 1..bs + 6] == input[start + 1..bs] + ['\\', 'u'] + input[bs + 2..bs + 6]
  {
    assert input[bs..bs + 6] == ['\\', 'u'] + input[bs + 2..bs + 6];
    SplitAt(input, start + 1, bs, bs + 6);
  }

  /** A string token must open with a quote. */
  lemma NoLiteralAfterBadStart(input: seq<char>, start: nat)
    requires start < |input| && input[start] != '"'
    ensures StringEnd(input, start).None?
  {
    forall e | start <= e <= |input| ensures !LiteralAt(input, start, e) {
      if e > start { assert input[start..e][0] == input[start]; }
    }
  }

  /** The first unescaped quote after a valid body closes the token. */
  lemma ClosingQuote(input: seq<char>, start: nat, i: nat)
    requires start + 2 <= i <= |input| && input[start] == '"' && input[i - 1] == '"'
    requires Body(input[start + 1..i - 1])
    ensures StringEnd(input, start) == Some(i)
  {
    var t := input[start..i];
    SliceOfSlice(input, start, i, 1, |t| - 1);
    assert LiteralAt(input, start, i);
    StringLiteralUnique(input, start, StringEnd(input, start).value, i);
  }

  /** A candidate `input[start..e]` whose body has a valid prefix `input[start + 1..m]`
      is a token only if the body goes on validly with `input[m..e - 1]`. */
  lemma LiteralRest(input: seq<char>, start: nat, m: nat, e: nat)
    requires start + 1 <= m < e <= |input| && m <= e - 1
    requires Body(input[start + 1..m])
    ensures LiteralAt(input, start, e) ==> Body(input[m..e - 1])
  {
    var t := input[start..e];
    SliceOfSlice(input, start, e, 1, |t| - 1);
    SplitAt(input, start + 1, m, e - 1);
    if Body(input[start + 1..e - 1]) {
      BodyCancel(input[start + 1..m], input[m..e - 1]);
    }
  }

  /** A backslash followed by nothing, or by a character outside the escape table,
      is no body. */
  lemma BadEscapeBody(y: seq<char>)
    requires |y| >= 1 && y[0] == '\\' && (|y| >= 2 ==> y[1] !in EscapeChars)
    ensures !Body(y)
  {
  }

  /** A backslash followed by a character outside the escape table ends every candidate. */
  lemma NoLiteralAfterBadEscape(input: seq<char>, start: nat, i: nat)
    requires start + 2 <= i < |input| && input[i - 1] == '\\' && input[i] !in EscapeChars
    requires Body(input[start + 1..i - 1])
    requires NoLiteralUpTo(input, start, i)
    ensures StringEnd(input, start).None?
  {
    forall e | i < e <= |input| ensures !LiteralAt(input, start, e) {
      var y := input[i - 1..e - 1];
      assert y[0] == '\\';
      if |y| >= 2 { assert y[1] == input[i]; }
      BadEscapeBody(y);
      LiteralRest(input, start, i - 1, e);
    }
  }

  /** A `\u` escape with fewer than four accepted hex digits ends every candidate. */
  lemma NoLiteralAfterBadHex(input: seq<char>, start: nat, bs: nat, p: nat)
    requires start + 1 <= bs && bs + 2 <= p < bs + 6 && p <= |input|
    requires input[bs] == '\\' && input[bs + 1] == 'u'
    requires p == |input| || !HexAccepted(input[p])
    requires Body(input[start + 1..bs])
    requires NoLiteralUpTo(input, start, p)
    ensures StringEnd(input, start).None?
  {
    forall e | p < e <= |input| ensures !LiteralAt(input, start, e) {
      var y := input[bs..e - 1];
      assert y[0] == '\\' && y[1] == 'u';
      if |y| > p - bs {
        assert y[p - bs] == input[p];
      }
      BadHexBody(y, p - bs);
      LiteralRest(input, start, bs, e);
    }
  }

  /** A `\u` whose digit at position `q` is missing or refused is no body. */
  lemma BadHexBody(y: seq<char>, q: nat)
    requires 2 <= q < 6 && q <= |y| && y[0] == '\\' && y[1] == 'u'
    requires q == |y| || !HexAccepted(y[q])
    ensures !Body(y)
  {
    if |y| >= 6 {
      assert y[2..6][q - 2] == y[q];
    }
  }

  // ---------------------------------------------------------------------------
  // The number recognizer.

  /** Where the number token at `index` ends, as the grammar determines it: after the
      longest prefix that is a JSON number. With no such prefix there is no match,
      except that a lone `-` at the very end of the input, at an offset above 0, is
      matched as an empty token (the `$passedValueIndex > 0` test sees the start index). */
  function NumberEnd(input: seq<char>, index: nat): (r: Option<nat>)
    requires index <= |input|
    ensures r.Some? ==> index <= r.value <= |input|
  {
    match LongestNumberPrefix(input[index..])
    case Some(k) => Some(index + k)
    case None => if index > 0 && (input[index..] == [] || input[index..] == ['-']) then Some(index) else None
  }

  function NumberMatch(input: seq<char>, index: nat, line: nat, column: nat): (r: Option<Match>)
    requires index <= |input|
    ensures r.Some? <==> NumberEnd(input, index).Some?
    ensures r.Some? ==> r.value.kind == Number && r.value.index == NumberEnd(input, index).value
    ensures r.Some? ==> r.value.line == line && r.value.column == column + (r.value.index - index)
    ensures r.Some? ==> r.value.value == Some(input[index..r.value.index])
  {
    match NumberEnd(input, index)
    case None => None
    case Some(e) => Some(Match(Number, line, column + (e - index), e, Some(input[index..e])))
  }

  /** What the number machine knows after reading the first `n` characters of `w`:
      the state it is in, and that the longest number prefix read so far has length
      `p` (0 while no digit has been seen). */
  predicate NumberScanned(w: seq<char>, n: nat, p: nat, state: NumberState)
    requires p <= n <= |w|
  {
    Run(w[..n]) == Some(state) &&
    (p == 0 <==> state == NumberState.Start || state == Minus) &&
    (p > 0 ==> NumberPrefix(w, p)) &&
    forall k | p < k <= n :: !NumberPrefix(w, k)
  }

  /** `parseNumber`: the number state machine. */
  method ParseNumber(input: seq<char>, index: nat, line: nat, column: nat) returns (m: Option<Match>)
    requires index <= |input|
    ensures m == NumberMatch(input, index, line, column)
  {
    var start := index;
    var passed := index;
    var state := NumberState.Start;
    var i := index;
    assert input[start..][..0] == [];
    while i < |input|
      invariant start <= passed <= i <= |input|
      invariant NumberScanned(input[start..], i - start, passed - start, state)
      decreases |input| - i
    {
      var c := input[i];
      var step := Transition(state, c);
      if step.Reject? {
        NumberRejected(input, start, i, state);
        return None;
      } else if step.Stop? {
        NumberStopped(input, start, i, passed, state);
        break;
      }
      NumberAdvanceAt(input, start, i, passed, state);
      if step.accepted {
        passed := i + 1;
      }
      state := step.state;
      i := i + 1;
    }
    if i == |input| {
      NumberExhausted(input, start, passed, state);
    }
    m := NumberResult(input, start, line, column, passed);
  }

  /** The end of `parseNumber`: a token up to `$passedValueIndex` when that is above 0. */
  method NumberResult(input: seq<char>, start: nat, line: nat, column: nat, passed: nat) returns (m: Option<Match>)
    requires start <= passed <= |input|
    requires NumberEnd(input, start) == if passed > 0 then Some(passed) else None
    ensures m == NumberMatch(input, start, line, column)
  {
    if passed > 0 {
      m := Some(Match(Number, line, column + (passed - start), passed, Some(input[start..passed])));
    } else {
      m := None;
    }
  }

  /** One consumed character keeps the machine's knowledge up to date. */
  lemma NumberAdvance(w: seq<char>, n: nat, p: nat, state: NumberState)
    requires p <= n < |w| && NumberScanned(w, n, p, state) && Transition(state, w[n]).Next?
    ensures var s := Transition(state, w[n]);
      NumberScanned(w, n + 1, if s.accepted then n + 1 else p, s.state)
  {
    PrefixStep(w, n);
  }

  lemma NumberAdvanceAt(input: seq<char>, start: nat, i: nat, passed: nat, state: NumberState)
    requires start <= passed <= i < |input|
    requires NumberScanned(input[start..], i - start, passed - start, state)
    requires Transition(state, input[i]).Next?
    ensures var s := Transition(state, input[i]);
      NumberScanned(input[start..], i + 1 - start, (if s.accepted then i + 1 else passed) - start, s.state)
  {
    assert input[start..][i - start] == input[i];
    NumberAdvance(input[start..], i - start, passed - start, state);
  }

  /** Where the machine stops, the longest prefix seen is the token. */
  lemma NumberStopped(input: seq<char>, start: nat, i: nat, passed: nat, state: NumberState)
    requires start <= passed <= i < |input|
    requires NumberScanned(input[start..], i - start, passed - start, state)
    requires Transition(state, input[i]).Stop?
    ensures NumberEnd(input, start) == if passed > 0 then Some(passed) else None
  {
    assert input[start..][i - start] == input[i];
    PrefixDeath(input[start..], i - start);
    NumberFound(input, start, passed);
  }

  /** At the end of the input, the longest prefix seen is the token, or, before any
      digit, the empty token when the offset is above 0. */
  lemma NumberExhausted(input: seq<char>, start: nat, passed: nat, state: NumberState)
    requires start <= passed <= |input|
    requires NumberScanned(input[start..], |input| - start, passed - start, state)
    ensures NumberEnd(input, start) == if passed > 0 then Some(passed) else None
  {
    var w := input[start..];
    assert w[..|input| - start] == w;
    if passed == start {
      NoDigitYet(w);
      NumberNotFound(input, start);
    } else {
      NumberFound(input, start, passed);
    }
  }

  /** A longest number prefix that nothing after it extends fixes the token's end. */
  lemma NumberFound(input: seq<char>, start: nat, p: nat)
    requires start < p <= |input| && NumberPrefix(input[start..], p - start)
    requires forall k | p - start < k <= |input| - start :: !NumberPrefix(input[start..], k)
    ensures NumberEnd(input, start) == Some(p)
  {
  }

  /** Without any number prefix, only the special case of a lone `-` or the end of
      the input remains. */
  lemma NumberNotFound(input: seq<char>, start: nat)
    requires start <= |input|
    requires forall k | 0 < k <= |input| - start :: !NumberPrefix(input[start..], k)
    ensures NumberEnd(input, start) ==
      if start > 0 && (input[start..] == [] || input[start..] == ['-']) then Some(start) else None
  {
    assert input[start..][..0] == [];
  }

  /** A character the machine rejects before any digit: no number starts here. */
  lemma NumberRejected(input: seq<char>, start: nat, i: nat, state: NumberState)
    requires start <= i < |input|
    requires NumberScanned(input[start..], i - start, 0, state)
    requires Transition(state, input[i]).Reject?
    ensures NumberEnd(input, start).None?
  {
    var w := input[start..];
    assert w[i - start] == input[i];
    PrefixDeath(w, i - start);
    NumberNotFound(input, start);
    NoDigitYet(w[..i - start]);
    if i == start {
      assert w[..0] == [];
    }
  }

  // ---------------------------------------------------------------------------
  // The main loop, specified as a function of the input.

  /** The recognizers in priority order; the first match wins. */
  function Recognize(input: seq<char>, index: nat, line: nat, column: nat): (r: Option<Match>)
    requires index < |input|
    ensures r.Some? ==> index <= r.value.index <= |input| && r.value.line == line
    ensures r.Some? ==> r.value.column == column + (r.value.index - index)
  {
    var p := ParseChar(input, index, line, column);
    if p.Some? then p
    else
      var k := ParseKeyword(input, index, line, column);
      if k.Some? then k
      else
        var s := StringMatch(input, index, line, column);
        if s.Some? then s
        else NumberMatch(input, index, line, column)
  }

  /** What one pass of the main loop does at a position. */
  datatype Step =
    | Skip(next: Cursor)
    | Emit(token: Token, next: Cursor)
    | Fail(symbol: char, line: nat, column: nat)

  function StepAt(input: seq<char>, at: Cursor, source: Option<string>): (r: Step)
    requires at.index < |input|
    ensures r.Skip? ==> at.index < r.next.index <= |input|
    ensures r.Emit? ==> at.index <= r.next.index <= |input|
  {
    match ParseWhitespace(input, at.index, at.line, at.column)
    case Some(c) => Skip(c)
    case None =>
      match Recognize(input, at.index, at.line, at.column)
      case None => Fail(input[at.index], at.line, at.column)
      case Some(m) =>
        Emit(Token(m.kind, m.value, Loc(at.line, at.column, at.index, m.line, m.column, m.index, source)),
             Cursor(m.index, m.line, m.column))
  }

  /** The result of tokenizing: the token list, the `UnexpectedSymbol` error with the
      offending byte and its position, or the report that the loop never ends. */
  datatype LexOutcome =
    | Tokens(tokens: seq<Token>)
    | UnexpectedSymbol(symbol: char, line: nat, column: nat)
    | Diverges(at: Cursor)

  function Prepend(t: Token, o: LexOutcome): LexOutcome
  {
    if o.Tokens? then Tokens([t] + o.tokens) else o
  }

  function PrependAll(ts: seq<Token>, o: LexOutcome): LexOutcome
  {
    if o.Tokens? then Tokens(ts + o.tokens) else o
  }

  /** The scan from a position. A step that emits a token without advancing would be
      repeated forever by the source's loop; it is reported as `Diverges`. */
  function LexFrom(input: seq<char>, at: Cursor, source: Option<string>): (r: LexOutcome)
    requires at.index <= |input|
    ensures r.Diverges? ==> at.index <= r.at.index < |input|
    decreases |input| - at.index
  {
    if at.index == |input| then Tokens([])
    else
      match StepAt(input, at, source)
      case Skip(next) => LexFrom(input, next, source)
      case Fail(c, l, col) => UnexpectedSymbol(c, l, col)
      case Emit(t, next) =>
        if next.index == at.index then Diverges(at)
        else Prepend(t, LexFrom(input, next, source))
  }

  /** PHP's `empty()`, which also holds for the one-byte string "0". */
  predicate PhpEmpty(input: seq<char>)
  {
    input == [] || input == "0"
  }

  function Lex(input: seq<char>, source: Option<string>): LexOutcome
  {
    if PhpEmpty(input) then Tokens([]) else LexFrom(input, Cursor(0, 1, 1), source)
  }

  /** `tokenize` */
  method Tokenize(input: seq<char>, source: Option<string>) returns (r: LexOutcome)
    ensures r == Lex(input, source)
  {
    if PhpEmpty(input) {
      return Tokens([]);
    }
    var line, column, index := 1, 1, 0;
    var tokens := [];
    while index < |input|
      invariant index <= |input|
      invariant Lex(input, source) == PrependAll(tokens, LexFrom(input, Cursor(index, line, column), source))
      decreases |input| - index
    {
      var whitespace := ParseWhitespace(input, index, line, column);
      if whitespace.Some? {
        LexWhitespace(input, Cursor(index, line, column), source);
        index, line, column := whitespace.value.index, whitespace.value.line, whitespace.value.column;
        continue;
      }
      var matched := ParseChar(input, index, line, column);
      if matched.None? {
        matched := ParseKeyword(input, index, line, column);
      }
      if matched.None? {
        matched := ParseString(input, index, line, column);
      }
      if matched.None? {
        matched := ParseNumber(input, index, line, column);
      }
      assert matched == Recognize(input, index, line, column);
      if matched.Some? {
        var m := matched.value;
        var token := Token(m.kind, m.value, Loc(line, column, index, m.line, m.column, m.index, source));
        LexMatched(input, Cursor(index, line, column), source);
        if m.index == index {
          return Diverges(Cursor(index, line, column));
        }
        PrependAllSnoc(tokens, token, LexFrom(input, Cursor(m.index, m.line, m.column), source));
        tokens := tokens + [token];
        index, line, column := m.index, m.line, m.column;
      } else {
        LexUnmatched(input, Cursor(index, line, column), source);
        return UnexpectedSymbol(input[index], line, column);
      }
    }
    return Tokens(tokens);
  }

  lemma LexWhitespace(input: seq<char>, at: Cursor, source: Option<string>)
    requires at.index < |input| && ParseWhitespace(input, at.index, at.line, at.column).Some?
    ensures LexFrom(input, at, source) ==
      LexFrom(input, ParseWhitespace(input, at.index, at.line, at.column).value, source)
  {
  }

  lemma LexMatched(input: seq<char>, at: Cursor, source: Option<string>)
    requires at.index < |input| && ParseWhitespace(input, at.index, at.line, at.column).None?
    requires Recognize(input, at.index, at.line, at.column).Some?
    ensures var m := Recognize(input, at.index, at.line, at.column).value;
      LexFrom(input, at, source) ==
        if m.index == at.index then Diverges(at)
        else Prepend(Token(m.kind, m.value, Loc(at.line, at.column, at.index, m.line, m.column, m.index, source)),
                     LexFrom(input, Cursor(m.index, m.line, m.column), source))
  {
  }

  lemma LexUnmatched(input: seq<char>, at: Cursor, source: Option<string>)
    requires at.index < |input| && ParseWhitespace(input, at.index, at.line, at.column).None?
    requires Recognize(input, at.index, at.line, at.column).None?
    ensures LexFrom(input, at, source) == UnexpectedSymbol(input[at.index], at.line, at.column)
  {
  }

  lemma PrependAllSnoc(ts: seq<Token>, t: Token, o: LexOutcome)
    ensures PrependAll(ts, Prepend(t, o)) == PrependAll(ts + [t], o)
  {
    if o.Tokens? {
      assert ts + ([t] + o.tokens) == ts + [t] + o.tokens;
    }
  }
}
