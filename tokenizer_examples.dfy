/** Behaviour of the tokenizer (src/Token/Tokenizer.php) on particular inputs and
    characters: the `empty()` shortcut, the unexpected-symbol error, prefix keywords,
    the maximal-munch number examples, the tokens of `[1,]` and a non-terminating
    trailing minus. */
module TokenizerExamples {
  import opened Wrappers
  import opened Location
  import opened TokenTypes
  import opened NumberHelper
  import opened NumberGrammar
  import opened NumberStates
  import opened StringGrammar
  import opened Tokenizer
  import opened TokenizerFacts

  /** Empty input, and the one-byte input `0` that PHP's `empty()` also accepts,
      give no tokens. */
  lemma EmptyInputs(source: Option<string>)
    ensures Lex("", source) == Tokens([])
    ensures Lex("0", source) == Tokens([])
  {
  }

  /** `<` at the very start is reported at 1:1. */
  lemma UnexpectedSymbolAtStart(source: Option<string>)
    ensures Lex("<", source) == UnexpectedSymbol('<', 1, 1)
  {
    NoRecognizerAt("<", 0, 1, 1);
  }

  /** Keywords are matched as plain prefixes: `trueX` yields `true` and then fails on
      `X` at column 5. */
  lemma KeywordIsPrefixMatch(source: Option<string>)
    ensures Lex("trueX", source) == UnexpectedSymbol('X', 1, 5)
  {
    var input := "trueX";
    assert StartsWith(input, 0, "true");
    assert StepAt(input, Cursor(0, 1, 1), source).next == Cursor(4, 1, 5);
    NoRecognizerAt(input, 4, 1, 5);
  }

  /** `[1,]` is four one-byte tokens: the bracket, the number `1`, the comma and the
      closing bracket, each one column to the right of the one before. */
  lemma TrailingCommaArrayTokens(input: seq<char>)
    requires input == "[1,]"
    ensures Lex(input, None) == Tokens([
      Token(LeftBracket, None, Loc(1, 1, 0, 1, 2, 1, None)),
      Token(Number, Some("1"), Loc(1, 2, 1, 1, 3, 2, None)),
      Token(Comma, None, Loc(1, 3, 2, 1, 4, 3, None)),
      Token(RightBracket, None, Loc(1, 4, 3, 1, 5, 4, None))])
  {
    PunctuatorsInArray(input);
    NumberInArray(input);
    var t0 := Token(LeftBracket, None, Loc(1, 1, 0, 1, 2, 1, None));
    var t1 := Token(Number, Some("1"), Loc(1, 2, 1, 1, 3, 2, None));
    var t2 := Token(Comma, None, Loc(1, 3, 2, 1, 4, 3, None));
    var t3 := Token(RightBracket, None, Loc(1, 4, 3, 1, 5, 4, None));
    assert LexFrom(input, Cursor(4, 1, 5), None) == Tokens([]);
    LexEmits(input, Cursor(3, 1, 4), None, t3, Cursor(4, 1, 5));
    LexEmits(input, Cursor(2, 1, 3), None, t2, Cursor(3, 1, 4));
    LexEmits(input, Cursor(1, 1, 2), None, t1, Cursor(2, 1, 3));
    LexEmits(input, Cursor(0, 1, 1), None, t0, Cursor(1, 1, 2));
    assert [t0] + ([t1] + ([t2] + ([t3] + []))) == [t0, t1, t2, t3];
  }

  /** A step that emits a token and moves on puts that token in front of the rest. */
  lemma LexEmits(input: seq<char>, at: Cursor, source: Option<string>, t: Token, next: Cursor)
    requires at.index < |input| && StepAt(input, at, source) == Emit(t, next) && next.index != at.index
    ensures LexFrom(input, at, source) == Prepend(t, LexFrom(input, next, source))
  {
  }

  lemma PunctuatorsInArray(input: seq<char>)
    requires input == "[1,]"
    ensures StepAt(input, Cursor(0, 1, 1), None) == Emit(Token(LeftBracket, None, Loc(1, 1, 0, 1, 2, 1, None)), Cursor(1, 1, 2))
    ensures StepAt(input, Cursor(2, 1, 3), None) == Emit(Token(Comma, None, Loc(1, 3, 2, 1, 4, 3, None)), Cursor(3, 1, 4))
    ensures StepAt(input, Cursor(3, 1, 4), None) == Emit(Token(RightBracket, None, Loc(1, 4, 3, 1, 5, 4, None)), Cursor(4, 1, 5))
  {
  }

  /** The `1` of `[1,]` is a number token that stops at the comma. */
  lemma NumberInArray(input: seq<char>)
    requires input == "[1,]"
    ensures StepAt(input, Cursor(1, 1, 2), None) == Emit(Token(Number, Some("1"), Loc(1, 2, 1, 1, 3, 2, None)), Cursor(2, 1, 3))
  {
    NumberEndInArray(input);
    assert input[1..2] == "1";
    NoLiteralAfterBadStart(input, 1);
  }

  lemma NumberEndInArray(input: seq<char>)
    requires input == "[1,]"
    ensures NumberEnd(input, 1) == Some(2)
  {
    var w := "1,]";
    assert input[1..] == w;
    Prefixes3(w);
    RunSnoc([], '1');
    RunSnoc("1", ',');
    RunSnoc("1,", ']');
    NumberEndIs(w, 1);
  }

  /** At any offset above 0, a `-` that ends the input is matched as an empty number
      token, after which the main loop would run forever. */
  lemma TrailingMinusDiverges(input: seq<char>, at: Cursor, source: Option<string>)
    requires 0 < at.index < |input| && input[at.index..] == ['-']
    ensures LexFrom(input, at, source) == Diverges(at)
  {
    var w := input[at.index..];
    assert w == ['-'] && w[..0] == [] && w[..1] == w;
    assert RunFrom(Start, w[..0]) == Some(Start);
    NumberIffAccepted(w);
    assert !NumberPrefix(w, 0) && !NumberPrefix(w, 1);
    NoLiteralAfterBadStart(input, at.index);
  }

  /** `01`: a leading zero ends the number, so only `0` is taken. */
  lemma LeadingZeroStops()
    ensures NumberEnd("01", 0) == Some(1)
  {
    Prefixes2("01");
    RunSnoc([], '0');
    RunSnoc("0", '1');
    NumberEndIs("01", 1);
  }

  /** `1.`: a point without a digit after it is not taken. */
  lemma BarePointStops()
    ensures NumberEnd("1.", 0) == Some(1)
  {
    Prefixes2("1.");
    RunSnoc([], '1');
    RunSnoc("1", '.');
    NumberEndIs("1.", 1);
  }

  /** `1e+`: an exponent without digits is not taken. */
  lemma BareExponentStops()
    ensures NumberEnd("1e+", 0) == Some(1)
  {
    Prefixes3("1e+");
    RunSnoc([], '1');
    RunSnoc("1", 'e');
    RunSnoc("1e", '+');
    NumberEndIs("1e+", 1);
  }

  /** `-0` is a whole number. */
  lemma NegativeZero()
    ensures NumberEnd("-0", 0) == Some(2)
  {
    Prefixes2("-0");
    RunSnoc([], '-');
    RunSnoc("-", '0');
    NumberEndIs("-0", 2);
  }

  /** A lone `-` at offset 0 is no number at all. */
  lemma LoneMinusAtStart()
    ensures NumberEnd("-", 0) == None
  {
    var m := "-";
    assert m[0..] == m && m[..0] == [] && m[..1] == m;
    NumberIffAccepted(m);
    assert !NumberPrefix(m, 0) && !NumberPrefix(m, 1);
  }

  lemma Prefixes2(w: seq<char>)
    requires |w| == 2
    ensures w[..1] == [] + [w[0]] && w[..2] == w[..1] + [w[1]]
  {
  }

  lemma Prefixes3(w: seq<char>)
    requires |w| == 3
    ensures w[..1] == [] + [w[0]] && w[..2] == w[..1] + [w[1]] && w[..3] == w[..2] + [w[2]]
  {
  }

  /** Reading one more character. */
  lemma RunSnoc(w: seq<char>, c: char)
    ensures Run(w + [c]) ==
      match Run(w)
      case None => None
      case Some(q) => var s := Transition(q, c); if s.Next? then Some(s.state) else None
  {
    assert (w + [c])[..|w|] == w;
  }

  /** A number token read off the machine's states over every prefix of `w`. */
  lemma NumberEndIs(w: seq<char>, n: nat)
    requires 0 < n <= |w|
    requires Run(w[..n]).Some? && IsDigit(w[n - 1])
    requires forall k | n < k <= |w| :: Run(w[..k]).None? || !IsDigit(w[k - 1])
    ensures NumberEnd(w, 0) == Some(n)
  {
    assert w[0..] == w;
    NumberIffAccepted(w[..n]);
    assert w[..n][n - 1] == w[n - 1];
    forall k | n < k <= |w| ensures !NumberPrefix(w, k) {
      NumberIffAccepted(w[..k]);
      assert w[..k][k - 1] == w[k - 1];
    }
    NumberFound(w, 0, n);
  }
}
