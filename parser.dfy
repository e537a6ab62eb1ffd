/** The parser of src/Parser.php: an index-based descent over the token list in which
    objects, properties and arrays are explicit state loops.

    Each piece of the parser appears twice: as a function over `(tokens, index)` that
    says what the piece returns (`PropertyAt`, `ObjectFrom`, `ArrayFrom`, `ValueAt`,
    `ParseOutcome`), and as a method shaped like the source's loop (`ParseProperty`,
    `ParseObject`, `ParseArray`, `ParseValue`, `Parse`) proved to return exactly that.

    A PHP `null` return ("no match") is `NoMatch`; a thrown `ParserException` is
    `Failed` with the exception's kind and index. */
module Parser {
  import opened Wrappers
  import opened Location
  import opened TokenTypes
  import opened StringGrammar
  import opened Tokenizer
  import opened TokenizerFacts
  import opened SeqFacts
  import StringDecoding

  /** The configuration after defaulting: whether to attach spans, and the label. */
  datatype Config = Config(loc: bool, source: Option<string>)

  /** `['loc' => true, 'source' => null]` */
  const DefaultConfig: Config := Config(true, None)

  /** A literal's value. A number keeps its raw text: nothing is converted. */
  datatype Value = VString(text: string) | VNumber(digits: string) | VBool(b: bool) | VNull

  /** A property key: the decoded string, the raw token text, and the span. */
  datatype Identifier = Identifier(value: string, raw: string, loc: Option<Span>)

  datatype Node =
    | Literal(value: Value, raw: string, loc: Option<Span>)
    | ObjectNode(properties: seq<Property>, loc: Option<Span>)
    | ArrayNode(elements: seq<Node>, loc: Option<Span>)

  datatype Property = Property(key: Identifier, value: Node, loc: Option<Span>)

  /** The two `ParserException` kinds, a case the source leaves to PHP warnings, and
      the tokenizer's two ways of not producing a token list. */
  datatype ParseError =
    | UnexpectedEnd
    | UnexpectedToken(index: nat)
    | Unspecified
    | SymbolError(symbol: char, line: nat, column: nat)
    | NoTermination(at: nat)

  /** The errors the parser itself raises. */
  predicate IsParserError(e: ParseError)
  {
    e.UnexpectedEnd? || e.UnexpectedToken? || e.Unspecified?
  }

  /** A sub-parse: a value and the index after it, a PHP `null`, or an exception. */
  datatype Attempt<T> = Matched(value: T, next: nat) | NoMatch | Failed(error: ParseError)

  datatype PropertyState = PropertyStart | AfterKey | AfterColon
  datatype ObjectState = ObjectStart | OpenObject | AfterProperty | AfterComma
  datatype ArrayState = ArrayStart | OpenArray | AfterValue | AfterArrayComma

  predicate IsLiteralKind(k: TokenType)
  {
    k == String || k == Number || IsKeywordKind(k)
  }

  /** A token's own span, attached only when `loc` is set. */
  function LocIf(config: Config, t: Token): (r: Option<Span>)
    ensures r.Some? <==> config.loc
    ensures r.Some? ==> r.value == t.loc
  {
    if config.loc then Some(t.loc) else None
  }

  /** `Location::loc` from the start of `first` to the end of `last`, attached only
      when `loc` is set. */
  function Between(config: Config, first: Token, last: Token): (r: Option<Span>)
    ensures r.Some? <==> config.loc
    ensures r.Some? ==> r.value.start == first.loc.start && r.value.end == last.loc.end
    ensures r.Some? ==> r.value.source == config.source
  {
    if config.loc then
      Some(Loc(first.loc.start.line, first.loc.start.column, first.loc.start.offset,
               last.loc.end.line, last.loc.end.column, last.loc.end.offset, config.source))
    else None
  }

  /** What the parser reads off a token: the text of every non-punctuator token,
      and for a string token a body between its quotes. */
  predicate TokenReadable(input: seq<char>, t: Token)
  {
    var s, e := t.loc.start.offset, t.loc.end.offset;
    s <= e <= |input| &&
    (!IsPunctuatorKind(t.kind) ==> t.value == Some(input[s..e])) &&
    (t.kind == String ==> s + 2 <= e && Body(input[s + 1..e - 1]))
  }

  predicate Readable(input: seq<char>, ts: seq<Token>)
  {
    forall k {:trigger TokenReadable(input, ts[k])} | 0 <= k < |ts| :: TokenReadable(input, ts[k])
  }

  /** Every token the tokenizer makes is readable. */
  lemma TokensReadable(input: seq<char>, ts: seq<Token>)
    requires AllTokensOk(input, ts)
    ensures Readable(input, ts)
  {
    forall k | 0 <= k < |ts| ensures TokenReadable(input, ts[k]) {
      OneTokenReadable(input, ts[k]);
    }
  }

  lemma OneTokenReadable(input: seq<char>, t: Token)
    requires TokenOk(input, t)
    ensures TokenReadable(input, t)
  {
    var s, e := t.loc.start.offset, t.loc.end.offset;
    if t.kind == String {
      assert StringEnd(input, s) == Some(e);
      StringContent(input, s, e);
    }
  }

  lemma StringContent(input: seq<char>, s: nat, e: nat)
    requires s <= e <= |input| && LiteralAt(input, s, e)
    ensures s + 2 <= e && Body(input[s + 1..e - 1])
  {
    assert IsStringLiteral(input[s..e]);
    SliceOfSlice(input, s, e, 1, e - s - 1);
  }

  /** The text between a string token's quotes,
      `substr($input, start + 1, (end - 1) - (start + 1))`. */
  function Content(input: seq<char>, t: Token): (c: seq<char>)
    requires TokenReadable(input, t) && t.kind == String
    ensures Body(c)
    ensures |c| + 2 == t.loc.end.offset - t.loc.start.offset
  {
    input[t.loc.start.offset + 1..t.loc.end.offset - 1]
  }

  /** The text of a token, `$token['value']`. */
  function Raw(input: seq<char>, t: Token): (r: string)
    requires TokenReadable(input, t) && !IsPunctuatorKind(t.kind)
    ensures r == input[t.loc.start.offset..t.loc.end.offset]
  {
    t.value.value
  }

  // ---------------------------------------------------------------------------
  // What each piece returns.

  /** `parseLiteral`: a literal token becomes a `Literal` node, anything else is no
      match. */
  function LiteralOf(input: seq<char>, ts: seq<Token>, i: nat, config: Config): (r: Attempt<Node>)
    requires Readable(input, ts) && i < |ts|
    ensures !r.Failed?
    ensures r.Matched? <==> IsLiteralKind(ts[i].kind)
    ensures r.Matched? ==> r.next == i + 1 && r.value.Literal?
    ensures r.Matched? ==> r.value.raw == Raw(input, ts[i])
    ensures r.Matched? ==> r.value.loc == LocIf(config, ts[i])
    ensures ts[i].kind == Number ==> r.Matched? && r.value.value == VNumber(r.value.raw)
    ensures ts[i].kind == True ==> r.Matched? && r.value.value == VBool(true)
    ensures ts[i].kind == False ==> r.Matched? && r.value.value == VBool(false)
    ensures ts[i].kind == Null ==> r.Matched? && r.value.value == VNull
    ensures ts[i].kind == String ==>
      r.Matched? && r.value.value == VString(StringDecoding.Decoded(Content(input, ts[i])))
  {
    var t := ts[i];
    assert TokenReadable(input, t);
    if !IsLiteralKind(t.kind) then NoMatch
    else
      var value := match t.kind
        case String => VString(StringDecoding.Decoded(Content(input, t)))
        case Number => VNumber(Raw(input, t))
        case True => VBool(true)
        case False => VBool(false)
        case _ => VNull;
      Matched(Literal(value, Raw(input, t), LocIf(config, t)), i + 1)
  }

  /** The key a string token makes. */
  function KeyOf(input: seq<char>, t: Token, config: Config): (k: Identifier)
    requires TokenReadable(input, t) && t.kind == String
    ensures k.raw == input[t.loc.start.offset..t.loc.end.offset] && |k.value| + 2 <= |k.raw|
    ensures k.value == StringDecoding.Decoded(Content(input, t))
    ensures k.loc == LocIf(config, t)
  {
    Identifier(StringDecoding.Decoded(Content(input, t)), Raw(input, t), LocIf(config, t))
  }

  /** `parseProperty`: STRING COLON value. Running out of tokens after the key or
      after the colon falls off the end of the source's loop, which is a `null`
      return. The span runs from the key to the end of the FIRST token of the value. */
  function PropertyAt(input: seq<char>, ts: seq<Token>, i: nat, config: Config): (r: Attempt<Property>)
    requires Readable(input, ts) && i < |ts|
    ensures r.NoMatch? <==>
      ts[i].kind != String || i + 1 == |ts| || (ts[i + 1].kind == Colon && i + 2 == |ts|)
    ensures r.Matched? ==> i + 2 < r.next <= |ts|
    ensures r.Matched? ==> ts[i].kind == String && ts[i + 1].kind == Colon
    ensures r.Matched? ==> r.value.key == KeyOf(input, ts[i], config)
    ensures r.Matched? ==> r.value.loc == Between(config, ts[i], ts[i + 2])
    ensures r.Failed? ==> IsParserError(r.error)
    ensures r.Failed? && r.error.UnexpectedToken? ==> i < r.error.index < |ts|
    decreases |ts| - i, 0
  {
    var key := ts[i];
    if key.kind != String || i + 1 == |ts| then NoMatch
    else if ts[i + 1].kind != Colon then Failed(UnexpectedToken(i + 1))
    else if i + 2 == |ts| then NoMatch
    else
      var v := ValueAt(input, ts, i + 2, config);
      if v.Failed? then Failed(v.error)
      else Matched(Property(KeyOf(input, key, config), v.value, Between(config, key, ts[i + 2])), v.next)
  }

  /** One unfolding of `PropertyAt` once the key and the colon are read. */
  lemma PropertyAtValue(input: seq<char>, ts: seq<Token>, i: nat, config: Config)
    requires Readable(input, ts) && i + 2 < |ts| && ts[i].kind == String && ts[i + 1].kind == Colon
    ensures var v := ValueAt(input, ts, i + 2, config);
      PropertyAt(input, ts, i, config) ==
        if v.Failed? then Failed(v.error)
        else Matched(Property(KeyOf(input, ts[i], config), v.value, Between(config, ts[i], ts[i + 2])), v.next)
  {
  }

  /** The object loop of `parseObject` after the opening brace `open`: from `index`
      in `state`, with the properties read so far. */
  function ObjectFrom(input: seq<char>, ts: seq<Token>, index: nat, state: ObjectState,
                      properties: seq<Property>, open: Token, config: Config): (r: Attempt<Node>)
    requires Readable(input, ts) && index <= |ts| && state != ObjectStart
    ensures !r.NoMatch?
    ensures r.Matched? ==> index < r.next <= |ts|
    ensures r.Failed? ==> IsParserError(r.error)
    ensures r.Failed? && r.error.UnexpectedToken? ==> index <= r.error.index < |ts|
    decreases |ts| - index, 1
  {
    if index == |ts| then Failed(UnexpectedEnd)
    else
      var t := ts[index];
      if state != AfterComma && t.kind == RightBrace then
        Matched(ObjectNode(properties, Between(config, open, t)), index + 1)
      else if state == AfterProperty then
        if t.kind == Comma then ObjectFrom(input, ts, index + 1, AfterComma, properties, open, config)
        else Failed(UnexpectedToken(index))
      else
        // OPEN_OBJECT before anything but `}`, and COMMA: a property must follow.
        var p := PropertyAt(input, ts, index, config);
        if p.Failed? then Failed(p.error)
        else if p.NoMatch? then Failed(if state == OpenObject then Unspecified else UnexpectedToken(index))
        else ObjectFrom(input, ts, p.next, AfterProperty, properties + [p.value], open, config)
  }

  /** `parseObject` at index `i`: START expects `{`. */
  function ObjectAt(input: seq<char>, ts: seq<Token>, i: nat, config: Config): (r: Attempt<Node>)
    requires Readable(input, ts) && i < |ts|
    ensures r.NoMatch? <==> ts[i].kind != LeftBrace
    ensures r.Matched? ==> i < r.next <= |ts|
    ensures r.Failed? ==> IsParserError(r.error)
    ensures r.Failed? && r.error.UnexpectedToken? ==> i < r.error.index < |ts|
  {
    if ts[i].kind != LeftBrace then NoMatch
    else ObjectFrom(input, ts, i + 1, OpenObject, [], ts[i], config)
  }

  /** The array loop of `parseArray` after the opening bracket `open`. After an
      element only `]` is accepted; a `,` straight after `[` is skipped. */
  function ArrayFrom(input: seq<char>, ts: seq<Token>, index: nat, state: ArrayState,
                     elements: seq<Node>, open: Token, config: Config): (r: Attempt<Node>)
    requires Readable(input, ts) && index <= |ts| && state != ArrayStart
    ensures !r.NoMatch?
    ensures r.Matched? ==> index < r.next <= |ts|
    ensures r.Failed? ==> IsParserError(r.error)
    ensures r.Failed? && r.error.UnexpectedToken? ==> index <= r.error.index < |ts|
    decreases |ts| - index, 3
  {
    if index == |ts| then Failed(UnexpectedEnd)
    else
      var t := ts[index];
      if state != AfterArrayComma && t.kind == RightBracket then
        Matched(ArrayNode(elements, Between(config, open, t)), index + 1)
      else if state == AfterValue then Failed(UnexpectedToken(index))
      else if state == OpenArray && t.kind == Comma then
        ArrayFrom(input, ts, index + 1, AfterArrayComma, elements, open, config)
      else
        // OPEN_ARRAY before anything but `]` or `,`, and COMMA: a value must follow.
        var v := ValueAt(input, ts, index, config);
        if v.Failed? then Failed(v.error)
        else ArrayFrom(input, ts, v.next, AfterValue, elements + [v.value], open, config)
  }

  /** `parseArray` at index `i`: START expects `[`. */
  function ArrayAt(input: seq<char>, ts: seq<Token>, i: nat, config: Config): (r: Attempt<Node>)
    requires Readable(input, ts) && i < |ts|
    ensures r.NoMatch? <==> ts[i].kind != LeftBracket
    ensures r.Matched? ==> i < r.next <= |ts|
    ensures r.Failed? ==> IsParserError(r.error)
    ensures r.Failed? && r.error.UnexpectedToken? ==> i < r.error.index < |ts|
  {
    if ts[i].kind != LeftBracket then NoMatch
    else ArrayFrom(input, ts, i + 1, OpenArray, [], ts[i], config)
  }

  /** `parseValue`, by the kind of the token at `i`: a literal token is a literal, `{`
      starts an object and `[` an array; any other token is unexpected. The method
      `ParseValue` below keeps the source's `??` chain and is proved to agree. */
  function ValueAt(input: seq<char>, ts: seq<Token>, i: nat, config: Config): (r: Attempt<Node>)
    requires Readable(input, ts) && i < |ts|
    ensures !r.NoMatch?
    ensures r.Matched? ==> i < r.next <= |ts|
    ensures r.Failed? ==> IsParserError(r.error)
    ensures r.Failed? && r.error.UnexpectedToken? ==> i <= r.error.index < |ts|
    decreases |ts| - i, 2
  {
    var t := ts[i];
    if IsLiteralKind(t.kind) then LiteralOf(input, ts, i, config)
    else if t.kind == LeftBrace then ObjectFrom(input, ts, i + 1, OpenObject, [], t, config)
    else if t.kind == LeftBracket then ArrayFrom(input, ts, i + 1, OpenArray, [], t, config)
    else Failed(UnexpectedToken(i))
  }

  /** `parse` after tokenizing: a value must start at token 0 and end at the last
      token. */
  function FromTokens(input: seq<char>, ts: seq<Token>, config: Config): (r: Result<Node, ParseError>)
    requires Readable(input, ts)
    ensures ts == [] ==> r == Err(UnexpectedEnd)
    ensures r.Ok? <==> ts != [] && ValueAt(input, ts, 0, config).Matched? && ValueAt(input, ts, 0, config).next == |ts|
    ensures r.Ok? ==> r.value == ValueAt(input, ts, 0, config).value
    ensures ts != [] && ValueAt(input, ts, 0, config).Matched? && ValueAt(input, ts, 0, config).next < |ts| ==>
      r == Err(UnexpectedToken(ValueAt(input, ts, 0, config).next))
    ensures ts != [] && ValueAt(input, ts, 0, config).Failed? ==> r == Err(ValueAt(input, ts, 0, config).error)
    ensures r.Err? ==> IsParserError(r.error)
    ensures r.Err? && r.error.UnexpectedToken? ==> r.error.index < |ts|
  {
    if ts == [] then Err(UnexpectedEnd)
    else
      var v := ValueAt(input, ts, 0, config);
      if v.Failed? then Err(v.error)
      else if v.next == |ts| then Ok(v.value)
      else Err(UnexpectedToken(v.next))
  }

  /** `parse`: tokenize, then parse the token list. */
  function ParseOutcome(input: seq<char>, config: Config): Result<Node, ParseError>
  {
    match Lex(input, config.source)
    case UnexpectedSymbol(c, l, col) => Err(SymbolError(c, l, col))
    case Diverges(at) => Err(NoTermination(at.index))
    case Tokens(ts) =>
      LexTokensOk(input, config.source, ts);
      TokensReadable(input, ts);
      FromTokens(input, ts, config)
  }

  // ---------------------------------------------------------------------------
  // One turn of the object and array loops, for the methods below.

  lemma ObjectPropertyStep(input: seq<char>, ts: seq<Token>, index: nat, state: ObjectState,
                           properties: seq<Property>, open: Token, config: Config)
    requires Readable(input, ts) && index < |ts| && (state == OpenObject || state == AfterComma)
    requires state == OpenObject ==> ts[index].kind != RightBrace
    requires PropertyAt(input, ts, index, config).Matched?
    ensures var p := PropertyAt(input, ts, index, config);
      ObjectFrom(input, ts, index, state, properties, open, config) ==
      ObjectFrom(input, ts, p.next, AfterProperty, properties + [p.value], open, config)
  {
  }

  lemma ObjectCloseStep(input: seq<char>, ts: seq<Token>, index: nat, state: ObjectState,
                        properties: seq<Property>, open: Token, config: Config)
    requires Readable(input, ts) && index < |ts| && state != ObjectStart && state != AfterComma
    requires ts[index].kind == RightBrace
    ensures ObjectFrom(input, ts, index, state, properties, open, config) ==
      Matched(ObjectNode(properties, Between(config, open, ts[index])), index + 1)
  {
  }

  lemma ArrayValueStep(input: seq<char>, ts: seq<Token>, index: nat, state: ArrayState,
                       elements: seq<Node>, open: Token, config: Config)
    requires Readable(input, ts) && index < |ts| && (state == OpenArray || state == AfterArrayComma)
    requires state == OpenArray ==> ts[index].kind != RightBracket && ts[index].kind != Comma
    requires ValueAt(input, ts, index, config).Matched?
    ensures var v := ValueAt(input, ts, index, config);
      ArrayFrom(input, ts, index, state, elements, open, config) ==
      ArrayFrom(input, ts, v.next, AfterValue, elements + [v.value], open, config)
  {
  }

  lemma ObjectCommaStep(input: seq<char>, ts: seq<Token>, index: nat,
                        properties: seq<Property>, open: Token, config: Config)
    requires Readable(input, ts) && index < |ts| && ts[index].kind == Comma
    ensures ObjectFrom(input, ts, index, AfterProperty, properties, open, config) ==
      ObjectFrom(input, ts, index + 1, AfterComma, properties, open, config)
  {
  }

  lemma ArrayCommaStep(input: seq<char>, ts: seq<Token>, index: nat,
                       elements: seq<Node>, open: Token, config: Config)
    requires Readable(input, ts) && index < |ts| && ts[index].kind == Comma
    ensures ArrayFrom(input, ts, index, OpenArray, elements, open, config) ==
      ArrayFrom(input, ts, index + 1, AfterArrayComma, elements, open, config)
  {
  }

  // ---------------------------------------------------------------------------
  // The source's loops.

  /** `parseLiteral`, switching on the token type. */
  method ParseLiteral(input: seq<char>, ts: seq<Token>, i: nat, config: Config) returns (r: Attempt<Node>)
    requires Readable(input, ts) && i < |ts|
    ensures r == LiteralOf(input, ts, i, config)
  {
    var t := ts[i];
    assert TokenReadable(input, t);
    var value: Value;
    match t.kind {
      case String =>
        var s := StringDecoding.ParseString(Content(input, t));
        value := VString(s);
      case Number =>
        value := VNumber(Raw(input, t));
      case True =>
        value := VBool(true);
      case False =>
        value := VBool(false);
      case Null =>
        value := VNull;
      case _ =>
        return NoMatch;
    }
    r := Matched(Literal(value, Raw(input, t), LocIf(config, t)), i + 1);
  }

  /** `parseValue`: the `??` chain; an exception from `parseObject` ends the chain. */
  method ParseValue(input: seq<char>, ts: seq<Token>, i: nat, config: Config) returns (r: Attempt<Node>)
    requires Readable(input, ts) && i < |ts|
    ensures r == ValueAt(input, ts, i, config)
    decreases |ts| - i, 1
  {
    r := ParseLiteral(input, ts, i, config);
    if r.NoMatch? {
      r := ParseObject(input, ts, i, config);
    }
    if r.NoMatch? {
      r := ParseArray(input, ts, i, config);
    }
    if r.NoMatch? {
      r := Failed(UnexpectedToken(i));
    }
  }

  /** `parseProperty`: the START / KEY / COLON loop. */
  method ParseProperty(input: seq<char>, ts: seq<Token>, i: nat, config: Config) returns (r: Attempt<Property>)
    requires Readable(input, ts) && i < |ts|
    ensures r == PropertyAt(input, ts, i, config)
    decreases |ts| - i, 0
  {
    var index := i;
    var state := PropertyStart;
    var key := Identifier([], [], None);
    while index < |ts|
      invariant i <= index <= |ts|
      invariant state == PropertyStart ==> index == i
      invariant state == AfterKey ==> index == i + 1 && ts[i].kind == String && key == KeyOf(input, ts[i], config)
      invariant state == AfterColon ==>
        index == i + 2 && ts[i].kind == String && ts[i + 1].kind == Colon && key == KeyOf(input, ts[i], config)
      decreases |ts| - index
    {
      var t := ts[index];
      if state == PropertyStart {
        if t.kind != String {
          return NoMatch;
        }
        assert TokenReadable(input, t);
        var value := StringDecoding.ParseString(Content(input, t));
        key := Identifier(value, Raw(input, t), LocIf(config, t));
        state := AfterKey;
        index := index + 1;
      } else if state == AfterKey {
        if t.kind != Colon {
          return Failed(UnexpectedToken(index));
        }
        state := AfterColon;
        index := index + 1;
      } else {
        PropertyAtValue(input, ts, i, config);
        var v := ParseValue(input, ts, index, config);
        if v.Failed? {
          return Failed(v.error);
        }
        return Matched(Property(key, v.value, Between(config, ts[i], t)), v.next);
      }
    }
    // Out of tokens: the source's loop ends and the function returns nothing.
    return NoMatch;
  }

  /** `parseObject`: the START / OPEN_OBJECT / PROPERTY / COMMA loop. */
  method ParseObject(input: seq<char>, ts: seq<Token>, i: nat, config: Config) returns (r: Attempt<Node>)
    requires Readable(input, ts) && i < |ts|
    ensures r == ObjectAt(input, ts, i, config)
    decreases |ts| - i, 0
  {
    var index := i;
    var state := ObjectStart;
    var properties: seq<Property> := [];
    var open := ts[i];
    while index < |ts|
      invariant i <= index <= |ts|
      invariant state == ObjectStart ==> index == i && properties == []
      invariant state != ObjectStart ==>
        i < index && ObjectAt(input, ts, i, config) == ObjectFrom(input, ts, index, state, properties, open, config)
      decreases |ts| - index
    {
      var t := ts[index];
      if state == ObjectStart {
        if t.kind != LeftBrace {
          return NoMatch;
        }
        open := t;
        state := OpenObject;
        index := index + 1;
      } else if state != AfterComma && t.kind == RightBrace {
        // OPEN_OBJECT and PROPERTY both close on `}`.
        return Matched(ObjectNode(properties, Between(config, open, t)), index + 1);
      } else if state == AfterProperty {
        if t.kind != Comma {
          return Failed(UnexpectedToken(index));
        }
        state := AfterComma;
        index := index + 1;
      } else {
        var p := ParseProperty(input, ts, index, config);
        if p.Failed? {
          return Failed(p.error);
        } else if p.NoMatch? {
          // After `{` PHP goes on with a null property and a null index, with
          // warnings; after `,` the source throws.
          return Failed(if state == OpenObject then Unspecified else UnexpectedToken(index));
        }
        ObjectPropertyStep(input, ts, index, state, properties, open, config);
        properties := properties + [p.value];
        state := AfterProperty;
        index := p.next;
      }
    }
    return Failed(UnexpectedEnd);
  }

  /** `parseArray`: the START / OPEN_ARRAY / VALUE / COMMA loop. The `,` branch of
      OPEN_ARRAY sets `ObjectStates::COMMA`, taken here to be the value of
      `ArrayStates::COMMA`. */
  method ParseArray(input: seq<char>, ts: seq<Token>, i: nat, config: Config) returns (r: Attempt<Node>)
    requires Readable(input, ts) && i < |ts|
    ensures r == ArrayAt(input, ts, i, config)
    decreases |ts| - i, 0
  {
    var index := i;
    var state := ArrayStart;
    var elements: seq<Node> := [];
    var open := ts[i];
    while index < |ts|
      invariant i <= index <= |ts|
      invariant state == ArrayStart ==> index == i && elements == []
      invariant state != ArrayStart ==>
        i < index && ArrayAt(input, ts, i, config) == ArrayFrom(input, ts, index, state, elements, open, config)
      decreases |ts| - index
    {
      var t := ts[index];
      if state == ArrayStart {
        if t.kind != LeftBracket {
          return NoMatch;
        }
        open := t;
        state := OpenArray;
        index := index + 1;
      } else if state != AfterArrayComma && t.kind == RightBracket {
        // OPEN_ARRAY and VALUE both close on `]`.
        return Matched(ArrayNode(elements, Between(config, open, t)), index + 1);
      } else if state == AfterValue {
        return Failed(UnexpectedToken(index));
      } else if state == OpenArray && t.kind == Comma {
        state := AfterArrayComma;
        index := index + 1;
      } else {
        var v := ParseValue(input, ts, index, config);
        if v.Failed? {
          return Failed(v.error);
        }
        ArrayValueStep(input, ts, index, state, elements, open, config);
        index := v.next;
        elements := elements + [v.value];
        state := AfterValue;
      }
    }
    return Failed(UnexpectedEnd);
  }

  /** `parse` */
  method Parse(input: seq<char>, config: Config) returns (r: Result<Node, ParseError>)
    ensures r == ParseOutcome(input, config)
  {
    var lexed := Tokenize(input, config.source);
    match lexed {
      case UnexpectedSymbol(c, l, col) =>
        return Err(SymbolError(c, l, col));
      case Diverges(at) =>
        return Err(NoTermination(at.index));
      case Tokens(ts) =>
        LexTokensOk(input, config.source, ts);
        TokensReadable(input, ts);
        if ts == [] {
          return Err(UnexpectedEnd);
        }
        var v := ParseValue(input, ts, 0, config);
        if v.Failed? {
          return Err(v.error);
        }
        if v.next == |ts| {
          return Ok(v.value);
        }
        return Err(UnexpectedToken(v.next));
    }
  }
}
