/** What the parser of src/Parser.php returns, stated over the spec functions of
    module `Parser`: the shape and span of every node, which token starts which
    kind of node, and how the object and array loops treat commas. */
module ParserFacts {
  import opened Wrappers
  import opened Location
  import opened TokenTypes
  import opened Tokenizer
  import opened Parser
  import opened TokenizerFacts
  import opened TokenizerExamples

  /** An object the loop completes ends at a `}`. */
  lemma {:induction false} ObjectFromCloses(input: seq<char>, ts: seq<Token>, index: nat, state: ObjectState,
                                            properties: seq<Property>, open: Token, config: Config)
    requires Readable(input, ts) && index <= |ts| && state != ObjectStart
    ensures var r := ObjectFrom(input, ts, index, state, properties, open, config);
      r.Matched? ==>
        ts[r.next - 1].kind == RightBrace && r.value.ObjectNode?
    decreases |ts| - index, 1
  {
    if index < |ts| {
      var t := ts[index];
      if state != AfterComma && t.kind == RightBrace {
        ObjectCloseStep(input, ts, index, state, properties, open, config);
      } else if state == AfterProperty {
        if t.kind == Comma {
          ObjectCommaStep(input, ts, index, properties, open, config);
          ObjectFromCloses(input, ts, index + 1, AfterComma, properties, open, config);
        }
      } else {
        ObjectPropertyCloses(input, ts, index, state, properties, open, config);
      }
    }
  }

  lemma {:induction false} ObjectPropertyCloses(input: seq<char>, ts: seq<Token>, index: nat, state: ObjectState,
                                                properties: seq<Property>, open: Token, config: Config)
    requires Readable(input, ts) && index < |ts| && (state == OpenObject || state == AfterComma)
    requires state == OpenObject ==> ts[index].kind != RightBrace
    ensures var r := ObjectFrom(input, ts, index, state, properties, open, config);
      r.Matched? ==>
        ts[r.next - 1].kind == RightBrace && r.value.ObjectNode?
    decreases |ts| - index, 0
  {
    var p := PropertyAt(input, ts, index, config);
    if p.Matched? {
      ObjectPropertyStep(input, ts, index, state, properties, open, config);
      ObjectFromCloses(input, ts, p.next, AfterProperty, properties + [p.value], open, config);
    }
  }

  /** An object the loop completes spans from its `{` to its last token. */
  lemma {:induction false} ObjectFromSpan(input: seq<char>, ts: seq<Token>, index: nat, state: ObjectState,
                                            properties: seq<Property>, open: Token, config: Config)
    requires Readable(input, ts) && index <= |ts| && state != ObjectStart
    ensures var r := ObjectFrom(input, ts, index, state, properties, open, config);
      r.Matched? ==>
        r.value.loc == Between(config, open, ts[r.next - 1])
    decreases |ts| - index, 1
  {
    if index < |ts| {
      var t := ts[index];
      if state != AfterComma && t.kind == RightBrace {
        ObjectCloseStep(input, ts, index, state, properties, open, config);
      } else if state == AfterProperty {
        if t.kind == Comma {
          ObjectCommaStep(input, ts, index, properties, open, config);
          ObjectFromSpan(input, ts, index + 1, AfterComma, properties, open, config);
        }
      } else {
        ObjectPropertySpan(input, ts, index, state, properties, open, config);
      }
    }
  }

  lemma {:induction false} ObjectPropertySpan(input: seq<char>, ts: seq<Token>, index: nat, state: ObjectState,
                                              properties: seq<Property>, open: Token, config: Config)
    requires Readable(input, ts) && index < |ts| && (state == OpenObject || state == AfterComma)
    requires state == OpenObject ==> ts[index].kind != RightBrace
    ensures var r := ObjectFrom(input, ts, index, state, properties, open, config);
      r.Matched? ==>
        r.value.loc == Between(config, open, ts[r.next - 1])
    decreases |ts| - index, 0
  {
    var p := PropertyAt(input, ts, index, config);
    if p.Matched? {
      ObjectPropertyStep(input, ts, index, state, properties, open, config);
      ObjectFromSpan(input, ts, p.next, AfterProperty, properties + [p.value], open, config);
      var q := ObjectFrom(input, ts, p.next, AfterProperty, properties + [p.value], open, config);
      assert ObjectFrom(input, ts, index, state, properties, open, config) == q;
    }
  }

  /** The properties read before are kept, in front. */
  lemma {:induction false} ObjectFromKeeps(input: seq<char>, ts: seq<Token>, index: nat, state: ObjectState,
                                           properties: seq<Property>, open: Token, config: Config)
    requires Readable(input, ts) && index <= |ts| && state != ObjectStart
    ensures var r := ObjectFrom(input, ts, index, state, properties, open, config);
      r.Matched? ==> r.value.ObjectNode? && properties <= r.value.properties
    decreases |ts| - index
  {
    if index < |ts| {
      var t := ts[index];
      if state != AfterComma && t.kind == RightBrace {
        ObjectCloseStep(input, ts, index, state, properties, open, config);
      } else if state == AfterProperty {
        if t.kind == Comma {
          ObjectCommaStep(input, ts, index, properties, open, config);
          ObjectFromKeeps(input, ts, index + 1, AfterComma, properties, open, config);
        }
      } else {
        var p := PropertyAt(input, ts, index, config);
        if p.Matched? {
          ObjectPropertyStep(input, ts, index, state, properties, open, config);
          ObjectFromKeeps(input, ts, p.next, AfterProperty, properties + [p.value], open, config);
        }
      }
    }
  }

  /** An array the loop completes ends at a `]`. */
  lemma {:induction false} ArrayFromCloses(input: seq<char>, ts: seq<Token>, index: nat, state: ArrayState,
                                           elements: seq<Node>, open: Token, config: Config)
    requires Readable(input, ts) && index <= |ts| && state != ArrayStart
    ensures var r := ArrayFrom(input, ts, index, state, elements, open, config);
      r.Matched? ==> ts[r.next - 1].kind == RightBracket && r.value.ArrayNode?
    decreases |ts| - index
  {
    if index < |ts| {
      var t := ts[index];
      if state != AfterArrayComma && t.kind == RightBracket {
      } else if state == AfterValue {
      } else if state == OpenArray && t.kind == Comma {
        ArrayCommaStep(input, ts, index, elements, open, config);
        ArrayFromCloses(input, ts, index + 1, AfterArrayComma, elements, open, config);
      } else {
        var v := ValueAt(input, ts, index, config);
        if v.Matched? {
          ArrayValueStep(input, ts, index, state, elements, open, config);
          ArrayFromCloses(input, ts, v.next, AfterValue, elements + [v.value], open, config);
        }
      }
    }
  }

  /** An array the loop completes spans from its `[` to its last token. */
  lemma {:induction false} ArrayFromSpan(input: seq<char>, ts: seq<Token>, index: nat, state: ArrayState,
                                         elements: seq<Node>, open: Token, config: Config)
    requires Readable(input, ts) && index <= |ts| && state != ArrayStart
    ensures var r := ArrayFrom(input, ts, index, state, elements, open, config);
      r.Matched? ==> r.value.loc == Between(config, open, ts[r.next - 1])
    decreases |ts| - index
  {
    if index < |ts| {
      var t := ts[index];
      if state != AfterArrayComma && t.kind == RightBracket {
      } else if state == AfterValue {
      } else if state == OpenArray && t.kind == Comma {
        ArrayCommaStep(input, ts, index, elements, open, config);
        ArrayFromSpan(input, ts, index + 1, AfterArrayComma, elements, open, config);
      } else {
        var v := ValueAt(input, ts, index, config);
        if v.Matched? {
          ArrayValueStep(input, ts, index, state, elements, open, config);
          ArrayFromSpan(input, ts, v.next, AfterValue, elements + [v.value], open, config);
        }
      }
    }
  }

  /** The elements read before are kept in front. After an element nothing more is
      added; otherwise at most one element is. */
  lemma {:induction false} ArrayFromKeeps(input: seq<char>, ts: seq<Token>, index: nat, state: ArrayState,
                                          elements: seq<Node>, open: Token, config: Config)
    requires Readable(input, ts) && index <= |ts| && state != ArrayStart
    ensures var r := ArrayFrom(input, ts, index, state, elements, open, config);
      r.Matched? ==>
        r.value.ArrayNode? && elements <= r.value.elements && |r.value.elements| <= |elements| + 1 &&
        (state == AfterValue ==> r.value.elements == elements)
    decreases |ts| - index
  {
    if index < |ts| {
      var t := ts[index];
      if state != AfterArrayComma && t.kind == RightBracket {
      } else if state == AfterValue {
      } else if state == OpenArray && t.kind == Comma {
        ArrayCommaStep(input, ts, index, elements, open, config);
        ArrayFromKeeps(input, ts, index + 1, AfterArrayComma, elements, open, config);
      } else {
        var v := ValueAt(input, ts, index, config);
        if v.Matched? {
          ArrayValueStep(input, ts, index, state, elements, open, config);
          ArrayFromKeeps(input, ts, v.next, AfterValue, elements + [v.value], open, config);
        }
      }
    }
  }

  /** `parseObject` returns an object node from its `{` to the matching `}`. */
  lemma ObjectAtShape(input: seq<char>, ts: seq<Token>, i: nat, config: Config)
    requires Readable(input, ts) && i < |ts|
    ensures var r := ObjectAt(input, ts, i, config);
      r.Matched? ==>
        r.value.ObjectNode? && ts[r.next - 1].kind == RightBrace &&
        r.value.loc == Between(config, ts[i], ts[r.next - 1])
  {
    if ts[i].kind == LeftBrace {
      ObjectFromCloses(input, ts, i + 1, OpenObject, [], ts[i], config);
      ObjectFromSpan(input, ts, i + 1, OpenObject, [], ts[i], config);
    }
  }

  /** `parseArray` returns an array node from its `[` to the matching `]`, holding
      at most one element: the loop accepts no `,` after an element. */
  lemma ArrayAtShape(input: seq<char>, ts: seq<Token>, i: nat, config: Config)
    requires Readable(input, ts) && i < |ts|
    ensures var r := ArrayAt(input, ts, i, config);
      r.Matched? ==>
        r.value.ArrayNode? && ts[r.next - 1].kind == RightBracket && |r.value.elements| <= 1 &&
        r.value.loc == Between(config, ts[i], ts[r.next - 1])
  {
    if ts[i].kind == LeftBracket {
      ArrayFromCloses(input, ts, i + 1, OpenArray, [], ts[i], config);
      ArrayFromSpan(input, ts, i + 1, OpenArray, [], ts[i], config);
      ArrayFromKeeps(input, ts, i + 1, OpenArray, [], ts[i], config);
    }
  }

  /** `n` carries a span exactly when `loc` is set, running from the start of `first`
      to the end of `last`. */
  predicate SpansTokens(config: Config, n: Node, first: Token, last: Token)
  {
    (n.loc.Some? <==> config.loc) &&
    (n.loc.Some? ==> n.loc.value.start == first.loc.start && n.loc.value.end == last.loc.end)
  }

  /** Every parsed value spans its tokens: from the start of its first token to the
      end of its last, and only when `loc` is set. */
  lemma ValueSpan(input: seq<char>, ts: seq<Token>, i: nat, config: Config)
    requires Readable(input, ts) && i < |ts|
    ensures var r := ValueAt(input, ts, i, config);
      r.Matched? ==> SpansTokens(config, r.value, ts[i], ts[r.next - 1])
  {
    var k := ts[i].kind;
    if IsLiteralKind(k) {
      LiteralSpan(input, ts, i, config);
    } else if k == LeftBrace {
      ObjectSpan(input, ts, i, config);
    } else if k == LeftBracket {
      ArraySpan(input, ts, i, config);
    }
  }

  lemma LiteralSpan(input: seq<char>, ts: seq<Token>, i: nat, config: Config)
    requires Readable(input, ts) && i < |ts| && IsLiteralKind(ts[i].kind)
    ensures var r := ValueAt(input, ts, i, config);
      r.Matched? && r.next == i + 1 && SpansTokens(config, r.value, ts[i], ts[i])
  {
  }

  lemma ObjectSpan(input: seq<char>, ts: seq<Token>, i: nat, config: Config)
    requires Readable(input, ts) && i < |ts| && ts[i].kind == LeftBrace
    ensures var r := ValueAt(input, ts, i, config);
      r.Matched? ==> SpansTokens(config, r.value, ts[i], ts[r.next - 1])
  {
    ValueAtBrace(input, ts, i, config);
    ObjectFromSpan(input, ts, i + 1, OpenObject, [], ts[i], config);
  }

  lemma ArraySpan(input: seq<char>, ts: seq<Token>, i: nat, config: Config)
    requires Readable(input, ts) && i < |ts| && ts[i].kind == LeftBracket
    ensures var r := ValueAt(input, ts, i, config);
      r.Matched? ==> SpansTokens(config, r.value, ts[i], ts[r.next - 1])
  {
    ValueAtBracket(input, ts, i, config);
    ArrayFromSpan(input, ts, i + 1, OpenArray, [], ts[i], config);
  }

  /** The first token decides the kind of value: a literal token a literal, `{` an
      object, `[` an array; any other token is an unexpected token. */
  lemma ValueKind(input: seq<char>, ts: seq<Token>, i: nat, config: Config)
    requires Readable(input, ts) && i < |ts|
    ensures var r := ValueAt(input, ts, i, config);
      (r.Matched? ==>
        (r.value.Literal? <==> IsLiteralKind(ts[i].kind)) &&
        (r.value.ObjectNode? <==> ts[i].kind == LeftBrace) &&
        (r.value.ArrayNode? <==> ts[i].kind == LeftBracket)) &&
      (!IsLiteralKind(ts[i].kind) && ts[i].kind != LeftBrace && ts[i].kind != LeftBracket ==>
        r == Failed(UnexpectedToken(i)))
  {
    ObjectAtShape(input, ts, i, config);
    ArrayAtShape(input, ts, i, config);
  }

  // ---------------------------------------------------------------------------
  // Token sequences, described by their kinds.

  /** One unfolding of `parseValue` at a literal token. */
  lemma ValueAtLiteral(input: seq<char>, ts: seq<Token>, i: nat, config: Config)
    requires Readable(input, ts) && i < |ts| && IsLiteralKind(ts[i].kind)
    ensures ValueAt(input, ts, i, config) == LiteralOf(input, ts, i, config)
    ensures ValueAt(input, ts, i, config).next == i + 1
  {
  }

  /** One unfolding of `parseValue` at `{`. */
  lemma ValueAtBrace(input: seq<char>, ts: seq<Token>, i: nat, config: Config)
    requires Readable(input, ts) && i < |ts| && ts[i].kind == LeftBrace
    ensures ValueAt(input, ts, i, config) == ObjectFrom(input, ts, i + 1, OpenObject, [], ts[i], config)
  {
    assert !IsLiteralKind(ts[i].kind);
  }

  /** One unfolding of `parseValue` at `[`. */
  lemma ValueAtBracket(input: seq<char>, ts: seq<Token>, i: nat, config: Config)
    requires Readable(input, ts) && i < |ts| && ts[i].kind == LeftBracket
    ensures ValueAt(input, ts, i, config) == ArrayFrom(input, ts, i + 1, OpenArray, [], ts[i], config)
  {
    assert !IsLiteralKind(ts[i].kind);
  }

  /** `key : literal` */
  lemma PropertyOfLiteral(input: seq<char>, ts: seq<Token>, i: nat, config: Config)
    requires Readable(input, ts) && i + 3 <= |ts|
    requires ts[i].kind == String && ts[i + 1].kind == Colon && IsLiteralKind(ts[i + 2].kind)
    ensures PropertyAt(input, ts, i, config) ==
      Matched(Property(KeyOf(input, ts[i], config), LiteralOf(input, ts, i + 2, config).value,
                       Between(config, ts[i], ts[i + 2])), i + 3)
  {
    ValueAtLiteral(input, ts, i + 2, config);
  }

  /** `{}` */
  lemma EmptyObject(input: seq<char>, ts: seq<Token>, i: nat, config: Config)
    requires Readable(input, ts) && i + 2 <= |ts|
    requires ts[i].kind == LeftBrace && ts[i + 1].kind == RightBrace
    ensures ValueAt(input, ts, i, config) == Matched(ObjectNode([], Between(config, ts[i], ts[i + 1])), i + 2)
  {
    ValueAtBrace(input, ts, i, config);
  }

  /** `{ key : literal , key : literal }` keeps both properties in order, even when
      the two keys are the same. */
  lemma PropertiesInOrder(input: seq<char>, ts: seq<Token>, i: nat, config: Config)
    requires Readable(input, ts) && i + 9 <= |ts|
    requires ts[i].kind == LeftBrace && ts[i + 4].kind == Comma && ts[i + 8].kind == RightBrace
    requires ts[i + 1].kind == String && ts[i + 2].kind == Colon && IsLiteralKind(ts[i + 3].kind)
    requires ts[i + 5].kind == String && ts[i + 6].kind == Colon && IsLiteralKind(ts[i + 7].kind)
    ensures var r := ValueAt(input, ts, i, config);
      r.Matched? && r.next == i + 9 && r.value.ObjectNode? &&
      r.value.properties == [
        Property(KeyOf(input, ts[i + 1], config), LiteralOf(input, ts, i + 3, config).value,
                 Between(config, ts[i + 1], ts[i + 3])),
        Property(KeyOf(input, ts[i + 5], config), LiteralOf(input, ts, i + 7, config).value,
                 Between(config, ts[i + 5], ts[i + 7]))]
  {
    ValueAtBrace(input, ts, i, config);
    PropertyOfLiteral(input, ts, i + 1, config);
    PropertyOfLiteral(input, ts, i + 5, config);
    var first := PropertyAt(input, ts, i + 1, config).value;
    var second := PropertyAt(input, ts, i + 5, config).value;
    ObjectPropertyStep(input, ts, i + 1, OpenObject, [], ts[i], config);
    assert [] + [first] == [first];
    ObjectCommaStep(input, ts, i + 4, [first], ts[i], config);
    ObjectPropertyStep(input, ts, i + 5, AfterComma, [first], ts[i], config);
    assert [first] + [second] == [first, second];
    assert ObjectFrom(input, ts, i + 8, AfterProperty, [first, second], ts[i], config) ==
      Matched(ObjectNode([first, second], Between(config, ts[i], ts[i + 8])), i + 9);
  }

  /** `{ key : literal , }`: a `,` must be followed by a property, so the `}` is an
      unexpected token. */
  lemma TrailingCommaRejected(input: seq<char>, ts: seq<Token>, i: nat, config: Config)
    requires Readable(input, ts) && i + 6 <= |ts|
    requires ts[i].kind == LeftBrace && ts[i + 1].kind == String && ts[i + 2].kind == Colon
    requires IsLiteralKind(ts[i + 3].kind) && ts[i + 4].kind == Comma && ts[i + 5].kind == RightBrace
    ensures ValueAt(input, ts, i, config) == Failed(UnexpectedToken(i + 5))
  {
    ValueAtBrace(input, ts, i, config);
    PropertyOfLiteral(input, ts, i + 1, config);
    var first := PropertyAt(input, ts, i + 1, config).value;
    ObjectPropertyStep(input, ts, i + 1, OpenObject, [], ts[i], config);
    assert [] + [first] == [first];
    ObjectCommaStep(input, ts, i + 4, [first], ts[i], config);
    assert PropertyAt(input, ts, i + 5, config).NoMatch?;
  }

  /** `{ key :` at the end of the tokens: the property loop runs out and returns
      nothing, which the source does not check after `{`. */
  lemma CutShortProperty(input: seq<char>, ts: seq<Token>, i: nat, config: Config)
    requires Readable(input, ts) && i + 3 == |ts|
    requires ts[i].kind == LeftBrace && ts[i + 1].kind == String && ts[i + 2].kind == Colon
    ensures ValueAt(input, ts, i, config) == Failed(Unspecified)
  {
    ValueAtBrace(input, ts, i, config);
    assert PropertyAt(input, ts, i + 1, config).NoMatch?;
  }

  /** `[ literal ,`: once an element is read only `]` is accepted, so the `,` is an
      unexpected token. */
  lemma ArrayCommaRejected(input: seq<char>, ts: seq<Token>, i: nat, config: Config)
    requires Readable(input, ts) && i + 3 <= |ts|
    requires ts[i].kind == LeftBracket && IsLiteralKind(ts[i + 1].kind) && ts[i + 2].kind == Comma
    ensures ValueAt(input, ts, i, config) == Failed(UnexpectedToken(i + 2))
  {
    ValueAtBracket(input, ts, i, config);
    ValueAtLiteral(input, ts, i + 1, config);
    var v := ValueAt(input, ts, i + 1, config).value;
    ArrayValueStep(input, ts, i + 1, OpenArray, [], ts[i], config);
    assert ArrayFrom(input, ts, i + 2, AfterValue, [] + [v], ts[i], config) == Failed(UnexpectedToken(i + 2));
  }

  /** Running out of tokens inside an object, in any state after the `{`, raises
      an unexpected end. */
  lemma ObjectRunsOut(input: seq<char>, ts: seq<Token>, state: ObjectState,
                      properties: seq<Property>, open: Token, config: Config)
    requires Readable(input, ts) && state != ObjectStart
    ensures ObjectFrom(input, ts, |ts|, state, properties, open, config) == Failed(UnexpectedEnd)
  {
  }

  /** A property that takes the last tokens leaves the object unclosed: an
      unexpected end, whatever came before. */
  lemma ObjectEndsAfterProperty(input: seq<char>, ts: seq<Token>, index: nat, state: ObjectState,
                                properties: seq<Property>, open: Token, config: Config)
    requires Readable(input, ts) && index < |ts| && (state == OpenObject || state == AfterComma)
    requires state == OpenObject ==> ts[index].kind != RightBrace
    requires PropertyAt(input, ts, index, config).Matched? && PropertyAt(input, ts, index, config).next == |ts|
    ensures ObjectFrom(input, ts, index, state, properties, open, config) == Failed(UnexpectedEnd)
  {
    ObjectPropertyStep(input, ts, index, state, properties, open, config);
    var p := PropertyAt(input, ts, index, config);
    ObjectRunsOut(input, ts, AfterProperty, properties + [p.value], open, config);
  }

  /** `{ key : literal` at the end of the tokens. */
  lemma UnclosedObject(input: seq<char>, ts: seq<Token>, i: nat, config: Config)
    requires Readable(input, ts) && i + 4 == |ts|
    requires ts[i].kind == LeftBrace && ts[i + 1].kind == String && ts[i + 2].kind == Colon
    requires IsLiteralKind(ts[i + 3].kind)
    ensures ValueAt(input, ts, i, config) == Failed(UnexpectedEnd)
  {
    ValueAtBrace(input, ts, i, config);
    PropertyOfLiteral(input, ts, i + 1, config);
    ObjectEndsAfterProperty(input, ts, i + 1, OpenObject, [], ts[i], config);
  }

  /** `{ key : literal ,` at the end of the tokens. */
  lemma UnclosedObjectAfterComma(input: seq<char>, ts: seq<Token>, i: nat, config: Config)
    requires Readable(input, ts) && i + 5 == |ts|
    requires ts[i].kind == LeftBrace && ts[i + 1].kind == String && ts[i + 2].kind == Colon
    requires IsLiteralKind(ts[i + 3].kind) && ts[i + 4].kind == Comma
    ensures ValueAt(input, ts, i, config) == Failed(UnexpectedEnd)
  {
    ValueAtBrace(input, ts, i, config);
    PropertyOfLiteral(input, ts, i + 1, config);
    var first := PropertyAt(input, ts, i + 1, config).value;
    ObjectPropertyStep(input, ts, i + 1, OpenObject, [], ts[i], config);
    ObjectCommaStep(input, ts, i + 4, [] + [first], ts[i], config);
    ObjectRunsOut(input, ts, AfterComma, [] + [first], ts[i], config);
  }

  /** Running out of tokens inside an array raises an unexpected end. */
  lemma ArrayRunsOut(input: seq<char>, ts: seq<Token>, state: ArrayState,
                     elements: seq<Node>, open: Token, config: Config)
    requires Readable(input, ts) && state != ArrayStart
    ensures ArrayFrom(input, ts, |ts|, state, elements, open, config) == Failed(UnexpectedEnd)
  {
  }

  /** `[ literal` at the end of the tokens. */
  lemma UnclosedArray(input: seq<char>, ts: seq<Token>, i: nat, config: Config)
    requires Readable(input, ts) && i + 2 == |ts|
    requires ts[i].kind == LeftBracket && IsLiteralKind(ts[i + 1].kind)
    ensures ValueAt(input, ts, i, config) == Failed(UnexpectedEnd)
  {
    ValueAtBracket(input, ts, i, config);
    ValueAtLiteral(input, ts, i + 1, config);
    var v := ValueAt(input, ts, i + 1, config).value;
    ArrayValueStep(input, ts, i + 1, OpenArray, [], ts[i], config);
    ArrayRunsOut(input, ts, AfterValue, [] + [v], ts[i], config);
  }

  /** `[ , literal ]`: a `,` straight after `[` is skipped. */
  lemma LeadingCommaSkipped(input: seq<char>, ts: seq<Token>, i: nat, config: Config)
    requires Readable(input, ts) && i + 4 <= |ts|
    requires ts[i].kind == LeftBracket && ts[i + 1].kind == Comma
    requires IsLiteralKind(ts[i + 2].kind) && ts[i + 3].kind == RightBracket
    ensures ValueAt(input, ts, i, config) ==
      Matched(ArrayNode([LiteralOf(input, ts, i + 2, config).value], Between(config, ts[i], ts[i + 3])), i + 4)
  {
    ValueAtBracket(input, ts, i, config);
    ValueAtLiteral(input, ts, i + 2, config);
    var v := ValueAt(input, ts, i + 2, config).value;
    ArrayCommaStep(input, ts, i + 1, [], ts[i], config);
    ArrayValueStep(input, ts, i + 2, AfterArrayComma, [], ts[i], config);
    assert [] + [v] == [v];
  }

  /** `{}` under the default configuration: an empty object whose span runs from the
      `{` at 1:1 to the end of the `}` at 1:3, with no source label. */
  lemma EmptyObjectText()
    ensures ParseOutcome("{}", DefaultConfig) ==
      Ok(ObjectNode([], Some(Span(Position(1, 1, 0), Position(1, 3, 2), None))))
  {
    var input := "{}";
    var open := Token(LeftBrace, None, Loc(1, 1, 0, 1, 2, 1, None));
    var close := Token(RightBrace, None, Loc(1, 2, 1, 1, 3, 2, None));
    assert StepAt(input, Cursor(1, 1, 2), None) == Emit(close, Cursor(2, 1, 3));
    assert StepAt(input, Cursor(0, 1, 1), None) == Emit(open, Cursor(1, 1, 2));
    assert Lex(input, None) == Tokens([open, close]);
    LexTokensOk(input, None, [open, close]);
    TokensReadable(input, [open, close]);
    EmptyObject(input, [open, close], 0, DefaultConfig);
  }

  /** `[1,]`: the comma after the element is rejected, at token index 2. */
  lemma TrailingCommaArrayRejected(input: seq<char>)
    requires input == "[1,]"
    ensures Lex(input, None).Tokens?
    ensures ParseOutcome(input, DefaultConfig) == Err(UnexpectedToken(2))
  {
    TrailingCommaArrayTokens(input);
    var ts := Lex(input, None).tokens;
    LexTokensOk(input, None, ts);
    TokensReadable(input, ts);
    ArrayCommaRejected(input, ts, 0, DefaultConfig);
  }

  /** The empty input, and `0` which PHP's `empty()` also counts as empty, give no
      tokens, and `parse` then reports an unexpected end. */
  lemma EmptyInputRejected(config: Config)
    ensures ParseOutcome("", config) == Err(UnexpectedEnd)
    ensures ParseOutcome("0", config) == Err(UnexpectedEnd)
  {
    assert Lex("", config.source) == Tokens([]);
    assert Lex("0", config.source) == Tokens([]);
  }
}
