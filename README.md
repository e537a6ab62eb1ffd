# json-ast core in Dafny

This project models the front end of `json-ast`, a PHP library that turns strict
JSON text into an abstract syntax tree in which every node carries its location.
It also proves properties of that model. The model covers these parts:

- **The tokenizer** (`tokenizer.dfy`, with `number_states.dfy`,
  `number_grammar.dfy` and `string_grammar.dfy`).
  - It makes one left-to-right scan over the input bytes.
  - At each position it skips whitespace. Then it tries the punctuator, keyword,
    string and number recognizers, in that order.
  - Every token records its start and end position: line, column and offset.
  - The string and number recognizers are the source's state-machine loops,
    written as methods. Each is proved to return what a declarative grammar
    determines: the string grammar of section 7 of RFC 8259 and the number grammar
    of section 6, both as the source writes them.
  - The main loop is the method `Tokenize`. It is proved equal to the function
    `Lex`, and `tokenizer_facts.dfy` proves what `Lex` guarantees about the token
    list.
- **The parser** (`parser.dfy`, `parser_facts.dfy`, `string_decoding.dfy`).
  - It is an index-based recursive descent over the token list. It builds
    `Literal`, `Identifier`, `Property`, `Object` and `Array` nodes.
  - Each piece is written twice. A function over `(tokens, index)` says what the
    piece returns. A method shaped like the source's `$state` loop is proved to
    return exactly that.
  - String contents are decoded by `parseString` and `parseHexEscape`.
- **The helpers.**
  - The character classes (`number_helper.dfy`).
  - The location record (`location.dfy`).
  - The caret-annotated source excerpt that error messages carry
    (`code_fragment.dfy`).
  - The choice of error position and message (`parser_exception.dfy`).

The model follows the code where it departs from standard JSON:

- The digit `0` is refused inside a `\u` escape, because PHP treats the string
  `"0"` as false.
- Every escape `\c` other than `\u` is decoded to `c` itself, so `\n` decodes to
  `n`. The test `PASS_ESCAPES[$nextChar] >= 0` compares `null >= 0`, which is
  always true, so the `ESCAPES` table is never read.
- `\uXXXX` is decoded to the single byte `XXXX mod 256`.
- A string with no closing quote, or with a bad escape, is no match. The scan
  then raises `UnexpectedSymbol` at the opening quote, not at the offending
  character.
- After an array element only `]` is accepted, so no array with two or more
  elements parses.
- A property's span ends at the end of the first token of its value.
- A trailing `-` at an offset above 0 is matched as an empty number token. The
  source's loop would then repeat forever. `Lex` reports this case as
  `Diverges`, and `TokenizerFacts.DivergesOnlyAtTrailingMinus` proves that
  this is the only way it can happen.

A parse result is `Attempt`:
- `Matched` carries a value and the next index;
- `NoMatch` is PHP's `null` ("no match");
- `Failed` stands for a thrown `ParserException` and carries its kind and the
  token index.

One parser path ends in the error `Unspecified`: in the OPEN_OBJECT state,
`parseProperty` may return `null`. This happens when the token after `{` is not a
string, e.g. `{1}`, or when the tokens run out after the key or the colon, e.g.
`{"a":`. The source does not check for `null` there (src/Parser.php:211-214). The
index becomes `null`, and the PROPERTY state then raises `UNEXPECTED_TOKEN` with a
`null` index (src/Parser.php:239-246). That exception's position and message
come from missing array keys and are not modelled; `Unspecified` stands for it.
After a comma the same `null` is checked: `UnexpectedToken` is raised at the
token where the key should be (src/Parser.php:250-263).

## Model

| member | source | states |
|---|---|---|
| Location.Loc | src/Helper/Location.php:7-29 | The start line, column and offset are the first three arguments, unchanged. The end fields are the next three. `source` is the label given. |
| Location.LocDoesNotValidate | src/Helper/Location.php:7-29 | Nothing is validated: a span whose end offset lies before its start is built as given. |
| NumberHelper.CharClasses | src/Helper/NumberHelper.php:7-29 | `isDigit1to9` holds exactly for `1`–`9`, `isExp` for `e` and `E`, `isDigit` for `0`–`9`, and `isHex` for the digits plus `a`–`f` plus `A`–`F`. |
| NumberHelper.IsDigit1to9 | src/Helper/NumberHelper.php:7-10 | `isDigit1to9`: the byte is `1`–`9`. Its class is stated by `CharClasses`. |
| NumberHelper.IsExp | src/Helper/NumberHelper.php:12-15 | `isExp`: the byte is `e` or `E`. |
| NumberHelper.IsDigit | src/Helper/NumberHelper.php:17-20 | `isDigit`: the byte is `0`–`9`. |
| NumberHelper.IsHex | src/Helper/NumberHelper.php:22-29 | `isHex`: a digit or `a`–`f` or `A`–`F`. |
| NumberHelper.Digit1to9IsDigitButZero | src/Helper/NumberHelper.php:7-20 | `isDigit1to9` is `isDigit` without `0`. |
| NumberHelper.ExpIsNotDigit | src/Helper/NumberHelper.php:12-20 | No character is both an exponent mark and a digit. |
| NumberHelper.HexDigitValue | src/Parser.php:161 | `intval($c, 16)` of a hex digit: the digit's place in `0123456789abcdef` or in `0123456789ABCDEF`, so `a`/`A` is 10 up to `f`/`F` at 15, and 0 exactly for `0`. |
| NumberStates.Transition | src/Token/Tokenizer.php:232-319 | One step of the number machine. A step that continues records a passed value exactly on a digit. Only START and MINUS refuse a character outright (`return null`). Every other state stops instead (`break 2`). |
| NumberStates.RunCompose | src/Token/Tokenizer.php:230-322 | Running the machine over `a + b` is running it over `a` and then over `b`. |
| NumberStates.RunLang | src/Token/Tokenizer.php:232-319 | Every state the machine reaches describes the text read so far: a sign, an integer part, a fraction and so on. |
| NumberStates.LangAccepts | src/Token/Tokenizer.php:324-332 | A word described by any state that ends in a digit is a JSON number, so the index recorded in `$passedValueIndex` always ends a number. |
| NumberStates.RunNumber | src/Token/Tokenizer.php:224-335 | The machine runs through every JSON number without refusing or stopping. |
| NumberStates.NumberIffAccepted | src/Token/Tokenizer.php:224-335 | A word is a JSON number if and only if the machine runs through it and its last character is a digit, i.e. a point where `$passedValueIndex` is set. |
| NumberStates.PrefixStep | src/Token/Tokenizer.php:232-319 | When the machine takes one more character, the prefix read so far is a number exactly when that step records a passed value. |
| NumberStates.NoDigitYet | src/Token/Tokenizer.php:232-251 | The machine is still in START or MINUS only after reading nothing or a lone `-`. |
| NumberStates.PrefixDeath | src/Token/Tokenizer.php:266-318 | Once the machine stops or refuses, no longer prefix is a number, so stopping early loses no match. |
| NumberGrammar.LongestNumberPrefix | src/Token/Tokenizer.php:224-335 | The longest non-empty prefix that is a JSON number: no longer prefix is a number, and there is none exactly when no prefix is a number. |
| Tokenizer.ParseWhitespace | src/Token/Tokenizer.php:103-127 | Matches exactly on whitespace. Space and tab consume one byte, advance the column by 1 and keep the line. A line break adds one line and resets the column to 1. It consumes two bytes for CR LF and one byte for LF or a lone CR. |
| Tokenizer.ParseChar | src/Token/Tokenizer.php:129-143 | Matches exactly on the six punctuators, with the kind from `punctuatorTokensMap`. It consumes one byte, moves the column by 1, keeps the line and has no value. |
| Tokenizer.ParseKeyword | src/Token/Tokenizer.php:145-160 | Matches if and only if one of `true`, `false`, `null` is a plain prefix at the index. The value is the matched text, of the table's kind. The column moves by its length and the line is unchanged. |
| Tokenizer.KeywordFrom | src/Token/Tokenizer.php:147-157 | The `foreach` over `keywordTokensMap` from entry `k` on: a match if and only if some later keyword is a prefix. |
| Tokenizer.ParseString | src/Token/Tokenizer.php:162-222 | The string machine returns the token that ends at the first (and only) end making `input[start..e]` a string literal, quotes included. The column moves by its byte length and the line never changes. There is no match when no literal starts there: a bad start, a bad escape, or no closing quote. |
| Tokenizer.StringMatch | src/Token/Tokenizer.php:162-222 | A string token matches exactly when some end makes the text from the index a string literal. It then ends at such an end, has the text as its value, keeps the line and moves the column by its length. |
| Tokenizer.ParseEscape | src/Token/Tokenizer.php:200-219 | After `\`, a simple escape, or `u` and four accepted hex digits, returns the machine to reading characters. Any other continuation means that no string literal starts at the token's start. |
| StringGrammar.StringEnd | src/Token/Tokenizer.php:162-222 | The end of the string literal at an index. There is none if and only if no end makes `input[index..e]` a literal. |
| StringGrammar.StringLiteralUnique | src/Token/Tokenizer.php:185-193 | At most one string literal starts at any position, so the first unescaped closing quote ends the token. |
| StringGrammar.NoLiteralBeyond | src/Token/Tokenizer.php:185-193 | Once a string literal ends, no longer text from the same start is a string literal. |
| StringGrammar.BodyConcat | src/Token/Tokenizer.php:180-219 | Two valid string bodies concatenate to a valid body. |
| StringGrammar.BodyCancel | src/Token/Tokenizer.php:180-219 | If `a` and `a + b` are valid bodies, so is `b`: the machine's position after an item is never ambiguous. |
| Tokenizer.ParseNumber | src/Token/Tokenizer.php:224-335 | The number machine returns the token that `NumberEnd` names: the longest JSON-number prefix, or an empty token when the input ends in a lone `-` at an offset above 0. |
| Tokenizer.NumberEnd | src/Token/Tokenizer.php:324-334 | Where the number token ends, never before its start nor past the input. `NumberFound` and `NumberNotFound` state which end. |
| Tokenizer.NumberMatch | src/Token/Tokenizer.php:324-334 | A number token matches exactly when `NumberEnd` gives an end. It then ends there, has the text as its value, keeps the line and moves the column by its length. |
| Tokenizer.NumberFound | src/Token/Tokenizer.php:324-332 | If `p` is the end of the longest number prefix at the start, the number token ends at `p`. |
| Tokenizer.NumberNotFound | src/Token/Tokenizer.php:324-334 | With no number prefix, the result is an empty match exactly when the start is above 0 and only `-` or nothing follows. Otherwise there is no match. |
| Tokenizer.NumberResult | src/Token/Tokenizer.php:324-334 | The token built from the recorded `$passedValueIndex` is exactly the number match. |
| Tokenizer.NumberRejected | src/Token/Tokenizer.php:232-251 | When the machine refuses a character before any digit, no number starts there. |
| Tokenizer.Recognize | src/Token/Tokenizer.php:62-67 | The first recognizer that matches, in the order punctuator, keyword, string, number. A match never moves backwards. It keeps the line and moves the column by the number of bytes consumed. |
| Tokenizer.StepAt | src/Token/Tokenizer.php:51-97 | One pass of the main loop. Skipping whitespace always advances, and an emitted token never moves backwards. |
| Tokenizer.Tokenize | src/Token/Tokenizer.php:40-101 | The main loop returns exactly `Lex`: the token list, the `UnexpectedSymbol` error, or `Diverges` where the source's loop would never end. |
| Tokenizer.Lex | src/Token/Tokenizer.php:40-101 | `tokenize` as a function: no tokens for input PHP's `empty()` accepts, otherwise the scan from 1:1 at offset 0. Its guarantees are stated by `TokenizerFacts.LexLayout`. |
| Tokenizer.LexFrom | src/Token/Tokenizer.php:51-98 | The main loop from a cursor. It can only diverge at a position at or after the cursor and inside the input. |
| Tokenizer.PhpEmpty | src/Token/Tokenizer.php:42-44 | `empty($input)`: the input is `""` or `"0"`. |
| Tokenizer.LexWhitespace | src/Token/Tokenizer.php:53-60 | Whitespace produces no token, and the scan continues where `parseWhitespace` left off. |
| Tokenizer.LexMatched | src/Token/Tokenizer.php:69-87 | A match becomes a token that spans from the position before the match to the recognizer's returned position, and scanning resumes there. A match that consumes nothing makes the loop repeat forever. |
| Tokenizer.LexUnmatched | src/Token/Tokenizer.php:88-97 | When no recognizer matches, the result is `UnexpectedSymbol` with that single byte and the current line and column. |
| TokenizerFacts.LexLayout | src/Token/Tokenizer.php:40-101 | Input that PHP's `empty()` accepts (`""` and `"0"`) gives no tokens. Any other token list covers the whole input: whitespace, then the tokens in order, separated only by whitespace. |
| TokenizerFacts.LexFromLayout | src/Token/Tokenizer.php:51-98 | The scan from any position lays out the rest of the input as whitespace and tokens. |
| TokenizerFacts.RecognizedOk | src/Token/Tokenizer.php:62-87 | An emitted token starts at the scan position and ends where scanning resumes. It is not empty and stays on one line, and its column moves by its length. Its value is its text, or none for a punctuator, and its text is what its own recognizer accepts at its start. |
| TokenizerFacts.LayoutOrdered | src/Token/Tokenizer.php:84-87 | Token offsets increase and tokens do not overlap. Every token is well formed. |
| TokenizerFacts.LexTokensOk | src/Token/Tokenizer.php:69-87 | Every token of a successful scan is one its recognizer accepts at its start offset, and its value is its text. |
| TokenizerFacts.NumberTokenLongest | src/Token/Tokenizer.php:224-335 | The text of a number token is a JSON number, and no longer text from its start is one. |
| TokenizerFacts.StringTokenLiteral | src/Token/Tokenizer.php:162-222 | The text of a string token, both quotes included, is a string literal, and no other end from its start gives one. |
| TokenizerExamples.EmptyInputs | src/Token/Tokenizer.php:42-44 | `""` and `"0"` both give the empty token list. |
| TokenizerExamples.UnexpectedSymbolAtStart | tests/TokenizerTest.php:26-34 | `<` raises `UnexpectedSymbol` with the byte `<` at 1:1. |
| TokenizerFacts.NoRecognizerAt | src/Token/Tokenizer.php:62-67 | No recognizer matches a byte that cannot start a punctuator, keyword, string or number. |
| TokenizerFacts.EmptyMatchIsTrailingMinus | src/Token/Tokenizer.php:324-332 | A recognizer matches without consuming only at a position above 0 from which just `-` remains. |
| TokenizerExamples.NumberEndIs | src/Token/Tokenizer.php:224-335 | The number ends at `n` when the machine runs through `n` characters ending in a digit and no longer run ends in a digit. |
| TokenizerExamples.TrailingCommaArrayTokens | src/Token/Tokenizer.php:40-101 | `[1,]` gives four one-byte tokens: `[`, the number `1`, `,` and `]`, at columns 1 to 4 of line 1. |
| TokenizerExamples.PunctuatorsInArray | src/Token/Tokenizer.php:129-143 | In `[1,]` the bracket, the comma and the closing bracket are each matched as one-byte punctuator tokens. |
| TokenizerExamples.NumberInArray | src/Token/Tokenizer.php:62-67 | In `[1,]` the number recognizer takes the `1` and stops at the comma. |
| TokenizerExamples.NumberEndInArray | src/Token/Tokenizer.php:224-335 | The number that starts at offset 1 of `[1,]` ends at offset 2. |
| TokenizerExamples.LexEmits | src/Token/Tokenizer.php:69-87 | A step that emits a token and moves forward puts that token in front of the tokens after it. |
| TokenizerExamples.KeywordIsPrefixMatch | src/Token/Tokenizer.php:145-160 | `trueX` yields `true` and then fails on `X` at 1:5. |
| TokenizerExamples.TrailingMinusDiverges | src/Token/Tokenizer.php:324-332 | A lone `-` at the end of the input, at an offset above 0, makes the scan diverge at that position. |
| TokenizerFacts.DivergesOnlyAtTrailingMinus | src/Token/Tokenizer.php:51-98 | The scan diverges only at a position above 0 from which nothing but `-` remains. |
| TokenizerExamples.LeadingZeroStops | src/Token/Tokenizer.php:260-268 | `01` gives the number `0`. |
| TokenizerExamples.BarePointStops | src/Token/Tokenizer.php:282-289 | `1.` gives the number `1`. |
| TokenizerExamples.BareExponentStops | src/Token/Tokenizer.php:301-318 | `1e+` gives the number `1`. |
| TokenizerExamples.NegativeZero | src/Token/Tokenizer.php:248-251 | `-0` is a number of length 2. |
| TokenizerExamples.LoneMinusAtStart | src/Token/Tokenizer.php:324-334 | A lone `-` at offset 0 is no match. |
| StringDecoding.ParseHexEscape | src/Parser.php:156-165 | Four rounds of `code * 16 + digit`, then `chr`. The loop is proved to yield `HexChar`, the low byte of the code. |
| StringDecoding.HexValue | src/Parser.php:158-162 | The base-16 value of hex digits, read left to right. `HexValueSnoc` and `HexValueOfFour` state one round of the loop and the four-digit value. |
| StringDecoding.HexChar | src/Parser.php:156-165 | The byte `chr` keeps is `16 * d2 + d3`, made from the last two hex digits. |
| StringDecoding.HexLowByte | src/Parser.php:160-164 | The four-digit code modulo 256 is the value of its last two digits. |
| StringDecoding.ParseString | src/Parser.php:128-154 | The decoding loop returns `Decoded` of the body. |
| StringDecoding.Decoded | src/Parser.php:128-154 | Decoding never makes the content longer. |
| StringDecoding.DecodedConcat | src/Parser.php:132-151 | Decoding works item by item: the decoding of two concatenated bodies is the concatenation of their decodings. |
| StringDecoding.PlainDecodesToItself | src/Parser.php:148-150 | Text without `"` or `\` is a valid body and decodes to itself. |
| StringDecoding.SimpleEscapeIsVerbatim | src/Parser.php:141-142 | Every escape `\c` other than `\u` decodes to `c` itself, so `\n` gives `n`. |
| StringDecoding.UnicodeEscapeLowByte | src/Parser.php:138-140 | `\u1234` decodes to the single byte `4` (0x34), the low byte of 0x1234. |
| StringDecoding.EscapedRoundTrip | src/Parser.php:128-154 | Escaping only the quote and the backslash gives a body that the tokenizer accepts and that decodes back to the original text. |
| Parser.LocIf | src/Parser.php:118-120 | A span is attached exactly when `loc` is set, and it is the token's own span. |
| Parser.Between | src/Parser.php:194-203 | A node's span exists exactly when `loc` is set. It runs from the first token's start to the last token's end and carries the configured label. |
| Parser.Content | src/Parser.php:84-90 | The text between a string token's quotes is a valid body, two bytes shorter than the token. |
| Parser.KeyOf | src/Parser.php:294-319 | The key of a property is the decoded text between the quotes of the string token. Its raw text is the token's text, which is at least two bytes longer than the key. Its span is the token's when `loc` is set. |
| Parser.Raw | src/Parser.php:112-117 | A literal's `raw` is the token's text in the input. |
| Parser.LiteralOf | src/Parser.php:76-126 | A literal matches exactly on a string, number, `true`, `false` or `null` token. `true`, `false` and `null` become bool and null. A number's value is its raw text, unchanged. A string's value is its decoded content. `raw` is always the token's text. The next index is one past the token. |
| Parser.ParseLiteral | src/Parser.php:76-126 | The `switch` returns exactly `LiteralOf`. |
| Parser.PropertyAt | src/Parser.php:278-357 | There is no match if and only if the token is not a string, or tokens run out after the key or after the colon. A match is key, colon, value. The key is the decoded string token. The span runs from the key to the end of the first token of the value. Its errors are parser errors, and an unexpected token lies after the key. |
| Parser.PropertyAtValue | src/Parser.php:336-354 | After key and colon, the property is the value that follows, or that value's error. |
| Parser.ParseProperty | src/Parser.php:278-357 | The property state loop returns exactly `PropertyAt`. |
| Parser.ObjectFrom | src/Parser.php:178-275 | The object loop after `{` never reports "no match". When it matches, it advances. Its errors are parser errors, at indices from where it started. |
| Parser.ObjectAt | src/Parser.php:167-276 | There is no match if and only if the token is not `{`. A match ends after its start, and an unexpected token lies after the `{`. |
| Parser.ParseObject | src/Parser.php:167-276 | The object state loop returns exactly `ObjectAt`. |
| Parser.ArrayFrom | src/Parser.php:370-456 | The array loop after `[` never reports "no match". When it matches, it advances. Its errors are parser errors, at indices from where it started. |
| Parser.ArrayAt | src/Parser.php:359-457 | There is no match if and only if the token is not `[`. A match ends after its start. |
| Parser.ParseArray | src/Parser.php:359-457 | The array state loop returns exactly `ArrayAt`. |
| Parser.ValueAt | src/Parser.php:54-74 | A value never reports "no match". A success ends after `i` and inside the token list. Its errors are parser errors, and an unexpected token lies at or after `i`. |
| Parser.ParseValue | src/Parser.php:54-74 | The `??` chain of literal, object and array returns exactly `ValueAt`. |
| Parser.FromTokens | src/Parser.php:24-52 | An empty token list raises `UnexpectedEnd`. The parse succeeds if and only if the value at token 0 ends exactly at the last token. If it ends earlier, `UnexpectedToken` is raised at the first unconsumed index. A failure of the value is passed on. |
| Parser.Parse | src/Parser.php:24-52 | `parse` returns exactly `ParseOutcome`: the tokenizer's errors, or `FromTokens` over the tokens. |
| Parser.ParseOutcome | src/Parser.php:24-52 | `parse` as a function: a tokenizer error, or `FromTokens` over the token list. Its cases are stated by `EmptyInputRejected` and `EmptyObjectText`. |
| ParserFacts.ObjectFromCloses | src/Parser.php:192-235 | A completed object ends at a `}`. |
| ParserFacts.ObjectPropertyCloses | src/Parser.php:211-264 | An object whose loop is waiting for a property also ends at a `}` once it completes. |
| ParserFacts.ObjectFromSpan | src/Parser.php:194-229 | A completed object spans from its `{` to its closing `}`. |
| ParserFacts.ObjectPropertySpan | src/Parser.php:194-229 | The same from the state where a property must follow: a completed object spans from its `{` to its closing `}`. |
| ParserFacts.ObjectFromKeeps | src/Parser.php:211-255 | Properties already read are kept, in order, in front of the ones read later. |
| ParserFacts.ArrayFromCloses | src/Parser.php:384-428 | A completed array ends at a `]`. |
| ParserFacts.ArrayFromSpan | src/Parser.php:386-424 | A completed array spans from its `[` to its closing `]`. |
| ParserFacts.ArrayFromKeeps | src/Parser.php:405-444 | Elements are kept in order. An array adds at most one element, and none after an element has been read. |
| ParserFacts.ObjectAtShape | src/Parser.php:167-276 | A matched object is an object node that ends at `}` and spans from `{` to `}`. |
| ParserFacts.ArrayAtShape | src/Parser.php:359-457 | A matched array is an array node with at most one element. It ends at `]` and spans from `[` to `]`. |
| ParserFacts.ValueSpan | src/Parser.php:118-120 | Every value spans from its first token's start to its last token's end. |
| ParserFacts.LiteralSpan | src/Parser.php:118-120 | A literal is one token long and spans that token. |
| ParserFacts.ObjectSpan | src/Parser.php:194-229 | An object value spans from its `{` to the last token it consumed. |
| ParserFacts.ArraySpan | src/Parser.php:386-424 | An array value spans from its `[` to the last token it consumed. |
| ParserFacts.ValueKind | src/Parser.php:57-73 | A literal token gives a literal, `{` gives an object and `[` gives an array. Any other token raises `UnexpectedToken` at itself. |
| ParserFacts.ValueAtLiteral | src/Parser.php:54-74 | At a literal token, a value is that literal, one token long. |
| ParserFacts.ValueAtBrace | src/Parser.php:54-74 | At `{`, a value is the object loop started after the brace with no properties. |
| ParserFacts.ValueAtBracket | src/Parser.php:54-74 | At `[`, a value is the array loop started after the bracket with no elements. |
| ParserFacts.PropertyOfLiteral | src/Parser.php:336-354 | `"k" : literal` is a property of the decoded key and the literal, spanning key to literal, three tokens long. |
| ParserFacts.EmptyObject | src/Parser.php:192-209 | `{}` is the empty object spanning both braces. |
| ParserFacts.PropertiesInOrder | src/Parser.php:211-255 | `{"a": x, "b": y}` keeps both properties in source order. Duplicate keys are not merged. |
| ParserFacts.TrailingCommaRejected | src/Parser.php:250-264 | In `{"a": x,}` the comma must be followed by a property, so `UnexpectedToken` is raised at the `}`. |
| ParserFacts.CutShortProperty | src/Parser.php:211-246 | `{"a":` at the end of the tokens falls off `parseProperty`'s loop, and the `null` it returns ends in `Unspecified`. |
| ParserFacts.ArrayCommaRejected | src/Parser.php:412-437 | In `[x,` the comma after an element raises `UnexpectedToken` at the comma. |
| ParserFacts.TrailingCommaArrayRejected | src/Parser.php:412-437 | `[1,]` tokenizes, and parsing it raises `UnexpectedToken` at token index 2, the comma. |
| ParserFacts.ObjectRunsOut | src/Parser.php:178-275 | Running out of tokens inside an object, in any state after the `{`, raises `UnexpectedEnd`. |
| ParserFacts.ObjectEndsAfterProperty | src/Parser.php:211-275 | A property that takes the last tokens, after `{` or after a comma, leaves the object unclosed and raises `UnexpectedEnd`. |
| ParserFacts.UnclosedObject | src/Parser.php:167-276 | `{"k": literal` at the end of the tokens raises `UnexpectedEnd`. |
| ParserFacts.UnclosedObjectAfterComma | src/Parser.php:236-275 | `{"k": literal,` at the end of the tokens raises `UnexpectedEnd`. |
| ParserFacts.ArrayRunsOut | src/Parser.php:370-456 | Running out of tokens inside an array, in any state after the `[`, raises `UnexpectedEnd`. |
| ParserFacts.UnclosedArray | src/Parser.php:359-457 | `[literal` at the end of the tokens raises `UnexpectedEnd`. |
| ParserFacts.LeadingCommaSkipped | src/Parser.php:401-403 | `[,x]` is the one-element array `[x]`. |
| ParserFacts.EmptyInputRejected | src/Parser.php:30-38 | `""` and `"0"` raise `UnexpectedEnd`. |
| ParserFacts.EmptyObjectText | src/Parser.php:24-52 | `{}` under the default configuration (`loc` on, no source) parses to the empty object spanning 1:1 at offset 0 to 1:3 at offset 2. |
| CodeFragment.SplitLines | src/Helper/CodeFragment.php:16 | Splitting at CR LF, a lone CR, LF and form feed always gives at least one line. `SplitLinesAtBreak` states how each kind of break splits. |
| CodeFragment.SplitLinesAtBreak | src/Helper/CodeFragment.php:16 | A break-free line followed by CR LF, by a CR not followed by LF, by LF or by form feed is one line, and the rest splits on its own. So CR LF is a single break and a lone CR is a break of its own. |
| CodeFragment.BreakLength | src/Helper/CodeFragment.php:16 | A line break is matched exactly at CR, LF or form feed, and never runs past the text. It is two bytes exactly for CR LF, and one byte for every other break. |
| CodeFragment.SplitLinesHaveNoBreaks | src/Helper/CodeFragment.php:16 | No line contains a break character. |
| CodeFragment.ImplodeSplitLines | src/Helper/CodeFragment.php:16 | Joining the lines with LF gives the code with every break normalised to LF. |
| CodeFragment.SplitLinesImplode | src/Helper/CodeFragment.php:16 | Splitting break-free lines joined by LF gives those lines back. |
| CodeFragment.SplitLinesPrefix | src/Helper/CodeFragment.php:16 | Text without a break in front of the rest joins the rest's first line. |
| CodeFragment.Implode | src/Helper/CodeFragment.php:57 | `implode("\n", ...)`: the elements with a line feed between each two. `ImplodeStartsWithFirst` states that the text starts with the first element. `ImplodeSplitLines` and `SplitLinesImplode` relate it to splitting. |
| CodeFragment.DigitChar | src/Helper/CodeFragment.php:62 | The digit character for `d` is a digit whose value is `d`. |
| CodeFragment.NatToString | src/Helper/CodeFragment.php:62 | PHP's integer-to-string conversion: never empty. `NatToStringRoundTrip` states that it reads back. |
| CodeFragment.NatToStringRoundTrip | src/Helper/CodeFragment.php:62 | A printed number is all digits, has no leading zero unless it is 0, and reads back as the number. |
| CodeFragment.PadRight | src/Helper/CodeFragment.php:62 | `str_pad` right-pads with spaces to the width, and never truncates. |
| CodeFragment.Spaces | src/Helper/CodeFragment.php:32 | `str_repeat(' ', n)` is `n` spaces. |
| CodeFragment.ExpandTabs | src/Helper/CodeFragment.php:63-65 | Each tab replaced by `tabSize` spaces: never shorter than the text. `ExpandTabsSplice` gives what each byte becomes, and `ExpandTabsFacts` the exact length and that no tab is left. |
| CodeFragment.ExpandTabsSplice | src/Helper/CodeFragment.php:63-65 | A tab anywhere in the text becomes `tabSize` spaces, and any other byte stays as it is, with the text on either side expanded on its own. |
| CodeFragment.ExpandTabsByte | src/Helper/CodeFragment.php:63-65 | A single tab becomes `tabSize` spaces, and any other single byte is unchanged. |
| CodeFragment.ExpandTabsFacts | src/Helper/CodeFragment.php:63-65 | After replacement no tab is left. Each tab adds `tabSize - 1` bytes, and text without tabs is unchanged. |
| CodeFragment.ExpandTabsConcat | src/Helper/CodeFragment.php:65 | Tab expansion works piece by piece. |
| CodeFragment.PrintLineParts | src/Helper/CodeFragment.php:60-66 | A printed line is its number, which reads back as the position, right-padded to the width. Then comes a space, a vertical bar and a space, then the tab-expanded text. |
| CodeFragment.PrintLine | src/Helper/CodeFragment.php:60-66 | A printed line is the padded number width, three separator bytes and the expanded text long. Its parts are stated by `PrintLineParts`. |
| CodeFragment.Slice | src/Helper/CodeFragment.php:48 | `array_slice(lines, offset, length)` takes up to `length` lines from `offset`, and none past the end. |
| CodeFragment.PrintLines | src/Helper/CodeFragment.php:46-58 | The `array_walk` loop rewrites each sliced line in place as its printed line, numbered `start + index + 1`. The block is those lines joined with LF. |
| CodeFragment.NumberedLines | src/Helper/CodeFragment.php:48-55 | As many lines as `array_slice` takes, and entry `k` is input line `start + k` printed with number `start + k + 1`. |
| CodeFragment.NumberedLine | src/Helper/CodeFragment.php:48-52 | Entry `k` of a block is line `start + k` of the input, numbered `start + k + 1`. |
| CodeFragment.PrintLineLength | src/Helper/CodeFragment.php:60-66 | A printed line is at least four bytes long, so it is never falsy. |
| CodeFragment.BlockEmptyIff | src/Helper/CodeFragment.php:37-42 | A block is empty exactly when it has no lines, and it is never the falsy string `"0"`. |
| CodeFragment.WindowStart | src/Helper/CodeFragment.php:17 | The window starts at line `max(1, line - extraLines)`, zero-based. |
| CodeFragment.WindowEnd | src/Helper/CodeFragment.php:18 | `min(line + extraLines, count)`: it bounds both and equals one of them. |
| CodeFragment.LineAt | src/Helper/CodeFragment.php:23 | `$lines[$linePos - 1]`: that line when it exists, otherwise empty, as PHP reads a missing key. |
| CodeFragment.Width | src/Helper/CodeFragment.php:19 | `strlen($endLinePos)`: at least one digit. |
| CodeFragment.PreviousBlock | src/Helper/CodeFragment.php:20 | `$previousLines`: never the falsy `"0"`. `PreviousBlockWindow` states its window. |
| CodeFragment.TargetBeforeCursor | src/Helper/CodeFragment.php:21-30 | The target line up to the column, printed. With its number prefix it is at least four bytes long. |
| CodeFragment.CursorLine | src/Helper/CodeFragment.php:32 | As many spaces as the printed target prefix is long, then one `^`. |
| CodeFragment.NextBlock | src/Helper/CodeFragment.php:33 | `$nextLines`: never the falsy `"0"`. `NextBlockWindow` states its window. |
| CodeFragment.Prefix | src/Helper/CodeFragment.php:22-26 | `substr(s, 0, n)` is the prefix of `s` of length `min(n, len)` for `n >= 0`, where `len` is the length of `s`. For negative `n` it drops `-n` bytes from the end, down to the empty string. |
| CodeFragment.Truthy | src/Helper/CodeFragment.php:37-42 | `array_filter` drops exactly the blocks `""` and `"0"` and keeps every other block. When no block is falsy, all are kept in order. |
| CodeFragment.ImplodeTruthyThree | src/Helper/CodeFragment.php:35-43 | The three blocks are joined with LF, and an empty outer block is dropped together with its separator. |
| CodeFragment.FragmentLayout | src/Helper/CodeFragment.php:7-44 | The fragment is the previous block, the caret line and the next block, joined by LF. The caret line is always present. The previous block is empty exactly for line 0 or a window start past the end. The next block is empty exactly from the last line on. |
| CodeFragment.Fragment | src/Helper/CodeFragment.php:7-44 | `getFragment` with the default settings. Its shape is stated by `FragmentLayout` and `CaretColumn`. |
| CodeFragment.CaretColumn | src/Helper/CodeFragment.php:21-32 | The caret line is spaces and then one `^`. The number of spaces is the printed-line prefix plus the tab-expanded first `column - 1` bytes of the target line. |
| CodeFragment.PreviousBlockWindow | src/Helper/CodeFragment.php:17-20 | The previous block starts at the window start and takes up to `line` lines, so it includes the target line itself. |
| CodeFragment.NextBlockWindow | src/Helper/CodeFragment.php:18-33 | The next block starts at the line after the target and takes up to `endLinePos` lines. |
| CodeFragment.BlocksOverlap | src/Helper/CodeFragment.php:20-33 | From line 4 on, with a next line present, the previous block already shows the line after the target, which is the next block's first line. |
| CodeFragment.OneLineFragment | src/Helper/CodeFragment.php:7-44 | For `[1,]` at 1:3 the fragment is line 1 printed with its number, then a caret under the comma. |
| CodeFragment.OneLineBlocks | src/Helper/CodeFragment.php:20-33 | For the single line `[1,]` at 1:3 the previous block is line 1 printed with its number, the caret sits under the comma and there is no next block. |
| CodeFragment.OneLineSplit | src/Helper/CodeFragment.php:16 | The text `[1,]` splits into the one line `[1,]`. |
| CodeFragment.FragmentWithoutNext | src/Helper/CodeFragment.php:35-44 | With a non-empty previous block and no next block, the fragment is the previous block, a line feed, then the cursor line. |
| ParserException.ErrorMessage | src/Exception/Exception.php:19-24 | The message always begins the text. The code fragment follows it after LF unless the line is 0. |
| ParserException.EndPosition | src/Exception/ParserException.php:25-27 | The end of the last token, or line 1, column 1 without tokens. `UnexpectedEndReport` states the line and column used. |
| ParserException.UnexpectedEndReport | src/Exception/ParserException.php:23-39 | The end of input is reported at the end of the last token, or at 1:1 without tokens. The message begins with `Unexpected end of input`, and the fragment follows for that position. |
| ParserException.UnexpectedTokenReport | src/Exception/ParserException.php:41-60 | A report exists exactly for an index inside the token list. It is at the start line and column of `tokens[index]`, and its message begins with `Unexpected token <c> at L:C`, where `c` is the input byte at the token's start offset. |
| ParserException.ByteAt | src/Exception/ParserException.php:48 | `substr(input, offset, 1)` is at most one byte. |
| ParserException.TokenMessage | src/Exception/ParserException.php:51-53 | The `sprintf` message. `TokenMessageReadsBack` states that it names the token, line and column. |
| ParserException.Raise | src/Exception/ParserException.php:10-21 | Kind 1 selects the end reporter, whatever the index. Kind 2 selects the token reporter. Any other kind raises nothing. |
| ParserException.ReportFor | src/Parser.php:24-52 | `UnexpectedEnd` is reported by the end reporter and `UnexpectedToken` by the token reporter at its index. No other error is. |
| ParserException.TokenMessageReadsBack | src/Exception/ParserException.php:52-54 | The token message names the token after `Unexpected token <`. Its line and column are decimal text that reads back as those numbers. |
| ParserException.ParserErrorsReported | src/Parser.php:24-52 | Every `UnexpectedEnd` or `UnexpectedToken` the parser raises over a token list gets a report. |
| ParserException.EmptyInputMessage | tests/ParserTest.php:25-33 | Empty input raises `UnexpectedEnd`, reported at 1:1. Below the message is a fragment showing the empty line 1 and a caret. |
| ParserException.CommaMessage | tests/ParserTest.php:45-53 | A rejected `,` at 1:3 is reported as `Unexpected token <,> at 1:3`. |
| ParserException.TrailingCommaArrayReported | tests/ParserTest.php:45-53 | Parsing `[1,]` fails at the comma, and the exception's message begins `Unexpected token <,> at 1:3`, the message the array trailing-comma test expects. |
| ParserException.BraceMessage | tests/ParserTest.php:35-43 | A rejected `}` at 1:9 is reported as `Unexpected token <}> at 1:9`. |

## Left out

- The `TokenizerException` message text and the process-wide exception handlers.
  - `new TokenizerException(...)` is the `UnexpectedSymbol` outcome with its byte and position. Its message, `Unexpected symbol <c> at L:C` with a fragment, is not modelled; src/Exception/TokenizerException.php is not part of this model.
  - `set_exception_handler`, `throw` and `print` (src/Exception/ParserException.php:29, 47; src/Exception/Exception.php:9-12) are left out as I/O. A raised exception is the value `ParserException.Report`, and a parse that throws is an `Err`.
- Config defaulting.
  - `array_merge` at src/Parser.php:26 is left out. `Config` is the merged configuration, and `Parser.DefaultConfig` gives the defaults.
  - The `array_merge_recursive` call at src/Helper/CodeFragment.php:9-15 is also left out. Its only caller passes `[]`, so `extraLines` is fixed at 2 and `tabSize` at 4.
- `$buffer` in the tokenizer's `parseString`, which is written but never read.
- Exceptions with a garbage position.
  - A `null` property in the OPEN_OBJECT state (src/Parser.php:211-214, then 239-246) raises `UNEXPECTED_TOKEN` with a `null` index. For `{1}` PHP reports "Unexpected token <{> at 0:0", read from missing keys. The model gives `Unspecified` and no report.
  - `ParserException` with an index past the token list gives no report (`UnexpectedTokenReport` returns `None`). The garbage messages PHP would build are not modelled.
- `ObjectStates::COMMA` at src/Parser.php:402 is assumed to equal `ArrayStates::COMMA`. The state classes are not part of this model. Under this assumption `[,1]` is accepted; otherwise that branch would loop forever.
- Regular expressions. `preg_split` and `preg_replace` are modelled directly over sequences as `SplitLines` and `ExpandTabs`.
- Unicode and encodings. Input is a sequence of characters, each standing for one byte, as `substr` and `strlen` see it.
- Parser.ValueAt: defined by the kind of the token rather than by the `??` chain. The method `Parser.ParseValue` keeps the chain and is proved equal.
- Tokenizer.ParseEscape and Tokenizer.NumberResult are helper methods split out of the source's `parseString` and `parseNumber` loops. They do not exist in the source.
- The `ESCAPES` and `PASS_ESCAPES` tables of src/Parser.php:14-22 appear only through their effect: every escape decodes to its own character.
- Source file labels (`source`) are carried as given. They are never checked.
- `Exception::getError` (src/Exception/Exception.php:14-17) has an empty body and is not modelled. The `$source` argument of `setErrorMessage` is never used.
