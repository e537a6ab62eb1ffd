/** How the parser turns the text between a string token's quotes into the string
    value (`parseString` and `parseHexEscape` of src/Parser.php).

    Two details of the source decide the decoding of escapes:
    - the test `PASS_ESCAPES[$nextChar] >= 0` looks up a missing key, and PHP reads
      it as `null >= 0`, which is true; so every escape `\c` other than `\u` yields
      `c` itself, and the `ESCAPES` table (`\n` to a newline and so on) is never read;
    - `chr` keeps only the low byte of its argument, so `\uXXXX` yields the single
      byte `XXXX mod 256`.
    The decoder is only ever given the contents of a string token, so it is modelled
    on the bodies the tokenizer accepts. */
module StringDecoding {
  import opened NumberHelper
  import opened StringGrammar

  predicate AllHex(h: seq<char>)
  {
    forall k | 0 <= k < |h| :: IsHex(h[k])
  }

  /** The digits of a `\u` escape the tokenizer accepts are hex digits. */
  lemma FourHexAllHex(h: seq<char>)
    requires FourHex(h)
    ensures AllHex(h)
  {
    forall k | 0 <= k < |h| ensures IsHex(h[k]) {
      assert HexAccepted(h[k]);
    }
  }

  /** The number a run of hex digits denotes, most significant digit first: the
      value the loop of `parseHexEscape` accumulates. */
  function HexValue(h: seq<char>): (v: nat)
    requires AllHex(h)
    decreases |h|
  {
    if h == [] then 0 else HexValue(h[..|h| - 1]) * 16 + HexDigitValue(h[|h| - 1])
  }

  /** One more digit shifts the value by a hex place. */
  lemma HexValueSnoc(h: seq<char>, k: nat)
    requires k < |h| && AllHex(h)
    ensures HexValue(h[..k + 1]) == HexValue(h[..k]) * 16 + HexDigitValue(h[k])
  {
    assert h[..k + 1][..k] == h[..k];
  }

  /** Four hex digits denote `4096·d0 + 256·d1 + 16·d2 + d3`. */
  lemma HexValueOfFour(h: seq<char>)
    requires |h| == 4 && AllHex(h)
    ensures HexValue(h) ==
      4096 * HexDigitValue(h[0]) + 256 * HexDigitValue(h[1]) + 16 * HexDigitValue(h[2]) + HexDigitValue(h[3])
  {
    assert h[..0] == [];
    HexValueSnoc(h, 0);
    HexValueSnoc(h, 1);
    HexValueSnoc(h, 2);
    HexValueSnoc(h, 3);
    assert h[..4] == h;
  }

  /** The byte `chr` makes of the value of a `\u` escape: its low byte, that is, the
      last two hex digits. */
  function HexChar(h: seq<char>): (c: char)
    requires |h| == 4 && AllHex(h)
    ensures c as int == 16 * HexDigitValue(h[2]) + HexDigitValue(h[3])
  {
    HexLowByte(h);
    (HexValue(h) % 256) as char
  }

  lemma HexLowByte(h: seq<char>)
    requires |h| == 4 && AllHex(h)
    ensures HexValue(h) % 256 == 16 * HexDigitValue(h[2]) + HexDigitValue(h[3])
  {
    HexValueOfFour(h);
    var high := 16 * HexDigitValue(h[0]) + HexDigitValue(h[1]);
    var low := 16 * HexDigitValue(h[2]) + HexDigitValue(h[3]);
    LowByte(HexValue(h), high, low);
  }

  lemma LowByte(x: nat, high: nat, low: nat)
    requires x == 256 * high + low && low < 256
    ensures x % 256 == low
  {
    assert x / 256 == high by {
      assert 256 * high <= x < 256 * (high + 1);
    }
  }

  /** `parseHexEscape`: four rounds of `code * 16 + digit`, then `chr`. */
  method ParseHexEscape(h: seq<char>) returns (c: char)
    requires |h| == 4 && AllHex(h)
    ensures c == HexChar(h)
  {
    var code: nat := 0;
    for k := 0 to 4
      invariant code == HexValue(h[..k])
    {
      HexValueSnoc(h, k);
      code := code * 16 + HexDigitValue(h[k]);
    }
    assert h[..4] == h;
    c := (code % 256) as char;
  }

  /** The decoded value of a string body: plain characters are copied, `\uXXXX`
      becomes one byte, and any other escape `\c` becomes `c`. */
  function Decoded(s: seq<char>): (r: seq<char>)
    requires Body(s)
    ensures |r| <= |s|
    decreases |s|
  {
    if s == [] then []
    else if s[0] != '\\' then [s[0]] + Decoded(s[1..])
    else if IsSimpleEscape(s[1]) then [s[1]] + Decoded(s[2..])
    else
      FourHexAllHex(s[2..6]);
      [HexChar(s[2..6])] + Decoded(s[6..])
  }

  /** `parseString`: the source's loop over the body, one item per round. */
  method ParseString(s: seq<char>) returns (result: seq<char>)
    requires Body(s)
    ensures result == Decoded(s)
  {
    var i := 0;
    result := [];
    while i < |s|
      invariant i <= |s| && Body(s[i..])
      invariant result + Decoded(s[i..]) == Decoded(s)
      decreases |s| - i
    {
      var c := s[i];
      if c == '\\' {
        i := i + 1;
        var next := s[i];
        if next == 'u' {
          DecodeUnicodeAt(s, i - 1);
          var ch := ParseHexEscape(s[i + 1..i + 5]);
          Assoc(result, [ch], Decoded(s[i + 5..]));
          result := result + [ch];
          i := i + 4;
        } else {
          // `PASS_ESCAPES[$nextChar] >= 0` holds for every escape character.
          DecodeEscapeAt(s, i - 1);
          Assoc(result, [next], Decoded(s[i + 1..]));
          result := result + [next];
        }
      } else {
        DecodePlainAt(s, i);
        Assoc(result, [c], Decoded(s[i + 1..]));
        result := result + [c];
      }
      i := i + 1;
    }
  }

  lemma DecodePlainAt(s: seq<char>, i: nat)
    requires i < |s| && Body(s[i..]) && s[i] != '\\'
    ensures Body(s[i + 1..]) && Decoded(s[i..]) == [s[i]] + Decoded(s[i + 1..])
  {
    assert s[i..][1..] == s[i + 1..];
  }

  lemma DecodeEscapeAt(s: seq<char>, i: nat)
    requires i < |s| && Body(s[i..]) && s[i] == '\\'
    requires i + 1 < |s| && s[i + 1] != 'u'
    ensures i + 2 <= |s| && Body(s[i + 2..]) && Decoded(s[i..]) == [s[i + 1]] + Decoded(s[i + 2..])
  {
    assert s[i..][1] == s[i + 1] && s[i..][2..] == s[i + 2..];
  }

  lemma DecodeUnicodeAt(s: seq<char>, i: nat)
    requires i < |s| && Body(s[i..]) && s[i] == '\\'
    requires i + 1 < |s| && s[i + 1] == 'u'
    ensures i + 6 <= |s| && AllHex(s[i + 2..i + 6]) && Body(s[i + 6..])
    ensures Decoded(s[i..]) == [HexChar(s[i + 2..i + 6])] + Decoded(s[i + 6..])
  {
    var rest := s[i..];
    assert rest[1] == 'u' && !IsSimpleEscape(rest[1]);
    assert rest[2..6] == s[i + 2..i + 6] && rest[6..] == s[i + 6..];
    FourHexAllHex(s[i + 2..i + 6]);
  }

  // ---------------------------------------------------------------------------

  /** Decoding works item by item, so it distributes over concatenation. */
  lemma {:induction false} DecodedConcat(a: seq<char>, b: seq<char>)
    requires Body(a) && Body(b)
    ensures Body(a + b)
    ensures Decoded(a + b) == Decoded(a) + Decoded(b)
    decreases |a|
  {
    BodyConcat(a, b);
    if a == [] {
      assert a + b == b;
    } else {
      var n := ItemLength(a);
      DecodedUnfold(a);
      DecodedConcat(a[n..], b);
      ItemOfConcat(a, b);
      DecodedUnfold(a + b);
      Assoc([ItemValue(a)], Decoded(a[n..]), Decoded(b));
    }
  }

  /** The length of the first item of a non-empty body. */
  function ItemLength(s: seq<char>): (n: nat)
    requires Body(s) && s != []
    ensures 0 < n <= |s| && Body(s[n..])
  {
    if s[0] != '\\' then 1 else if IsSimpleEscape(s[1]) then 2 else 6
  }

  /** The character the first item of a non-empty body decodes to. */
  function ItemValue(s: seq<char>): char
    requires Body(s) && s != []
  {
    if s[0] != '\\' then s[0]
    else if IsSimpleEscape(s[1]) then s[1]
    else
      FourHexAllHex(s[2..6]);
      HexChar(s[2..6])
  }

  lemma DecodedUnfold(s: seq<char>)
    requires Body(s) && s != []
    ensures Decoded(s) == [ItemValue(s)] + Decoded(s[ItemLength(s)..])
  {
  }

  /** The first item of a body is the first item of any longer body. */
  lemma ItemOfConcat(a: seq<char>, b: seq<char>)
    requires Body(a) && a != [] && Body(a + b)
    ensures ItemLength(a + b) == ItemLength(a) && ItemValue(a + b) == ItemValue(a)
    ensures (a + b)[ItemLength(a)..] == a[ItemLength(a)..] + b
  {
    var ab := a + b;
    assert ab[0] == a[0];
    if a[0] == '\\' {
      assert ab[1] == a[1];
      if !IsSimpleEscape(a[1]) {
        assert ab[2..6] == a[2..6];
      }
    }
  }

  lemma Assoc(x: seq<char>, y: seq<char>, z: seq<char>)
    ensures x + (y + z) == (x + y) + z
  {
  }

  predicate NoQuoteOrBackslash(s: seq<char>)
  {
    forall k | 0 <= k < |s| :: s[k] != '"' && s[k] != '\\'
  }

  /** Contents without escapes decode to themselves. */
  lemma {:induction false} PlainDecodesToItself(s: seq<char>)
    requires NoQuoteOrBackslash(s)
    ensures Body(s) && Decoded(s) == s
    decreases |s|
  {
    if s != [] {
      assert NoQuoteOrBackslash(s[1..]) by {
        forall k | 0 <= k < |s[1..]| ensures s[1..][k] != '"' && s[1..][k] != '\\' {
          assert s[1..][k] == s[k + 1];
        }
      }
      PlainDecodesToItself(s[1..]);
    }
  }

  /** Every escape other than `\u` decodes to the character after the backslash, so
      `\n` is the letter `n`, not a newline. */
  lemma SimpleEscapeIsVerbatim(c: char)
    requires IsSimpleEscape(c)
    ensures Body(['\\', c]) && Decoded(['\\', c]) == [c]
  {
    assert ['\\', c][2..] == [];
  }

  /** `\u` keeps the low byte: the escape of 1234 decodes to the byte 0x34, the character `4`. */
  lemma UnicodeEscapeLowByte()
    ensures Body("\\u1234") && Decoded("\\u1234") == "4"
  {
    var s := "\\u1234";
    assert s[2..6] == "1234" && s[6..] == [];
    assert FourHex(s[2..6]);
    FourHexAllHex(s[2..6]);
    assert HexChar(s[2..6]) as int == 0x34;
  }

  /** The inverse of the decoder on strings free of `\u` surprises: escape only the
      quote and the backslash. */
  function Escaped(t: seq<char>): (r: seq<char>)
    ensures |r| >= |t|
    decreases |t|
  {
    if t == [] then []
    else if t[0] == '"' || t[0] == '\\' then ['\\', t[0]] + Escaped(t[1..])
    else [t[0]] + Escaped(t[1..])
  }

  /** Escaping gives a body the tokenizer accepts, and decoding it gives the string
      back. */
  lemma {:induction false} EscapedRoundTrip(t: seq<char>)
    ensures Body(Escaped(t)) && Decoded(Escaped(t)) == t
    decreases |t|
  {
    if t != [] {
      EscapedRoundTrip(t[1..]);
      var head := if t[0] == '"' || t[0] == '\\' then ['\\', t[0]] else [t[0]];
      assert Escaped(t) == head + Escaped(t[1..]);
      if t[0] == '"' || t[0] == '\\' {
        SimpleEscapeIsVerbatim(t[0]);
      } else {
        PlainDecodesToItself(head);
      }
      DecodedConcat(head, Escaped(t[1..]));
    }
  }
}
