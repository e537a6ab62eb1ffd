/** The string grammar the tokenizer accepts: section 7 of RFC 8259 as the source
    writes it (the escape table of src/Token/Tokenizer.php), with two departures
    kept: raw control characters are allowed, and the hex digit `0` is refused
    inside a `\u` escape. */
module StringGrammar {
  import opened Wrappers
  import opened NumberHelper
  import opened SeqFacts

  /** The characters that may follow a backslash: the keys of `ESCAPES`. */
  const EscapeChars: seq<char> := ['"', '\\', '/', 'b', 'f', 'n', 'r', 't', 'u']

  predicate IsSimpleEscape(c: char)
  {
    c in EscapeChars && c != 'u'
  }

  /** A `\u` digit as `$currentChar && isHex($currentChar)` accepts it: the one-byte
      string "0" is falsy in PHP, so the digit 0 is refused. */
  predicate HexAccepted(c: char)
  {
    c != '0' && IsHex(c)
  }

  predicate FourHex(s: seq<char>)
  {
    |s| == 4 && HexAccepted(s[0]) && HexAccepted(s[1]) && HexAccepted(s[2]) && HexAccepted(s[3])
  }

  /** The text between the quotes of a string token, read item by item from the left:
      a plain character (anything but `"` and `\`), a simple escape, or `\u` with four
      accepted hex digits. */
  predicate Body(s: seq<char>)
    decreases |s|
  {
    if s == [] then true
    else if s[0] == '"' then false
    else if s[0] != '\\' then Body(s[1..])
    else if |s| >= 2 && IsSimpleEscape(s[1]) then Body(s[2..])
    else if |s| >= 6 && s[1] == 'u' && FourHex(s[2..6]) then Body(s[6..])
    else false
  }

  /** A whole string token: both quotes and a valid body. */
  predicate IsStringLiteral(t: seq<char>)
  {
    |t| >= 2 && t[0] == '"' && t[|t| - 1] == '"' && Body(t[1..|t| - 1])
  }

  /** The first item of a body, and what follows it, when the first item is a plain
      character, a simple escape or a `\u` escape. */
  lemma BodyPlain(s: seq<char>)
    requires s != [] && s[0] != '"' && s[0] != '\\'
    ensures Body(s) == Body(s[1..])
  {
  }

  lemma BodyEscape(s: seq<char>)
    requires |s| >= 2 && s[0] == '\\' && IsSimpleEscape(s[1])
    ensures Body(s) == Body(s[2..])
  {
  }

  lemma BodyUnicode(s: seq<char>)
    requires |s| >= 6 && s[0] == '\\' && s[1] == 'u' && FourHex(s[2..6])
    ensures Body(s) == Body(s[6..])
  {
  }

  /** A non-empty body starts with one of the three kinds of item. */
  lemma BodyFirst(s: seq<char>)
    requires Body(s) && s != []
    ensures s[0] != '"'
    ensures s[0] == '\\' ==> |s| >= 2 && (IsSimpleEscape(s[1]) || (|s| >= 6 && s[1] == 'u' && FourHex(s[2..6])))
  {
  }

  /** Bodies are closed under concatenation. */
  lemma {:induction false} BodyConcat(a: seq<char>, b: seq<char>)
    requires Body(a) && Body(b)
    ensures Body(a + b)
    decreases |a|, 1
  {
    if a == [] {
      assert a + b == b;
    } else {
      BodyFirst(a);
      if a[0] != '\\' {
        BodyConcatPlain(a, b);
      } else if IsSimpleEscape(a[1]) {
        BodyConcatEscape(a, b);
      } else {
        BodyConcatUnicode(a, b);
      }
    }
  }

  lemma BodyConcatPlain(a: seq<char>, b: seq<char>)
    requires Body(a) && Body(b) && a != [] && a[0] != '"' && a[0] != '\\'
    ensures Body(a + b)
    decreases |a|, 0
  {
    var ab := a + b;
    assert ab[0] == a[0];
    BodyPlain(a);
    DropConcat(a, b, 1);
    BodyConcat(a[1..], b);
    BodyPlain(ab);
  }

  lemma BodyConcatEscape(a: seq<char>, b: seq<char>)
    requires Body(a) && Body(b) && |a| >= 2 && a[0] == '\\' && IsSimpleEscape(a[1])
    ensures Body(a + b)
    decreases |a|, 0
  {
    var ab := a + b;
    assert ab[0] == a[0];
    assert ab[1] == a[1];
    BodyEscape(a);
    DropConcat(a, b, 2);
    BodyConcat(a[2..], b);
    BodyEscape(ab);
  }

  lemma BodyConcatUnicode(a: seq<char>, b: seq<char>)
    requires Body(a) && Body(b) && |a| >= 6 && a[0] == '\\' && a[1] == 'u' && FourHex(a[2..6])
    ensures Body(a + b)
    decreases |a|, 0
  {
    var ab := a + b;
    assert ab[0] == a[0];
    assert ab[1] == a[1];
    SliceConcatLeft(a, b, 2, 6);
    BodyUnicode(a);
    DropConcat(a, b, 6);
    BodyConcat(a[6..], b);
    BodyUnicode(ab);
  }

  /** Items never straddle the end of a valid body, so a valid body can be cancelled
      from the front of another. */
  lemma {:induction false} BodyCancel(a: seq<char>, b: seq<char>)
    requires Body(a) && Body(a + b)
    ensures Body(b)
    decreases |a|, 1
  {
    if a == [] {
      assert a + b == b;
    } else {
      BodyFirst(a);
      if a[0] != '\\' {
        BodyCancelPlain(a, b);
      } else if IsSimpleEscape(a[1]) {
        BodyCancelEscape(a, b);
      } else {
        BodyCancelUnicode(a, b);
      }
    }
  }

  lemma BodyCancelPlain(a: seq<char>, b: seq<char>)
    requires Body(a) && Body(a + b) && a != [] && a[0] != '"' && a[0] != '\\'
    ensures Body(b)
    decreases |a|, 0
  {
    var ab := a + b;
    assert ab[0] == a[0];
    BodyPlain(a);
    DropConcat(a, b, 1);
    BodyPlain(ab);
    BodyCancel(a[1..], b);
  }

  lemma BodyCancelEscape(a: seq<char>, b: seq<char>)
    requires Body(a) && Body(a + b) && |a| >= 2 && a[0] == '\\' && IsSimpleEscape(a[1])
    ensures Body(b)
    decreases |a|, 0
  {
    var ab := a + b;
    assert ab[0] == a[0];
    assert ab[1] == a[1];
    BodyEscape(a);
    DropConcat(a, b, 2);
    BodyEscape(ab);
    BodyCancel(a[2..], b);
  }

  lemma BodyCancelUnicode(a: seq<char>, b: seq<char>)
    requires Body(a) && Body(a + b) && |a| >= 6 && a[0] == '\\' && a[1] == 'u' && FourHex(a[2..6])
    ensures Body(b)
    decreases |a|, 0
  {
    var ab := a + b;
    assert ab[0] == a[0];
    assert ab[1] == a[1];
    SliceConcatLeft(a, b, 2, 6);
    BodyUnicode(a);
    DropConcat(a, b, 6);
    BodyUnicode(ab);
    BodyCancel(a[6..], b);
  }

  /** One plain character extends a body. */
  lemma BodySnocPlain(a: seq<char>, c: char)
    requires Body(a) && c != '"' && c != '\\'
    ensures Body(a + [c])
  {
    assert [c][1..] == [];
    BodyConcat(a, [c]);
  }

  /** A simple escape extends a body. */
  lemma BodySnocEscape(a: seq<char>, c: char)
    requires Body(a) && IsSimpleEscape(c)
    ensures Body(a + ['\\', c])
  {
    assert ['\\', c][2..] == [];
    BodyConcat(a, ['\\', c]);
  }

  /** A `\u` escape extends a body. */
  lemma BodySnocUnicode(a: seq<char>, h: seq<char>)
    requires Body(a) && FourHex(h)
    ensures Body(a + ['\\', 'u'] + h)
  {
    var x := ['\\', 'u'] + h;
    assert x[2..6] == h;
    assert x[6..] == [];
    BodyUnicode(x);
    BodyConcat(a, x);
    assert a + x == a + ['\\', 'u'] + h;
  }

  /** A lone trailing backslash never completes a body. */
  lemma BodyNotBackslash(a: seq<char>)
    requires Body(a)
    ensures !Body(a + ['\\'])
  {
    if Body(a + ['\\']) {
      BodyCancel(a, ['\\']);
    }
  }

  /** A string token ends at its first unescaped quote, so its end is unique. */
  lemma StringLiteralUnique(input: seq<char>, i: nat, e1: nat, e2: nat)
    requires i <= e1 <= |input| && i <= e2 <= |input|
    requires IsStringLiteral(input[i..e1]) && IsStringLiteral(input[i..e2])
    ensures e1 == e2
  {
    if e1 < e2 {
      NoLiteralBeyond(input, i, e1, e2);
    } else if e2 < e1 {
      NoLiteralBeyond(input, i, e2, e1);
    }
  }

  /** Once a string token has closed, no longer candidate is a string token. */
  lemma NoLiteralBeyond(input: seq<char>, i: nat, e1: nat, e2: nat)
    requires i <= e1 < e2 <= |input|
    requires IsStringLiteral(input[i..e1])
    ensures !IsStringLiteral(input[i..e2])
  {
    var t1, t2 := input[i..e1], input[i..e2];
    if IsStringLiteral(t2) {
      assert t2[..|t1|] == t1;
      var b1, b2 := t1[1..|t1| - 1], t2[1..|t2| - 1];
      var rest := t2[|t1| - 1..|t2| - 1];
      assert b1 == t2[1..|t1| - 1];
      assert b2 == b1 + rest;
      assert rest[0] == '"';
      BodyCancel(b1, rest);
      assert false;
    }
  }

  /** A string token occupies `input[start..e]`. */
  predicate LiteralAt(input: seq<char>, start: nat, e: nat)
    requires start <= e <= |input|
  {
    IsStringLiteral(input[start..e])
  }

  /** The end of the string token that starts at `index`, if one does. */
  function StringEnd(input: seq<char>, index: nat): (r: Option<nat>)
    requires index <= |input|
    ensures r.Some? ==> index < r.value <= |input| && LiteralAt(input, index, r.value)
    ensures r.None? <==> forall e | index <= e <= |input| :: !LiteralAt(input, index, e)
  {
    FirstEndFrom(input, index, index)
  }

  function FirstEndFrom(input: seq<char>, index: nat, e: nat): (r: Option<nat>)
    requires index <= e <= |input|
    requires forall e' | index <= e' < e :: !LiteralAt(input, index, e')
    ensures r.Some? ==> e <= r.value <= |input| && LiteralAt(input, index, r.value)
    ensures r.None? <==> forall e' | index <= e' <= |input| :: !LiteralAt(input, index, e')
    decreases |input| - e
  {
    if LiteralAt(input, index, e) then Some(e)
    else if e == |input| then None
    else FirstEndFrom(input, index, e + 1)
  }
}
