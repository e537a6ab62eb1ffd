/** The number recognizer's state machine (src/State/NumberStates.php and the
    switch of `parseNumber` in src/Token/Tokenizer.php), and the proof that it
    tracks the number grammar of section 6 of RFC 8259 exactly. */
module NumberStates {
  import opened Wrappers
  import opened NumberHelper
  import opened NumberGrammar

  datatype NumberState =
    | Start | Minus | Zero | Digit | Point | DigitFraction | Exp | ExpDigitOrSign

  /** What one pass of the switch does with the current character. */
  datatype NumberStep =
    | Next(state: NumberState, accepted: bool)  // consume it; `accepted`: `$passedValueIndex` moves past it
    | Stop                                      // `break 2`: keep the longest prefix seen so far
    | Reject                                    // `return null`

  /** The transition table of `parseNumber`. */
  function Transition(q: NumberState, c: char): (s: NumberStep)
    ensures s.Next? ==> s.accepted == IsDigit(c)
    ensures s.Reject? ==> q == Start || q == Minus
    ensures s.Stop? ==> q != Start && q != Minus
  {
    match q
    case Start =>
      if c == '-' then Next(Minus, false)
      else if c == '0' then Next(Zero, true)
      else if IsDigit1to9(c) then Next(Digit, true)
      else Reject
    case Minus =>
      if c == '0' then Next(Zero, true)
      else if IsDigit1to9(c) then Next(Digit, true)
      else Reject
    case Zero =>
      if c == '.' then Next(Point, false)
      else if IsExp(c) then Next(Exp, false)
      else Stop
    case Digit =>
      if IsDigit(c) then Next(Digit, true)
      else if c == '.' then Next(Point, false)
      else if IsExp(c) then Next(Exp, false)
      else Stop
    case Point =>
      if IsDigit(c) then Next(DigitFraction, true)
      else Stop
    case DigitFraction =>
      if IsDigit(c) then Next(DigitFraction, true)
      else if IsExp(c) then Next(Exp, false)
      else Stop
    case Exp =>
      if IsSign(c) then Next(ExpDigitOrSign, false)
      else if IsDigit(c) then Next(ExpDigitOrSign, true)
      else Stop
    case ExpDigitOrSign =>
      if IsDigit(c) then Next(ExpDigitOrSign, true)
      else Stop
  }

  /** The state reached from `q` after consuming all of `w`; None once a character
      makes the machine stop or reject. */
  function RunFrom(q: NumberState, w: seq<char>): Option<NumberState>
    decreases |w|
  {
    if w == [] then Some(q)
    else
      match RunFrom(q, w[..|w| - 1])
      case None => None
      case Some(p) =>
        var s := Transition(p, w[|w| - 1]);
        if s.Next? then Some(s.state) else None
  }

  function Run(w: seq<char>): Option<NumberState>
  {
    RunFrom(Start, w)
  }

  /** Running over a concatenation is running over each part in turn. */
  lemma {:induction false} RunCompose(q: NumberState, a: seq<char>, b: seq<char>)
    ensures RunFrom(q, a + b) == match RunFrom(q, a) case None => None case Some(p) => RunFrom(p, b)
    decreases |b|
  {
    if b == [] {
      assert a + b == a;
    } else {
      var b0 := b[..|b| - 1];
      assert (a + b)[..|a + b| - 1] == a + b0;
      assert (a + b)[|a + b| - 1] == b[|b| - 1];
      RunCompose(q, a, b0);
    }
  }

  lemma RunOne(q: NumberState, c: char, rest: seq<char>)
    ensures RunFrom(q, [c] + rest) ==
      (var s := Transition(q, c); if s.Next? then RunFrom(s.state, rest) else None)
  {
    assert [c][..0] == [];
    RunCompose(q, [c], rest);
  }

  /** Once the machine has stopped or rejected, no extension of the input revives it. */
  lemma RunDeadExtends(w: seq<char>, k: nat)
    requires k <= |w|
    requires Run(w[..k]).None?
    ensures Run(w).None?
  {
    assert w == w[..k] + w[k..];
    RunCompose(Start, w[..k], w[k..]);
  }

  // ---------------------------------------------------------------------------
  // Soundness: every state describes exactly which prefixes lead to it.

  predicate ExpPrefix(s: seq<char>)
  {
    |s| >= 2 && IsExp(s[0]) && (AllDigits(s[1..]) || (IsSign(s[1]) && AllDigits(s[2..])))
  }

  /** The prefixes that leave the machine in state `q`. */
  predicate Lang(q: NumberState, w: seq<char>)
  {
    match q
    case Start => w == []
    case Minus => w == ['-']
    case Zero => w == ['0'] || w == ['-', '0']
    case Digit => SignedInt(w) && w != ['0'] && w != ['-', '0']
    case Point => |w| >= 2 && SignedInt(w[..|w| - 1]) && w[|w| - 1] == '.'
    case DigitFraction => exists b {:trigger SignedInt(w[..b]), Frac(w[b..])} | 0 < b < |w| :: SignedInt(w[..b]) && Frac(w[b..])
    case Exp => |w| >= 2 && Mantissa(w[..|w| - 1]) && IsExp(w[|w| - 1])
    case ExpDigitOrSign => exists c {:trigger Mantissa(w[..c]), ExpPrefix(w[c..])} | 0 < c < |w| :: Mantissa(w[..c]) && ExpPrefix(w[c..])
  }

  lemma ZeroIsSignedInt(w: seq<char>)
    requires w == ['0'] || w == ['-', '0']
    ensures SignedInt(w)
  {
    if w == ['-', '0'] { assert w[1..] == ['0']; }
  }

  lemma AllDigitsSnoc(s: seq<char>, d: char)
    requires AllDigits(s) && IsDigit(d)
    ensures AllDigits(s + [d])
  {
  }

  lemma SignedIntSnoc(w: seq<char>, d: char)
    requires SignedInt(w) && w != ['0'] && w != ['-', '0'] && IsDigit(d)
    ensures SignedInt(w + [d]) && w + [d] != ['0'] && w + [d] != ['-', '0']
  {
    var w' := w + [d];
    if w[0] == '-' {
      assert w'[1..] == w[1..] + [d];
      assert w[1..][1..] + [d] == w'[1..][1..];
      AllDigitsSnoc(w[1..][1..], d);
    } else {
      assert w[1..] + [d] == w'[1..];
      AllDigitsSnoc(w[1..], d);
    }
  }

  lemma LangStepStart(w: seq<char>, c: char)
    requires Lang(Start, w) && Transition(Start, c).Next?
    ensures Lang(Transition(Start, c).state, w + [c])
  {
    assert w + [c] == [c];
    if IsDigit1to9(c) { assert [c][1..] == []; }
  }

  lemma LangStepMinus(w: seq<char>, c: char)
    requires Lang(Minus, w) && Transition(Minus, c).Next?
    ensures Lang(Transition(Minus, c).state, w + [c])
  {
    assert w + [c] == ['-', c];
    assert ['-', c][1..] == [c];
    if IsDigit1to9(c) { assert [c][1..] == []; }
  }

  lemma LangStepZero(w: seq<char>, c: char)
    requires Lang(Zero, w) && Transition(Zero, c).Next?
    ensures Lang(Transition(Zero, c).state, w + [c])
  {
    var w' := w + [c];
    assert w'[..|w'| - 1] == w;
    ZeroIsSignedInt(w);
  }

  lemma LangStepDigit(w: seq<char>, c: char)
    requires Lang(Digit, w) && Transition(Digit, c).Next?
    ensures Lang(Transition(Digit, c).state, w + [c])
  {
    var w' := w + [c];
    assert w'[..|w'| - 1] == w;
    if IsDigit(c) { SignedIntSnoc(w, c); }
  }

  lemma LangStepPoint(w: seq<char>, c: char)
    requires Lang(Point, w) && Transition(Point, c).Next?
    ensures Lang(Transition(Point, c).state, w + [c])
  {
    var w' := w + [c];
    var b := |w| - 1;
    assert w'[..b] == w[..b];
    assert w'[b..] == ['.', c];
    assert ['.', c][1..] == [c];
    assert SignedInt(w'[..b]) && Frac(w'[b..]);
  }

  lemma LangStepDigitFraction(w: seq<char>, c: char)
    requires Lang(DigitFraction, w) && Transition(DigitFraction, c).Next?
    ensures Lang(Transition(DigitFraction, c).state, w + [c])
  {
    var w' := w + [c];
    var b :| 0 < b < |w| && SignedInt(w[..b]) && Frac(w[b..]);
    if IsDigit(c) {
      assert w'[..b] == w[..b];
      assert w'[b..] == w[b..] + [c];
      assert w'[b..][1..] == w[b..][1..] + [c];
      AllDigitsSnoc(w[b..][1..], c);
      assert SignedInt(w'[..b]) && Frac(w'[b..]);
    } else {
      assert w'[..|w'| - 1] == w;
    }
  }

  lemma LangStepExp(w: seq<char>, c: char)
    requires Lang(Exp, w) && Transition(Exp, c).Next?
    ensures Lang(Transition(Exp, c).state, w + [c])
  {
    var w' := w + [c];
    var k := |w| - 1;
    assert w'[..k] == w[..k];
    assert w'[k..] == [w[k], c];
    assert [w[k], c][1..] == [c];
    assert [w[k], c][2..] == [];
    assert Mantissa(w'[..k]) && ExpPrefix(w'[k..]);
  }

  lemma LangStepExpDigitOrSign(w: seq<char>, c: char)
    requires Lang(ExpDigitOrSign, w) && Transition(ExpDigitOrSign, c).Next?
    ensures Lang(Transition(ExpDigitOrSign, c).state, w + [c])
  {
    var w' := w + [c];
    var k :| 0 < k < |w| && Mantissa(w[..k]) && ExpPrefix(w[k..]);
    assert w'[..k] == w[..k];
    var s := w[k..];
    assert w'[k..] == s + [c];
    assert (s + [c])[1..] == s[1..] + [c];
    assert (s + [c])[2..] == s[2..] + [c];
    if AllDigits(s[1..]) {
      AllDigitsSnoc(s[1..], c);
    } else {
      AllDigitsSnoc(s[2..], c);
    }
    assert Mantissa(w'[..k]) && ExpPrefix(w'[k..]);
  }

  lemma LangStep(q: NumberState, w: seq<char>, c: char)
    requires Lang(q, w) && Transition(q, c).Next?
    ensures Lang(Transition(q, c).state, w + [c])
  {
    match q
    case Start => LangStepStart(w, c);
    case Minus => LangStepMinus(w, c);
    case Zero => LangStepZero(w, c);
    case Digit => LangStepDigit(w, c);
    case Point => LangStepPoint(w, c);
    case DigitFraction => LangStepDigitFraction(w, c);
    case Exp => LangStepExp(w, c);
    case ExpDigitOrSign => LangStepExpDigitOrSign(w, c);
  }

  /** The state the machine is in after a prefix describes that prefix. */
  lemma {:induction false} RunLang(w: seq<char>)
    requires Run(w).Some?
    ensures Lang(Run(w).value, w)
    decreases |w|
  {
    if w != [] {
      var w0 := w[..|w| - 1];
      RunLang(w0);
      assert w0 + [w[|w| - 1]] == w;
      LangStep(Run(w0).value, w0, w[|w| - 1]);
    }
  }

  /** A prefix described by a state and ending in a digit is a complete number. */
  lemma LangAccepts(q: NumberState, w: seq<char>)
    requires Lang(q, w) && |w| > 0 && IsDigit(w[|w| - 1])
    ensures IsJsonNumber(w)
  {
    match q
    case Zero => ZeroIsSignedInt(w);
    case Digit =>
    case DigitFraction =>
      var b :| 0 < b < |w| && SignedInt(w[..b]) && Frac(w[b..]);
      assert Mantissa(w);
    case ExpDigitOrSign =>
      var k :| 0 < k < |w| && Mantissa(w[..k]) && ExpPrefix(w[k..]);
      var s := w[k..];
      assert s[|s| - 1] == w[|w| - 1];
      if !AllDigits(s[1..]) {
        assert |s| >= 3;
      }
      assert ExpPart(s);
    case Start =>
    case Minus =>
    case Point =>
    case Exp =>
  }

  // ---------------------------------------------------------------------------
  // Completeness: every number drives the machine to an accepting configuration.

  lemma {:induction false} RunDigits(q: NumberState, ds: seq<char>)
    requires q == Digit || q == DigitFraction || q == ExpDigitOrSign
    requires AllDigits(ds)
    ensures RunFrom(q, ds) == Some(q)
    decreases |ds|
  {
    if ds != [] {
      RunDigits(q, ds[..|ds| - 1]);
    }
  }

  lemma RunIntPart(q: NumberState, ip: seq<char>)
    requires q == Start || q == Minus
    requires IntPart(ip)
    ensures RunFrom(q, ip) == Some(Zero) || RunFrom(q, ip) == Some(Digit)
  {
    assert ip == [ip[0]] + ip[1..];
    RunOne(q, ip[0], ip[1..]);
    if ip != ['0'] {
      RunDigits(Digit, ip[1..]);
    }
  }

  lemma RunSignedInt(w: seq<char>)
    requires SignedInt(w)
    ensures Run(w) == Some(Zero) || Run(w) == Some(Digit)
  {
    if w[0] == '-' {
      assert w == ['-'] + w[1..];
      RunOne(Start, '-', w[1..]);
      RunIntPart(Minus, w[1..]);
    } else {
      RunIntPart(Start, w);
    }
  }

  lemma RunFrac(q: NumberState, f: seq<char>)
    requires q == Zero || q == Digit
    requires Frac(f)
    ensures RunFrom(q, f) == Some(DigitFraction)
  {
    assert f == ['.'] + ([f[1]] + f[2..]);
    RunOne(q, '.', [f[1]] + f[2..]);
    assert f[1..][0] == f[1];
    RunOne(Point, f[1], f[2..]);
    assert f[2..] == f[1..][1..];
    RunDigits(DigitFraction, f[2..]);
  }

  lemma RunSignedFrac(i: seq<char>, f: seq<char>)
    requires SignedInt(i) && Frac(f)
    ensures Run(i + f) == Some(DigitFraction)
  {
    RunSignedInt(i);
    RunCompose(Start, i, f);
    RunFrac(Run(i).value, f);
  }

  lemma RunMantissa(w: seq<char>)
    requires Mantissa(w)
    ensures Run(w) == Some(Zero) || Run(w) == Some(Digit) || Run(w) == Some(DigitFraction)
  {
    if SignedInt(w) {
      RunSignedInt(w);
    } else {
      RunMantissaFrac(w);
    }
  }

  lemma RunMantissaFrac(w: seq<char>)
    requires Mantissa(w) && !SignedInt(w)
    ensures Run(w) == Some(DigitFraction)
  {
    var b :| 0 < b < |w| && SignedInt(w[..b]) && Frac(w[b..]);
    assert w == w[..b] + w[b..];
    RunSignedFrac(w[..b], w[b..]);
  }

  lemma RunExpPart(q: NumberState, s: seq<char>)
    requires q == Zero || q == Digit || q == DigitFraction
    requires ExpPart(s)
    ensures RunFrom(q, s) == Some(ExpDigitOrSign)
  {
    assert s == [s[0]] + ([s[1]] + s[2..]);
    RunOne(q, s[0], [s[1]] + s[2..]);
    RunOne(Exp, s[1], s[2..]);
    if AllDigits(s[1..]) {
      assert s[2..] == s[1..][1..];
    }
    RunDigits(ExpDigitOrSign, s[2..]);
  }

  lemma RunMantissaExp(m: seq<char>, e: seq<char>)
    requires Mantissa(m) && ExpPart(e)
    ensures Run(m + e).Some?
  {
    RunMantissa(m);
    RunCompose(Start, m, e);
    RunExpPart(Run(m).value, e);
  }

  lemma RunNumber(w: seq<char>)
    requires IsJsonNumber(w)
    ensures Run(w).Some?
  {
    if !Mantissa(w) {
      var k :| 0 < k < |w| && Mantissa(w[..k]) && ExpPart(w[k..]);
      assert w == w[..k] + w[k..];
      RunMantissaExp(w[..k], w[k..]);
    } else {
      RunMantissa(w);
    }
  }

  lemma SignedIntEndsInDigit(w: seq<char>)
    requires SignedInt(w)
    ensures |w| > 0 && IsDigit(w[|w| - 1])
  {
    var ip := if w[0] == '-' then w[1..] else w;
    assert ip[|ip| - 1] == w[|w| - 1];
    if ip != ['0'] && |ip| > 1 {
      assert ip[1..][|ip| - 2] == ip[|ip| - 1];
    }
  }

  lemma NumberEndsInDigit(w: seq<char>)
    requires IsJsonNumber(w)
    ensures |w| > 0 && IsDigit(w[|w| - 1])
  {
    if Mantissa(w) {
      if SignedInt(w) {
        SignedIntEndsInDigit(w);
      } else {
        var b :| 0 < b < |w| && SignedInt(w[..b]) && Frac(w[b..]);
        assert w[b..][1..][|w| - b - 2] == w[|w| - 1];
      }
    } else {
      var k :| 0 < k < |w| && Mantissa(w[..k]) && ExpPart(w[k..]);
      var s := w[k..];
      assert s[|s| - 1] == w[|w| - 1];
      if AllDigits(s[1..]) {
        assert s[1..][|s| - 2] == s[|s| - 1];
      } else {
        assert s[2..][|s| - 3] == s[|s| - 1];
      }
    }
  }

  /** The machine and the grammar agree: a sequence is a JSON number exactly when the
      machine consumes all of it without stopping and its last character moved
      `$passedValueIndex`, i.e. was a digit. */
  lemma NumberIffAccepted(w: seq<char>)
    ensures IsJsonNumber(w) <==> Run(w).Some? && |w| > 0 && IsDigit(w[|w| - 1])
  {
    if IsJsonNumber(w) {
      RunNumber(w);
      NumberEndsInDigit(w);
    }
    if Run(w).Some? && |w| > 0 && IsDigit(w[|w| - 1]) {
      RunLang(w);
      LangAccepts(Run(w).value, w);
    }
  }

  /** In the two states before any digit, the machine has seen only `""` or `"-"`. */
  lemma NoDigitYet(w: seq<char>)
    requires Run(w) == Some(Start) || Run(w) == Some(Minus)
    ensures w == [] || w == ['-']
  {
    RunLang(w);
  }

  // ---------------------------------------------------------------------------
  // The machine read one character at a time over the prefixes of a word.

  /** Reading one more character of `w`. */
  lemma RunStep(w: seq<char>, n: nat)
    requires n < |w| && Run(w[..n]).Some?
    ensures Run(w[..n + 1]) ==
      (var s := Transition(Run(w[..n]).value, w[n]); if s.Next? then Some(s.state) else None)
  {
    assert w[..n + 1][..n] == w[..n];
  }

  /** A consumed character completes a number prefix exactly when it is accepted. */
  lemma PrefixStep(w: seq<char>, n: nat)
    requires n < |w| && Run(w[..n]).Some? && Transition(Run(w[..n]).value, w[n]).Next?
    ensures Run(w[..n + 1]) == Some(Transition(Run(w[..n]).value, w[n]).state)
    ensures NumberPrefix(w, n + 1) <==> Transition(Run(w[..n]).value, w[n]).accepted
  {
    RunStep(w, n);
    NumberIffAccepted(w[..n + 1]);
  }

  /** Once a character stops or rejects the machine, no longer prefix is a number. */
  lemma PrefixDeath(w: seq<char>, n: nat)
    requires n < |w| && Run(w[..n]).Some? && !Transition(Run(w[..n]).value, w[n]).Next?
    ensures forall k | n < k <= |w| :: !NumberPrefix(w, k)
  {
    RunStep(w, n);
    forall k | n < k <= |w| ensures !NumberPrefix(w, k) {
      assert w[..k][..n + 1] == w[..n + 1];
      RunDeadExtends(w[..k], n + 1);
      NumberIffAccepted(w[..k]);
    }
  }
}
