/** The number grammar of section 6 of RFC 8259, as a reference for the number
    recognizer: number = [ minus ] int [ frac ] [ exp ]. */
module NumberGrammar {
  import opened Wrappers
  import opened NumberHelper

  predicate AllDigits(s: seq<char>)
  {
    forall i | 0 <= i < |s| :: IsDigit(s[i])
  }

  predicate IsSign(c: char)
  {
    c == '+' || c == '-'
  }

  /** int = zero / ( digit1-9 *DIGIT ) */
  predicate IntPart(s: seq<char>)
  {
    s == ['0'] || (|s| > 0 && IsDigit1to9(s[0]) && AllDigits(s[1..]))
  }

  /** [ minus ] int */
  predicate SignedInt(s: seq<char>)
  {
    if |s| > 0 && s[0] == '-' then IntPart(s[1..]) else IntPart(s)
  }

  /** frac = decimal-point 1*DIGIT */
  predicate Frac(s: seq<char>)
  {
    |s| >= 2 && s[0] == '.' && AllDigits(s[1..])
  }

  /** exp = e [ minus / plus ] 1*DIGIT */
  predicate ExpPart(s: seq<char>)
  {
    |s| >= 2 && IsExp(s[0]) &&
    (AllDigits(s[1..]) || (|s| >= 3 && IsSign(s[1]) && AllDigits(s[2..])))
  }

  /** [ minus ] int [ frac ] */
  predicate Mantissa(s: seq<char>)
  {
    SignedInt(s) || exists b {:trigger SignedInt(s[..b]), Frac(s[b..])} | 0 < b < |s| :: SignedInt(s[..b]) && Frac(s[b..])
  }

  /** A complete JSON number. */
  predicate IsJsonNumber(s: seq<char>)
  {
    Mantissa(s) || exists c {:trigger Mantissa(s[..c]), ExpPart(s[c..])} | 0 < c < |s| :: Mantissa(s[..c]) && ExpPart(s[c..])
  }

  /** The first `k` characters of `w` form a JSON number. */
  predicate NumberPrefix(w: seq<char>, k: nat)
    requires k <= |w|
  {
    IsJsonNumber(w[..k])
  }

  /** The length of the longest prefix of `w` that is a JSON number, if there is one. */
  function LongestNumberPrefix(w: seq<char>): (r: Option<nat>)
    ensures r.Some? ==> 0 < r.value <= |w| && NumberPrefix(w, r.value)
    ensures r.Some? ==> forall k | r.value < k <= |w| :: !NumberPrefix(w, k)
    ensures r.None? <==> forall k | 0 <= k <= |w| :: !NumberPrefix(w, k)
  {
    LongestUpTo(w, |w|)
  }

  /** The longest number prefix of `w` no longer than `n`, searched from `n` downwards. */
  function LongestUpTo(w: seq<char>, n: nat): (r: Option<nat>)
    requires n <= |w|
    ensures r.Some? ==> 0 < r.value <= n && NumberPrefix(w, r.value)
    ensures r.Some? ==> forall k | r.value < k <= n :: !NumberPrefix(w, k)
    ensures r.None? <==> forall k | 0 <= k <= n :: !NumberPrefix(w, k)
  {
    if n == 0 then
      assert w[..0] == [];
      assert !IntPart([]);
      None
    else if NumberPrefix(w, n) then Some(n)
    else LongestUpTo(w, n - 1)
  }
}
