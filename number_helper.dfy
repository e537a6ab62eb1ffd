/** Character classes used by the number and string recognizers
    (src/Helper/NumberHelper.php). Every char stands for one input byte. */
module NumberHelper {

  const Digits: seq<char> := "0123456789"
  const LowerHex: seq<char> := "abcdef"
  const UpperHex: seq<char> := "ABCDEF"

  /** `$char >= '1' && $char <= '9'` on a one-byte string. */
  predicate IsDigit1to9(c: char)
  {
    '1' <= c <= '9'
  }

  /** `$char === 'e' || $char === 'E'`. */
  predicate IsExp(c: char)
  {
    c == 'e' || c == 'E'
  }

  /** `$char >= '0' && $char <= '9'` on a one-byte string. */
  predicate IsDigit(c: char)
  {
    '0' <= c <= '9'
  }

  /** A decimal digit or a letter a-f in either case. */
  predicate IsHex(c: char)
  {
    IsDigit(c) || ('a' <= c <= 'f') || ('A' <= c <= 'F')
  }

  /** The four classes as the sets of characters they accept. */
  lemma CharClasses(c: char)
    ensures IsDigit1to9(c) <==> c in "123456789"
    ensures IsExp(c) <==> c in "eE"
    ensures IsDigit(c) <==> c in Digits
    ensures IsHex(c) <==> c in Digits + LowerHex + UpperHex
  {
  }

  /** Every nonzero decimal digit is a digit, and `0` is the only digit left out. */
  lemma Digit1to9IsDigitButZero(c: char)
    ensures IsDigit1to9(c) <==> IsDigit(c) && c != '0'
  {
  }

  /** The exponent markers are not digits. */
  lemma ExpIsNotDigit(c: char)
    ensures !(IsExp(c) && IsDigit(c))
  {
  }

  /** The value of a hex digit, as PHP's `intval($c, 16)` gives it for a hex digit. */
  function HexDigitValue(c: char): (v: nat)
    requires IsHex(c)
    ensures v < 16
    ensures IsDigit(c) ==> v == c as int - '0' as int
    ensures c == '0' <==> v == 0
    ensures "0123456789abcdef"[v] == c || "0123456789ABCDEF"[v] == c
  {
    if IsDigit(c) then c as int - '0' as int
    else if 'a' <= c <= 'f' then c as int - 'a' as int + 10
    else c as int - 'A' as int + 10
  }
}
