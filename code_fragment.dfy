/** The excerpt of the input shown under an error message (src/Helper/CodeFragment.php):
    the input split into lines, a window of numbered lines around the error line, and
    a caret line pointing at the error column.

    `getFragment` is only ever called with empty settings, so `extraLines` is 2 and
    `tabSize` is 4 throughout. Strings are byte strings, one char per byte. */
module CodeFragment {
  import opened NumberHelper
  import opened NumberGrammar

  const ExtraLines: nat := 2
  const TabSize: nat := 4

  const FormFeed: char := 12 as char

  function Max(a: int, b: int): int { if a < b then b else a }
  function Min(a: int, b: int): int { if a < b then a else b }

  // ---------------------------------------------------------------------------
  // Splitting into lines: `preg_split('/\r\n?|\n|\f/', $code)`.

  predicate IsBreak(c: char)
  {
    c == '\r' || c == '\n' || c == FormFeed
  }

  predicate NoBreak(s: seq<char>)
  {
    forall k | 0 <= k < |s| :: !IsBreak(s[k])
  }

  /** The length of the line break at the front of `s`: `\r\n` is one break of two
      bytes, a lone `\r`, `\n` or form feed one of one byte; 0 when `s` starts with
      line text. */
  function BreakLength(s: seq<char>): (n: nat)
    requires s != []
    ensures n <= |s| && (n == 0 <==> !IsBreak(s[0]))
    ensures n <= 2 && (n == 2 <==> |s| >= 2 && s[0] == '\r' && s[1] == '\n')
  {
    if s[0] == '\r' then (if |s| >= 2 && s[1] == '\n' then 2 else 1)
    else if s[0] == '\n' || s[0] == FormFeed then 1
    else 0
  }

  /** The lines of `s`, in order, without their breaks. There is always at least one
      line, and a break at the very end leaves an empty last line. */
  function SplitLines(s: seq<char>): (r: seq<seq<char>>)
    ensures |r| >= 1
    decreases |s|
  {
    if s == [] then [[]]
    else
      var n := BreakLength(s);
      if n == 0 then
        var rest := SplitLines(s[1..]);
        [[s[0]] + rest[0]] + rest[1..]
      else [[]] + SplitLines(s[n..])
  }

  /** `implode("\n", $ls)` */
  function Implode(ls: seq<seq<char>>): seq<char>
    decreases |ls|
  {
    if ls == [] then []
    else if |ls| == 1 then ls[0]
    else ls[0] + "\n" + Implode(ls[1..])
  }

  /** `s` with every line break, whatever its form, written as `\n`. */
  function Normalized(s: seq<char>): seq<char>
    decreases |s|
  {
    if s == [] then []
    else
      var n := BreakLength(s);
      if n == 0 then [s[0]] + Normalized(s[1..]) else "\n" + Normalized(s[n..])
  }

  /** No line contains a line break. */
  lemma {:induction false} SplitLinesHaveNoBreaks(s: seq<char>)
    ensures forall k | 0 <= k < |SplitLines(s)| :: NoBreak(SplitLines(s)[k])
    decreases |s|
  {
    if s != [] {
      var n := BreakLength(s);
      if n == 0 {
        SplitLinesHaveNoBreaks(s[1..]);
        var rest := SplitLines(s[1..]);
        var first := [s[0]] + rest[0];
        assert NoBreak(first) by {
          forall k | 0 <= k < |first| ensures !IsBreak(first[k]) {
            if k > 0 { assert first[k] == rest[0][k - 1]; }
          }
        }
        forall k | 0 <= k < |SplitLines(s)| ensures NoBreak(SplitLines(s)[k]) {
          if k > 0 { assert SplitLines(s)[k] == rest[k]; }
        }
      } else {
        SplitLinesHaveNoBreaks(s[n..]);
        forall k | 0 <= k < |SplitLines(s)| ensures NoBreak(SplitLines(s)[k]) {
          if k > 0 { assert SplitLines(s)[k] == SplitLines(s[n..])[k - 1]; }
        }
      }
    }
  }

  /** Joining the lines with `\n` gives back the input, each break written as `\n`. */
  lemma {:induction false} ImplodeSplitLines(s: seq<char>)
    ensures Implode(SplitLines(s)) == Normalized(s)
    decreases |s|
  {
    if s != [] {
      var n := BreakLength(s);
      if n == 0 {
        ImplodeSplitLines(s[1..]);
        ImplodeHead(s[0], SplitLines(s[1..]));
      } else {
        ImplodeSplitLines(s[n..]);
        var r := SplitLines(s[n..]);
        assert ([[]] + r)[1..] == r;
      }
    }
  }

  lemma ImplodeHead(x: char, r: seq<seq<char>>)
    requires |r| >= 1
    ensures Implode([[x] + r[0]] + r[1..]) == [x] + Implode(r)
  {
    var ls := [[x] + r[0]] + r[1..];
    if |r| > 1 {
      assert ls[1..] == r[1..];
    }
  }

  /** Lines without breaks survive a join and a split unchanged. */
  lemma {:induction false} SplitLinesImplode(ls: seq<seq<char>>)
    requires |ls| >= 1 && forall k | 0 <= k < |ls| :: NoBreak(ls[k])
    ensures SplitLines(Implode(ls)) == ls
    decreases |ls|
  {
    if |ls| == 1 {
      SplitLinesPrefix(ls[0], []);
      assert ls[0] + [] == ls[0] && SplitLines([]) == [[]];
      assert [ls[0] + []] + [[]][1..] == ls;
    } else {
      var rest := Implode(ls[1..]);
      SplitLinesImplode(ls[1..]);
      var t := "\n" + rest;
      assert t[1..] == rest;
      assert SplitLines(t) == [[]] + ls[1..];
      SplitLinesPrefix(ls[0], t);
      assert ls[0] + "\n" + rest == ls[0] + t;
      assert ([[]] + ls[1..])[0] == [] && ([[]] + ls[1..])[1..] == ls[1..];
      assert ls[0] + [] == ls[0];
      assert [ls[0]] + ls[1..] == ls;
    }
  }

  /** A line followed by one break: CR LF is a single break, as are a lone CR (one
      not followed by LF), LF and form feed, and the lines after it are those of `b`. */
  lemma SplitLinesAtBreak(a: seq<char>, sep: seq<char>, b: seq<char>)
    requires NoBreak(a)
    requires sep == "\r\n" || sep == "\r" || sep == "\n" || sep == [FormFeed]
    requires sep == "\r" ==> b == [] || b[0] != '\n'
    ensures SplitLines(a + sep + b) == [a] + SplitLines(b)
  {
    var t := sep + b;
    assert a + sep + b == a + t;
    SplitLinesPrefix(a, t);
    assert t[|sep|..] == b;
    assert BreakLength(t) == |sep|;
    assert SplitLines(t) == [[]] + SplitLines(b);
    assert a + [] == a;
  }

  /** Text without breaks in front of `t` joins the first line of `t`. */
  lemma {:induction false} SplitLinesPrefix(a: seq<char>, t: seq<char>)
    requires NoBreak(a)
    ensures SplitLines(a + t) == [a + SplitLines(t)[0]] + SplitLines(t)[1..]
    decreases |a|
  {
    if a == [] {
      var r := SplitLines(t);
      assert a + t == t && a + r[0] == r[0];
      assert [r[0]] + r[1..] == r;
    } else {
      var at := a + t;
      assert at[0] == a[0] && at[1..] == a[1..] + t;
      assert !IsBreak(a[0]);
      assert NoBreak(a[1..]) by {
        forall k | 0 <= k < |a| - 1 ensures !IsBreak(a[1..][k]) {
          assert a[1..][k] == a[k + 1];
        }
      }
      SplitLinesPrefix(a[1..], t);
      assert [a[0]] + (a[1..] + SplitLines(t)[0]) == a + SplitLines(t)[0];
    }
  }

  // ---------------------------------------------------------------------------
  // Numbers and padding.

  function DigitChar(d: nat): (c: char)
    requires d < 10
    ensures IsDigit(c) && c as int - '0' as int == d
  {
    ('0' as int + d) as char
  }

  /** The decimal text of `n`, as PHP converts an integer to a string. */
  function NatToString(n: nat): (s: string)
    ensures |s| >= 1
    decreases n
  {
    if n < 10 then [DigitChar(n)] else NatToString(n / 10) + [DigitChar(n % 10)]
  }

  /** The number a string of decimal digits denotes. */
  function DecimalValue(s: string): nat
    requires AllDigits(s)
    decreases |s|
  {
    if s == [] then 0 else DecimalValue(s[..|s| - 1]) * 10 + (s[|s| - 1] as int - '0' as int)
  }

  /** The decimal text of `n` is digits only, without a leading zero, and denotes `n`. */
  lemma {:induction false} NatToStringRoundTrip(n: nat)
    ensures AllDigits(NatToString(n))
    ensures DecimalValue(NatToString(n)) == n
    ensures NatToString(n)[0] == '0' ==> n == 0
    decreases n
  {
    if n >= 10 {
      NatToStringRoundTrip(n / 10);
      var s := NatToString(n);
      assert s[..|s| - 1] == NatToString(n / 10);
      assert s[0] == NatToString(n / 10)[0];
    }
  }

  function Spaces(n: nat): (r: seq<char>)
    ensures |r| == n && forall k | 0 <= k < n :: r[k] == ' '
  {
    seq(n, _ => ' ')
  }

  /** `str_pad($s, $width, ' ')`: spaces on the right up to `width`; a longer `s` is
      kept whole. */
  function PadRight(s: seq<char>, width: nat): (r: seq<char>)
    ensures |r| == Max(|s|, width)
    ensures r[..|s|] == s
    ensures forall k | |s| <= k < |r| :: r[k] == ' '
  {
    if |s| < width then s + Spaces(width - |s|) else s
  }

  /** `preg_replace('/\t/', str_repeat(' ', $tabSize), $s)` */
  function ExpandTabs(s: seq<char>): (r: seq<char>)
    ensures |r| >= |s|
    decreases |s|
  {
    if s == [] then []
    else (if s[0] == '\t' then Spaces(TabSize) else [s[0]]) + ExpandTabs(s[1..])
  }

  function TabCount(s: seq<char>): nat
    decreases |s|
  {
    if s == [] then 0 else (if s[0] == '\t' then 1 else 0) + TabCount(s[1..])
  }

  /** Tab expansion leaves no tab, keeps every other byte, and grows the text by
      `tabSize - 1` bytes per tab. */
  lemma {:induction false} ExpandTabsFacts(s: seq<char>)
    ensures forall k | 0 <= k < |ExpandTabs(s)| :: ExpandTabs(s)[k] != '\t'
    ensures |ExpandTabs(s)| == |s| + (TabSize - 1) * TabCount(s)
    ensures TabCount(s) == 0 ==> ExpandTabs(s) == s
    decreases |s|
  {
    if s != [] {
      ExpandTabsFacts(s[1..]);
      var head := if s[0] == '\t' then Spaces(TabSize) else [s[0]];
      var e := ExpandTabs(s);
      forall k | 0 <= k < |e| ensures e[k] != '\t' {
        if k >= |head| { assert e[k] == ExpandTabs(s[1..])[k - |head|]; }
      }
      if TabCount(s) == 0 {
        assert s == [s[0]] + s[1..];
      }
    }
  }

  /** Each byte is expanded on its own: a tab becomes `tabSize` spaces and any other
      byte stays as it is. */
  lemma ExpandTabsSplice(a: seq<char>, c: char, b: seq<char>)
    ensures ExpandTabs(a + [c] + b) == ExpandTabs(a) + (if c == '\t' then Spaces(TabSize) else [c]) + ExpandTabs(b)
  {
    var h := if c == '\t' then Spaces(TabSize) else [c];
    ExpandTabsConcat(a + [c], b);
    ExpandTabsConcat(a, [c]);
    ExpandTabsByte(c);
    assert ExpandTabs(a + [c]) == ExpandTabs(a) + h;
  }

  lemma ExpandTabsByte(c: char)
    ensures ExpandTabs([c]) == if c == '\t' then Spaces(TabSize) else [c]
  {
    assert [c][1..] == [];
  }

  /** Expansion works byte by byte, so it distributes over concatenation. */
  lemma {:induction false} ExpandTabsConcat(a: seq<char>, b: seq<char>)
    ensures ExpandTabs(a + b) == ExpandTabs(a) + ExpandTabs(b)
    decreases |a|
  {
    if a == [] {
      assert a + b == b;
    } else {
      var ab := a + b;
      assert ab[0] == a[0] && ab[1..] == a[1..] + b;
      ExpandTabsConcat(a[1..], b);
    }
  }

  // ---------------------------------------------------------------------------
  // Printed lines.

  /** `printLine`: the line number left-aligned to `width`, `" | "`, and the text with
      its tabs expanded. */
  function PrintLine(line: seq<char>, position: nat, width: nat): (r: seq<char>)
    ensures |r| == Max(|NatToString(position)|, width) + 3 + |ExpandTabs(line)|
  {
    PadRight(NatToString(position), width) + " | " + ExpandTabs(line)
  }

  /** A printed line starts with the digits of its number followed by a space, then
      the separator at the padded width, then the expanded text. */
  lemma PrintLineParts(line: seq<char>, position: nat, width: nat)
    ensures var r, d := PrintLine(line, position, width), NatToString(position);
      var p := Max(|d|, width);
      |r| == p + 3 + |ExpandTabs(line)| &&
      AllDigits(r[..|d|]) && DecimalValue(r[..|d|]) == position && r[|d|] == ' ' &&
      r[p..p + 3] == " | " && r[p + 3..] == ExpandTabs(line)
  {
    var d, e := NatToString(position), ExpandTabs(line);
    PaddedParts(d, width, e);
    NatToStringRoundTrip(position);
  }

  /** The layout of a padded field, the separator and a text, over any strings. */
  lemma PaddedParts(d: seq<char>, width: nat, e: seq<char>)
    ensures var r, p := PadRight(d, width) + " | " + e, Max(|d|, width);
      |r| == p + 3 + |e| && r[..|d|] == d && r[|d|] == ' ' && r[p..p + 3] == " | " && r[p + 3..] == e
  {
    var pad, tail := PadRight(d, width), " | " + e;
    var r, p := pad + " | " + e, Max(|d|, width);
    assert r == pad + tail;
    assert r[..p] == pad && r[p..] == tail;
    assert r[..|d|] == r[..p][..|d|];
    assert r[p..p + 3] == tail[..3] && r[p + 3..] == tail[3..];
    if |d| < p {
      assert r[|d|] == pad[|d|];
    } else {
      assert r[|d|] == tail[0];
    }
  }

  /** `array_slice($ls, $offset, $length)` for non-negative offset and length. */
  function Slice(ls: seq<seq<char>>, offset: nat, length: nat): (r: seq<seq<char>>)
    ensures |r| == if offset >= |ls| then 0 else Min(length, |ls| - offset)
    ensures forall k | 0 <= k < |r| :: r[k] == ls[offset + k]
  {
    if offset >= |ls| then [] else ls[offset..Min(offset + length, |ls|)]
  }

  /** What `printLines` turns the slice into: each line printed with its number
      `start + index + 1`. */
  function NumberedLines(ls: seq<seq<char>>, start: nat, length: nat, width: nat): (r: seq<seq<char>>)
    ensures |r| == if start >= |ls| then 0 else Min(length, |ls| - start)
    ensures forall k | 0 <= k < |r| :: r[k] == PrintLine(ls[start + k], start + k + 1, width)
  {
    var slice := Slice(ls, start, length);
    seq(|slice|, k requires 0 <= k < |slice| => PrintLine(slice[k], start + k + 1, width))
  }

  /** `printLines`: `array_walk` rewrites the sliced array element by element, then the
      elements are joined with `\n`. */
  method PrintLines(ls: seq<seq<char>>, start: nat, length: nat, width: nat) returns (block: seq<char>)
    ensures block == Implode(NumberedLines(ls, start, length, width))
  {
    var slice := Slice(ls, start, length);
    var code := new seq<char>[|slice|](k requires 0 <= k < |slice| => slice[k]);
    for k := 0 to code.Length
      invariant forall j | 0 <= j < k :: code[j] == PrintLine(slice[j], start + j + 1, width)
      invariant forall j | k <= j < code.Length :: code[j] == slice[j]
    {
      code[k] := PrintLine(code[k], start + k + 1, width);
    }
    assert code[..] == NumberedLines(ls, start, length, width);
    block := Implode(code[..]);
  }

  /** The `k`-th printed line of a block is line `start + k + 1` of the input. */
  lemma NumberedLine(ls: seq<seq<char>>, start: nat, length: nat, width: nat, k: nat)
    requires k < |NumberedLines(ls, start, length, width)|
    ensures start + k < |ls| && k < length
    ensures var r := NumberedLines(ls, start, length, width)[k];
      var d := NatToString(start + k + 1);
      r[..|d|] == d && r[|d|] == ' ' && r[Max(|d|, width) + 3..] == ExpandTabs(ls[start + k])
  {
    PrintLineParts(ls[start + k], start + k + 1, width);
  }

  /** A printed line holds at least a digit and the separator. */
  lemma PrintLineLength(line: seq<char>, position: nat, width: nat)
    ensures |PrintLine(line, position, width)| >= 4
  {
  }

  /** A join begins with its first element. */
  lemma ImplodeStartsWithFirst(ls: seq<seq<char>>)
    requires ls != []
    ensures |Implode(ls)| >= |ls[0]| && Implode(ls)[..|ls[0]|] == ls[0]
  {
    if |ls| > 1 {
      assert Implode(ls) == ls[0] + ("\n" + Implode(ls[1..]));
    }
  }

  /** A block of printed lines is empty exactly when it has no line; a printed line
      always holds the separator, so no block is one of PHP's falsy strings. */
  lemma BlockEmptyIff(ls: seq<seq<char>>, start: nat, length: nat, width: nat)
    ensures var b := Implode(NumberedLines(ls, start, length, width));
      (b == [] <==> NumberedLines(ls, start, length, width) == []) && b != "0"
  {
    var n := NumberedLines(ls, start, length, width);
    if n != [] {
      PrintLineLength(Slice(ls, start, length)[0], start + 1, width);
      assert |n[0]| >= 4;
      ImplodeStartsWithFirst(n);
    }
  }

  /** Dropping the empty ones out of three blocks, of which the middle one is never
      empty, and joining the rest. */
  lemma ImplodeTruthyThree(p: seq<char>, c: seq<char>, n: seq<char>)
    requires p != "0" && c != [] && c != "0" && n != "0"
    ensures Implode(Truthy([p, c, n])) ==
      (if p == [] then [] else p + "\n") + c + (if n == [] then [] else "\n" + n)
  {
    assert [p, c, n][1..] == [c, n] && [c, n][1..] == [n] && [n][1..] == [];
    assert Truthy([n]) == if n == [] then [] else [n];
    assert Truthy([c, n]) == [c] + Truthy([n]);
    if p == [] && n == [] {
      assert Truthy([p, c, n]) == [c];
    } else if p == [] {
      assert Truthy([p, c, n]) == [c, n];
    } else if n == [] {
      assert Truthy([p, c, n]) == [p, c];
      assert Implode([p, c]) == p + "\n" + c;
    } else {
      assert Truthy([p, c, n]) == [p, c, n];
      assert Implode([n]) == n;
      assert Implode([c, n]) == c + "\n" + n;
      assert Implode([p, c, n]) == p + "\n" + Implode([c, n]);
    }
  }

  // ---------------------------------------------------------------------------
  // The fragment.

  /** `max(1, $linePos - extraLines) - 1`: the offset of the window's first line. */
  function WindowStart(line: nat): (s: nat)
    ensures s + 1 == Max(1, line - ExtraLines)
  {
    Max(1, line - ExtraLines) - 1
  }

  /** `min($linePos + extraLines, count($lines))`: the window's end bound. */
  function WindowEnd(line: nat, count: nat): (r: nat)
    ensures r <= count && r <= line + ExtraLines && (r == count || r == line + ExtraLines)
  {
    Min(line + ExtraLines, count)
  }

  /** `$lines[$linePos - 1]`; a missing line reads as PHP's `null`, that is, empty. */
  function LineAt(ls: seq<seq<char>>, line: nat): (r: seq<char>)
    ensures 1 <= line <= |ls| ==> r == ls[line - 1]
    ensures r == [] || r in ls
  {
    if 1 <= line <= |ls| then ls[line - 1] else []
  }

  /** `substr($s, 0, $n)`: a negative length drops that many bytes from the end. */
  function Prefix(s: seq<char>, n: int): (r: seq<char>)
    ensures |r| <= |s| && r == s[..|r|]
    ensures |r| == if n >= 0 then Min(n, |s|) else Max(0, |s| + n)
  {
    if n >= 0 then s[..Min(n, |s|)] else s[..Max(0, |s| + n)]
  }

  /** The number width: the digits of the window's end bound. */
  function Width(ls: seq<seq<char>>, line: nat): (w: nat)
    ensures w >= 1
  {
    |NatToString(WindowEnd(line, |ls|))|
  }

  /** `$previousLines`: `array_slice` is given `$linePos` as its length. */
  function PreviousBlock(ls: seq<seq<char>>, line: nat): (r: seq<char>)
    ensures r != "0"
  {
    BlockEmptyIff(ls, WindowStart(line), line, Width(ls, line));
    Implode(NumberedLines(ls, WindowStart(line), line, Width(ls, line)))
  }

  /** `$targetLineBeforeCursor`: the target line up to the error column, printed. */
  function TargetBeforeCursor(ls: seq<seq<char>>, line: nat, column: nat): (r: seq<char>)
    ensures |r| >= 4
  {
    PrintLine(Prefix(LineAt(ls, line), column - 1), line, Width(ls, line))
  }

  /** `$cursorLine` */
  function CursorLine(ls: seq<seq<char>>, line: nat, column: nat): (r: seq<char>)
    ensures |r| == |TargetBeforeCursor(ls, line, column)| + 1 && r[|r| - 1] == '^'
    ensures forall k | 0 <= k < |r| - 1 :: r[k] == ' '
  {
    Spaces(|TargetBeforeCursor(ls, line, column)|) + "^"
  }

  /** `$nextLines`: `array_slice` is given `$endLinePos` as its length. */
  function NextBlock(ls: seq<seq<char>>, line: nat): (r: seq<char>)
    ensures r != "0"
  {
    BlockEmptyIff(ls, line, WindowEnd(line, |ls|), Width(ls, line));
    Implode(NumberedLines(ls, line, WindowEnd(line, |ls|), Width(ls, line)))
  }

  /** `array_filter` with `$value ?? false`: the strings PHP reads as false go. */
  function Truthy(bs: seq<seq<char>>): (r: seq<seq<char>>)
    ensures forall k | 0 <= k < |r| :: r[k] != [] && r[k] != "0"
    ensures forall x :: x in r <==> x in bs && x != [] && x != "0"
    ensures (forall k | 0 <= k < |bs| :: bs[k] != [] && bs[k] != "0") ==> r == bs
    decreases |bs|
  {
    if bs == [] then []
    else if bs[0] == [] || bs[0] == "0" then Truthy(bs[1..])
    else [bs[0]] + Truthy(bs[1..])
  }

  /** `getFragment($code, $linePos, $columnPos, [])` */
  function Fragment(code: seq<char>, line: nat, column: nat): seq<char>
  {
    var ls := SplitLines(code);
    Implode(Truthy([PreviousBlock(ls, line), CursorLine(ls, line, column), NextBlock(ls, line)]))
  }

  /** The fragment is the preceding block, the caret line and the following block,
      one per line, where an empty block leaves no line; the preceding block is empty
      only when the error line is 0 or the window starts past the last line, the following one only when
      the error line is the last line or beyond. */
  lemma FragmentLayout(code: seq<char>, line: nat, column: nat)
    ensures var ls := SplitLines(code);
      var p, c, n := PreviousBlock(ls, line), CursorLine(ls, line, column), NextBlock(ls, line);
      Fragment(code, line, column) ==
        (if p == [] then [] else p + "\n") + c + (if n == [] then [] else "\n" + n) &&
      (p == [] <==> line == 0 || WindowStart(line) >= |ls|) &&
      (n == [] <==> line >= |ls|)
  {
    var ls := SplitLines(code);
    var w := Width(ls, line);
    var c := CursorLine(ls, line, column);
    BlockEmptyIff(ls, WindowStart(line), line, w);
    BlockEmptyIff(ls, line, WindowEnd(line, |ls|), w);
    assert c[|c| - 1] == '^';
    ImplodeTruthyThree(PreviousBlock(ls, line), c, NextBlock(ls, line));
  }

  /** The caret sits one column past the printed prefix of the target line: the padded
      number, the separator and the first `column - 1` bytes of the line with their
      tabs expanded. */
  lemma CaretColumn(code: seq<char>, line: nat, column: nat)
    ensures var ls := SplitLines(code);
      var c := CursorLine(ls, line, column);
      var before := Prefix(LineAt(ls, line), column - 1);
      |c| == Max(|NatToString(line)|, Width(ls, line)) + 3 + |before| + (TabSize - 1) * TabCount(before) + 1 &&
      c[|c| - 1] == '^' && forall k | 0 <= k < |c| - 1 :: c[k] == ' '
  {
    var ls := SplitLines(code);
    var before := Prefix(LineAt(ls, line), column - 1);
    PrintLineParts(before, line, Width(ls, line));
    ExpandTabsFacts(before);
  }

  /** The preceding block starts at line `max(1, line - 2)` and, being cut by
      `$linePos` lines rather than at the error line, runs through the error line
      itself and on past it to up to `line` lines. */
  lemma PreviousBlockWindow(ls: seq<seq<char>>, line: nat)
    requires 1 <= line <= |ls|
    ensures var b := NumberedLines(ls, WindowStart(line), line, Width(ls, line));
      var s := WindowStart(line);
      s + 1 == Max(1, line - ExtraLines) &&
      |b| == Min(line, |ls| - s) &&
      line - 1 - s < |b| &&
      b[line - 1 - s] == PrintLine(ls[line - 1], line, Width(ls, line))
  {
  }

  /** From line 4 on, with lines to spare after it, the preceding block already shows
      the line after the error line, which the following block shows again. */
  lemma BlocksOverlap(ls: seq<seq<char>>, line: nat)
    requires 4 <= line && line + 1 <= |ls|
    ensures var w := Width(ls, line);
      var b := NumberedLines(ls, WindowStart(line), line, w);
      var n := NumberedLines(ls, line, WindowEnd(line, |ls|), w);
      line - WindowStart(line) < |b| && 0 < |n| &&
      b[line - WindowStart(line)] == n[0] == PrintLine(ls[line], line + 1, w)
  {
  }

  /** The following block starts at the line after the error line and takes up to
      `min(line + 2, count)` lines, not `2`. */
  lemma NextBlockWindow(ls: seq<seq<char>>, line: nat)
    requires line < |ls|
    ensures var n := NumberedLines(ls, line, WindowEnd(line, |ls|), Width(ls, line));
      |n| == Min(WindowEnd(line, |ls|), |ls| - line) &&
      n[0] == PrintLine(ls[line], line + 1, Width(ls, line))
  {
  }

  /** A one-line input with the error at column 3: the line, then the caret under the
      third byte. */
  lemma OneLineFragment(code: seq<char>)
    requires code == "[1,]"
    ensures Fragment(code, 1, 3) == "1 | [1,]\n      ^"
  {
    var p: seq<char>, c: seq<char> := "1 | [1,]", "      ^";
    assert p + "\n" + c == "1 | [1,]\n      ^";
    OneLineSplit(code);
    OneLineBlocks(SplitLines(code));
    FragmentWithoutNext(code, 1, 3, p, c);
  }

  /** The fragment when the previous block is `p`, the cursor line is `c` and there is no next block. */
  lemma FragmentWithoutNext(code: seq<char>, line: nat, column: nat, p: seq<char>, c: seq<char>)
    requires var ls := SplitLines(code);
      PreviousBlock(ls, line) == p && p != [] && CursorLine(ls, line, column) == c && NextBlock(ls, line) == []
    ensures Fragment(code, line, column) == p + "\n" + c
  {
    FragmentLayout(code, line, column);
  }

  lemma OneLineSplit(code: seq<char>)
    requires code == "[1,]"
    ensures SplitLines(code) == [code]
  {
    assert code[1..] == "1,]" && code[1..][1..] == ",]" && code[1..][1..][1..] == "]";
    assert NoBreak(code);
    SplitLinesImplode([code]);
  }

  lemma OneLineBlocks(ls: seq<seq<char>>)
    requires ls == ["[1,]"]
    ensures PreviousBlock(ls, 1) == "1 | [1,]" && CursorLine(ls, 1, 3) == "      ^" && NextBlock(ls, 1) == []
  {
    var code := "[1,]";
    assert ls[0] == code;
    assert TabCount(code) == 0;
    ExpandTabsFacts(code);
    assert NatToString(1) == "1";
    assert Width(ls, 1) == 1;
    var line1 := PrintLine(code, 1, 1);
    assert line1 == "1 | [1,]";
    var prev := NumberedLines(ls, 0, 1, 1);
    assert |prev| == 1 && prev[0] == line1;
    assert prev == [line1];
    var before := Prefix(code, 2);
    assert before == "[1" && before[1..] == "1";
    assert TabCount(before) == 0;
    ExpandTabsFacts(before);
    assert TargetBeforeCursor(ls, 1, 3) == "1 | [1";
  }
}
