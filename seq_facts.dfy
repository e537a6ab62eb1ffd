/** Small facts about sequence slices that the solver does not find unaided. */
module SeqFacts {

  lemma SliceOfSlice<T>(s: seq<T>, a: nat, b: nat, c: nat, d: nat)
    requires a <= b <= |s| && c <= d <= b - a
    ensures s[a..b][c..d] == s[a + c..a + d]
  {
    var x, y := s[a..b][c..d], s[a + c..a + d];
    assert |x| == |y|;
    forall k | 0 <= k < |x| ensures x[k] == y[k] {
      assert x[k] == s[a..b][c + k];
    }
  }

  lemma SplitAt<T>(s: seq<T>, a: nat, m: nat, b: nat)
    requires a <= m <= b <= |s|
    ensures s[a..b] == s[a..m] + s[m..b]
  {
  }

  /** Dropping a prefix of the left operand of a concatenation. */
  lemma DropConcat<T>(a: seq<T>, b: seq<T>, n: nat)
    requires n <= |a|
    ensures (a + b)[n..] == a[n..] + b
  {
    var x, y := (a + b)[n..], a[n..] + b;
    assert |x| == |y|;
    forall k | 0 <= k < |x| ensures x[k] == y[k] {
      if k < |a| - n {
        assert x[k] == a[n + k];
      } else {
        assert x[k] == b[k - (|a| - n)];
      }
    }
  }

  /** A slice that lies within the left operand of a concatenation. */
  lemma SliceConcatLeft<T>(a: seq<T>, b: seq<T>, i: nat, j: nat)
    requires i <= j <= |a|
    ensures (a + b)[i..j] == a[i..j]
  {
    var x, y := (a + b)[i..j], a[i..j];
    assert |x| == |y|;
    forall k | 0 <= k < |x| ensures x[k] == y[k] {
      assert x[k] == (a + b)[i + k];
    }
  }

  /** The four parts of a concatenation can be sliced back out of it. */
  lemma ConcatParts<T>(a: seq<T>, b: seq<T>, c: seq<T>, d: seq<T>)
    ensures var m := a + b + c + d;
      m[..|a|] == a && m[|a|..|a| + |b|] == b &&
      m[|a| + |b|..|a| + |b| + |c|] == c && m[|a| + |b| + |c|..] == d
  {
    var m := a + b + c + d;
    assert m[..|a|] == a by {
      forall k | 0 <= k < |a| ensures m[..|a|][k] == a[k] { assert m[k] == a[k]; }
    }
    assert m[|a|..|a| + |b|] == b by {
      forall k | 0 <= k < |b| ensures m[|a|..|a| + |b|][k] == b[k] { assert m[|a| + k] == b[k]; }
    }
    assert m[|a| + |b|..|a| + |b| + |c|] == c by {
      forall k | 0 <= k < |c| ensures m[|a| + |b|..|a| + |b| + |c|][k] == c[k] { assert m[|a| + |b| + k] == c[k]; }
    }
    assert m[|a| + |b| + |c|..] == d by {
      forall k | 0 <= k < |d| ensures m[|a| + |b| + |c|..][k] == d[k] { assert m[|a| + |b| + |c| + k] == d[k]; }
    }
  }
}
