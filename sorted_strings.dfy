/**
  numpy's set routines on string arrays, by their documented results:
  `np.unique(a)` is the ascending array of the distinct values of `a`, and
  `np.intersect1d(a, b)` the ascending array of the distinct values found in
  both `a` and `b`. Ascending is Python's string order (`Text.LexLess`).
*/
module SortedStrings {
  import opened Text

  /** Ascending with no repeated value. */
  predicate StrictlySorted(s: seq<string>)
  {
    forall i, j | 0 <= i < j < |s| :: LexLess(s[i], s[j])
  }

  /** A strictly sorted array holds each value once. */
  lemma StrictlySortedDistinct(s: seq<string>, i: int, j: int)
    requires StrictlySorted(s)
    requires 0 <= i < |s| && 0 <= j < |s| && i != j
    ensures s[i] != s[j]
  {
    if i < j {
      LexLessIrreflexive(s[i]);
    } else {
      LexLessIrreflexive(s[j]);
    }
  }

  lemma PrependSorted(x: string, s: seq<string>)
    requires StrictlySorted(s)
    requires forall y | y in s :: LexLess(x, y)
    ensures StrictlySorted([x] + s)
  {
    var r := [x] + s;
    forall i, j | 0 <= i < j < |r|
      ensures LexLess(r[i], r[j])
    {
      assert r[j] == s[j - 1];
      if i > 0 {
        assert r[i] == s[i - 1];
      }
    }
  }

  lemma HeadIsLeast(x: string, s: seq<string>)
    requires StrictlySorted(s) && |s| > 0 && LexLess(x, s[0])
    ensures forall y | y in s :: LexLess(x, y)
  {
    forall y | y in s
      ensures LexLess(x, y)
    {
      var j :| 0 <= j < |s| && s[j] == y;
      if j > 0 {
        LexLessTransitive(x, s[0], s[j]);
      }
    }
  }

  /** Inserts `x` into its place in a strictly sorted array, unless it is already there. */
  function Insert(x: string, s: seq<string>): (r: seq<string>)
    requires StrictlySorted(s)
    ensures StrictlySorted(r)
    ensures forall y :: y in r <==> y == x || y in s
    decreases |s|
  {
    if |s| == 0 then [x]
    else if x == s[0] then s
    else if LexLess(x, s[0]) then
      HeadIsLeast(x, s);
      PrependSorted(x, s);
      [x] + s
    else
      LexLessTotal(x, s[0]);
      assert StrictlySorted(s[1..]);
      var t := Insert(x, s[1..]);
      assert forall y | y in s[1..] :: LexLess(s[0], y) by {
        forall y | y in s[1..]
          ensures LexLess(s[0], y)
        {
          var j :| 0 <= j < |s[1..]| && s[1..][j] == y;
          assert s[j + 1] == y;
        }
      }
      PrependSorted(s[0], t);
      assert s == [s[0]] + s[1..];
      [s[0]] + t
  }

  /** `np.unique(s)`: the distinct values of `s`, ascending. */
  function SortedUnique(s: seq<string>): (r: seq<string>)
    ensures StrictlySorted(r)
    ensures forall y :: y in r <==> y in s
    decreases |s|
  {
    if |s| == 0 then []
    else
      assert s == [s[0]] + s[1..];
      Insert(s[0], SortedUnique(s[1..]))
  }

  /** The values of `a`, in order, that also occur in `b`. */
  function KeepCommon(a: seq<string>, b: seq<string>): (r: seq<string>)
    ensures forall y :: y in r <==> y in a && y in b
    decreases |a|
  {
    if |a| == 0 then []
    else
      assert a == [a[0]] + a[1..];
      (if a[0] in b then [a[0]] else []) + KeepCommon(a[1..], b)
  }

  /** `np.intersect1d(a, b)`: the distinct values present in both, ascending. */
  function Intersect1d(a: seq<string>, b: seq<string>): (r: seq<string>)
    ensures StrictlySorted(r)
    ensures forall y :: y in r <==> y in a && y in b
  {
    SortedUnique(KeepCommon(a, b))
  }

  /** A strictly sorted array is determined by its set of values; so every
      construction meeting `Intersect1d`'s contract returns the same array. */
  lemma {:induction false} SortedUniqueness(a: seq<string>, b: seq<string>)
    requires StrictlySorted(a) && StrictlySorted(b)
    requires forall y :: y in a <==> y in b
    ensures a == b
    decreases |a|
  {
    if |b| > 0 {
      assert b[0] in b;
    }
    if |a| > 0 {
      assert a[0] in b;
      assert |b| > 0;
      assert a[0] == b[0] by {
        var k :| 0 <= k < |b| && b[k] == a[0];
        assert b[0] in b;
        var m :| 0 <= m < |a| && a[m] == b[0];
        if k > 0 {
          // b[0] < a[0], and b[0] sits later in a, so a[0] < b[0] too
          assert LexLess(b[0], a[0]);
          if m == 0 {
            LexLessIrreflexive(a[0]);
          } else {
            assert LexLess(a[0], b[0]);
            LexLessAsymmetric(a[0], b[0]);
          }
        }
      }
      forall y
        ensures y in a[1..] <==> y in b[1..]
      {
        if y in a[1..] {
          var i :| 0 <= i < |a[1..]| && a[1..][i] == y;
          StrictlySortedDistinct(a, 0, i + 1);
          assert y in b && y != b[0];
          assert b == [b[0]] + b[1..];
        }
        if y in b[1..] {
          var i :| 0 <= i < |b[1..]| && b[1..][i] == y;
          StrictlySortedDistinct(b, 0, i + 1);
          assert y in a && y != a[0];
          assert a == [a[0]] + a[1..];
        }
      }
      SortedUniqueness(a[1..], b[1..]);
      assert a == [a[0]] + a[1..] && b == [b[0]] + b[1..];
    }
  }

  /** Intersecting is symmetric in its arguments. */
  lemma Intersect1dCommutes(a: seq<string>, b: seq<string>)
    ensures Intersect1d(a, b) == Intersect1d(b, a)
  {
    SortedUniqueness(Intersect1d(a, b), Intersect1d(b, a));
  }

  /** Intersecting three arrays gives the same result however it is bracketed. */
  lemma Intersect1dAssociates(a: seq<string>, b: seq<string>, c: seq<string>)
    ensures Intersect1d(Intersect1d(a, b), c) == Intersect1d(a, Intersect1d(b, c))
  {
    SortedUniqueness(Intersect1d(Intersect1d(a, b), c), Intersect1d(a, Intersect1d(b, c)));
  }

  /** Intersecting again with one of the inputs changes nothing. */
  lemma Intersect1dIdempotent(a: seq<string>, b: seq<string>)
    ensures Intersect1d(Intersect1d(a, b), b) == Intersect1d(a, b)
    ensures Intersect1d(Intersect1d(a, b), a) == Intersect1d(a, b)
  {
    SortedUniqueness(Intersect1d(Intersect1d(a, b), b), Intersect1d(a, b));
    SortedUniqueness(Intersect1d(Intersect1d(a, b), a), Intersect1d(a, b));
  }

  /** An array that is already strictly sorted is its own intersection with itself. */
  lemma Intersect1dOfSorted(s: seq<string>)
    requires StrictlySorted(s)
    ensures Intersect1d(s, s) == s
  {
    SortedUniqueness(Intersect1d(s, s), s);
  }

  /** Intersecting with an empty array yields an empty array. */
  lemma Intersect1dEmpty(a: seq<string>, b: seq<string>)
    requires a == [] || b == []
    ensures Intersect1d(a, b) == []
  {
    SortedUniqueness(Intersect1d(a, b), []);
  }
}
