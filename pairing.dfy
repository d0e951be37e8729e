/**
  Step 01 of tutorials/03.py: pair every reference date t1 of the first array
  with the nearest strictly later date t2 of the second array, and format the
  pairs as `YYYYMMDD` strings.
*/
module Pairing {
  import opened Wrappers
  import opened Text
  import opened Calendar

  // ---------------------------------------------------------------------------
  // The pieces of one iteration of the pairing loop
  // ---------------------------------------------------------------------------

  /** `[d2 for d2 in dates2 if d2 != d1]`. */
  function Candidates(d1: DateTime, dates2: seq<DateTime>): (r: seq<DateTime>)
    ensures forall d :: d in r <==> d in dates2 && d != d1
    decreases |dates2|
  {
    if |dates2| == 0 then []
    else
      assert dates2 == [dates2[0]] + dates2[1..];
      (if dates2[0] != d1 then [dates2[0]] else []) + Candidates(d1, dates2[1..])
  }

  /** `[d2 for d2 in candidates if d2 > d1]`. */
  function After(d1: DateTime, candidates: seq<DateTime>): (r: seq<DateTime>)
    ensures forall d :: d in r <==> d in candidates && Before(d1, d)
    decreases |candidates|
  {
    if |candidates| == 0 then []
    else
      assert candidates == [candidates[0]] + candidates[1..];
      (if Before(d1, candidates[0]) then [candidates[0]] else []) + After(d1, candidates[1..])
  }

  /** The explicit exclusion of `d1` changes nothing: no date equal to `d1` is later than it. */
  lemma {:induction false} AfterIgnoresExclusion(d1: DateTime, dates2: seq<DateTime>)
    ensures After(d1, Candidates(d1, dates2)) == After(d1, dates2)
    decreases |dates2|
  {
    if |dates2| > 0 {
      AfterIgnoresExclusion(d1, dates2[1..]);
      var head := if dates2[0] != d1 then [dates2[0]] else [];
      var c := head + Candidates(d1, dates2[1..]);
      assert Candidates(d1, dates2) == c;
      AfterAppend(d1, head, Candidates(d1, dates2[1..]));
      AfterAppend(d1, [dates2[0]], dates2[1..]);
      assert dates2 == [dates2[0]] + dates2[1..];
      assert [dates2[0]][1..] == [];
      assert After(d1, head) == After(d1, [dates2[0]]);
    }
  }

  lemma {:induction false} AfterAppend(d1: DateTime, a: seq<DateTime>, b: seq<DateTime>)
    ensures After(d1, a + b) == After(d1, a) + After(d1, b)
    decreases |a|
  {
    if |a| > 0 {
      assert (a + b)[0] == a[0] && (a + b)[1..] == a[1..] + b;
      AfterAppend(d1, a[1..], b);
    } else {
      assert a + b == b;
    }
  }

  /** Left fold of `min(..., key=...)`: keeps the current best unless a later
      element has a strictly smaller key, so the first minimum wins. */
  function MinByGap(d1: DateTime, best: DateTime, rest: seq<DateTime>): (r: DateTime)
    ensures r == best || r in rest
    ensures DayGap(d1, r) <= DayGap(d1, best)
    ensures forall d | d in rest :: DayGap(d1, r) <= DayGap(d1, d)
    decreases |rest|
  {
    if |rest| == 0 then best
    else
      assert rest == [rest[0]] + rest[1..];
      MinByGap(d1, if DayGap(d1, rest[0]) < DayGap(d1, best) then rest[0] else best, rest[1..])
  }

  /** `min(after, key=lambda d2: (d2 - d1).days)`. */
  function Closest(d1: DateTime, after: seq<DateTime>): (r: DateTime)
    requires |after| > 0
    ensures r in after
    ensures forall d | d in after :: DayGap(d1, r) <= DayGap(d1, d)
  {
    assert after == [after[0]] + after[1..];
    MinByGap(d1, after[0], after[1..])
  }

  /** Some date of `dates2` is strictly later than `d1`. */
  predicate HasLater(d1: DateTime, dates2: seq<DateTime>)
  {
    exists d | d in dates2 :: Before(d1, d)
  }

  /** `t2` is the earliest date of `dates2` strictly later than `d1`. */
  predicate IsNextAfter(d1: DateTime, t2: DateTime, dates2: seq<DateTime>)
  {
    && t2 in dates2
    && Before(d1, t2)
    && forall d | d in dates2 && Before(d1, d) :: !Before(d, t2)
  }

  /** The body of the loop for one `d1`: the chosen `t2`, or `None` when the
      `if after:` test fails and `d1` is skipped. */
  function ClosestLater(d1: DateTime, dates2: seq<DateTime>): Option<DateTime>
  {
    var after := After(d1, Candidates(d1, dates2));
    if |after| == 0 then None else Some(Closest(d1, after))
  }

  /** One iteration skips `d1` exactly when no date of `dates2` is later than it,
      and otherwise picks the earliest later date. */
  lemma ClosestLaterIsNextAfter(d1: DateTime, dates2: seq<DateTime>)
    ensures ClosestLater(d1, dates2).None? <==> !HasLater(d1, dates2)
    ensures ClosestLater(d1, dates2).Some? ==> IsNextAfter(d1, ClosestLater(d1, dates2).value, dates2)
  {
    var after := After(d1, Candidates(d1, dates2));
    if |after| > 0 {
      var t2 := Closest(d1, after);
      assert after[0] in after;
      forall d | d in dates2 && Before(d1, d)
        ensures !Before(d, t2)
      {
        assert d in after;
        OrdinalOrder(d, t2);
      }
    }
  }

  /** The earliest later date is unique. */
  lemma NextAfterUnique(d1: DateTime, t: DateTime, u: DateTime, dates2: seq<DateTime>)
    requires IsNextAfter(d1, t, dates2) && IsNextAfter(d1, u, dates2)
    ensures t == u
  {
  }

  // ---------------------------------------------------------------------------
  // The whole loop, as a specification
  // ---------------------------------------------------------------------------

  /** The pairs the loop has appended after reading `dates1`, in the order of `dates1`. */
  function Pairs(dates1: seq<DateTime>, dates2: seq<DateTime>): (r: seq<(DateTime, DateTime)>)
    ensures |r| <= |dates1|
    decreases |dates1|
  {
    if |dates1| == 0 then []
    else
      var d1 := dates1[|dates1| - 1];
      var init := Pairs(dates1[..|dates1| - 1], dates2);
      match ClosestLater(d1, dates2)
      case None => init
      case Some(t2) => init + [(d1, t2)]
  }

  /** The reference dates that get a pair: `dates1` filtered, order kept. */
  function Paired(dates1: seq<DateTime>, dates2: seq<DateTime>): (r: seq<DateTime>)
    ensures forall d :: d in r <==> d in dates1 && HasLater(d, dates2)
    decreases |dates1|
  {
    if |dates1| == 0 then []
    else
      var d1 := dates1[|dates1| - 1];
      assert dates1 == dates1[..|dates1| - 1] + [d1];
      Paired(dates1[..|dates1| - 1], dates2) + (if HasLater(d1, dates2) then [d1] else [])
  }

  function Firsts(ps: seq<(DateTime, DateTime)>): (r: seq<DateTime>)
    ensures |r| == |ps| && forall k | 0 <= k < |r| :: r[k] == ps[k].0
  {
    seq(|ps|, k requires 0 <= k < |ps| => ps[k].0)
  }

  /** Every pair is (t1, t2) with t2 the earliest date of `dates2` strictly later than t1. */
  lemma {:induction false} PairsAreNextAfter(dates1: seq<DateTime>, dates2: seq<DateTime>)
    ensures forall k | 0 <= k < |Pairs(dates1, dates2)| ::
              var (t1, t2) := Pairs(dates1, dates2)[k];
              t1 in dates1 && IsNextAfter(t1, t2, dates2)
    decreases |dates1|
  {
    if |dates1| > 0 {
      var d1 := dates1[|dates1| - 1];
      var init := dates1[..|dates1| - 1];
      PairsAreNextAfter(init, dates2);
      ClosestLaterIsNextAfter(d1, dates2);
      assert forall d | d in init :: d in dates1;
    }
  }

  /** The t1 column is exactly the reference dates that have a later date, in
      their original order; so there are as many pairs as such dates. */
  lemma {:induction false} PairsFirsts(dates1: seq<DateTime>, dates2: seq<DateTime>)
    ensures Firsts(Pairs(dates1, dates2)) == Paired(dates1, dates2)
    ensures |Pairs(dates1, dates2)| == |Paired(dates1, dates2)|
    decreases |dates1|
  {
    if |dates1| > 0 {
      var d1 := dates1[|dates1| - 1];
      var init := dates1[..|dates1| - 1];
      PairsFirsts(init, dates2);
      ClosestLaterIsNextAfter(d1, dates2);
      var ps := Pairs(init, dates2);
      match ClosestLater(d1, dates2)
      case None =>
        assert Pairs(dates1, dates2) == ps;
        assert Paired(dates1, dates2) == Paired(init, dates2) + [];
      case Some(t2) =>
        assert Pairs(dates1, dates2) == ps + [(d1, t2)];
        assert Paired(dates1, dates2) == Paired(init, dates2) + [d1];
        FirstsSnoc(ps, (d1, t2));
    }
  }

  lemma FirstsSnoc(ps: seq<(DateTime, DateTime)>, p: (DateTime, DateTime))
    ensures Firsts(ps + [p]) == Firsts(ps) + [p.0]
  {
    assert forall k | 0 <= k < |ps| :: (ps + [p])[k] == ps[k];
  }

  /** A reference date with no later date in `dates2` never appears in the output. */
  lemma DroppedDatesAbsent(dates1: seq<DateTime>, dates2: seq<DateTime>, d1: DateTime)
    requires !HasLater(d1, dates2)
    ensures forall k | 0 <= k < |Pairs(dates1, dates2)| :: Pairs(dates1, dates2)[k].0 != d1
  {
    PairsAreNextAfter(dates1, dates2);
  }

  /** Only the set of dates in `dates2` matters, not their order or repetition. */
  lemma {:induction false} PairsDependOnlyOnSecondSet(dates1: seq<DateTime>, a: seq<DateTime>, b: seq<DateTime>)
    requires forall d :: d in a <==> d in b
    ensures Pairs(dates1, a) == Pairs(dates1, b)
    decreases |dates1|
  {
    if |dates1| > 0 {
      var d1 := dates1[|dates1| - 1];
      PairsDependOnlyOnSecondSet(dates1[..|dates1| - 1], a, b);
      ClosestLaterIsNextAfter(d1, a);
      ClosestLaterIsNextAfter(d1, b);
      assert HasLater(d1, a) <==> HasLater(d1, b);
      if ClosestLater(d1, a).Some? {
        NextAfterUnique(d1, ClosestLater(d1, a).value, ClosestLater(d1, b).value, a);
      }
    }
  }

  // ---------------------------------------------------------------------------
  // The loop as written, and the string pipeline around it
  // ---------------------------------------------------------------------------

  /** `(d1.strftime(...), closest_date.strftime(...))` for each pair. */
  function FormatPairs(ps: seq<(DateTime, DateTime)>): seq<(string, string)>
  {
    seq(|ps|, k requires 0 <= k < |ps| => (Format(ps[k].0), Format(ps[k].1)))
  }

  lemma FormatPairsAppend(ps: seq<(DateTime, DateTime)>, p: (DateTime, DateTime))
    ensures FormatPairs(ps + [p]) == FormatPairs(ps) + [(Format(p.0), Format(p.1))]
  {
  }

  /** The pairing loop: for each `d1`, filter, take the closest later date, and
      append the formatted pair; `d1` is skipped when nothing is later. */
  method PairDates(dates1: seq<DateTime>, dates2: seq<DateTime>) returns (resultDates: seq<(string, string)>)
    ensures resultDates == FormatPairs(Pairs(dates1, dates2))
  {
    resultDates := [];
    for i := 0 to |dates1|
      invariant resultDates == FormatPairs(Pairs(dates1[..i], dates2))
    {
      var d1 := dates1[i];
      var candidates := Candidates(d1, dates2);
      var after := After(d1, candidates);
      assert dates1[..i + 1][..i] == dates1[..i] && dates1[..i + 1][i] == d1;
      if |after| > 0 {
        var closestDate := Closest(d1, after);
        ghost var done := Pairs(dates1[..i], dates2);
        assert Pairs(dates1[..i + 1], dates2) == done + [(d1, closestDate)];
        FormatPairsAppend(done, (d1, closestDate));
        resultDates := resultDates + [(Format(d1), Format(closestDate))];
      }
    }
    assert dates1[..|dates1|] == dates1;
  }

  /** A list comprehension `[f(x) for x in xs]` whose `f` may raise: `None` as soon
      as one element fails, otherwise every result in order. */
  function AllOrNone<A, B>(f: A -> Option<B>, xs: seq<A>): (r: Option<seq<B>>)
    ensures r.Some? <==> forall k | 0 <= k < |xs| :: f(xs[k]).Some?
    ensures r.Some? ==> |r.value| == |xs| && forall k | 0 <= k < |xs| :: f(xs[k]) == Some(r.value[k])
    decreases |xs|
  {
    if |xs| == 0 then Some([])
    else
      var first, rest := f(xs[0]), AllOrNone(f, xs[1..]);
      if first.None? then None
      else if rest.None? then
        assert forall k | 0 <= k < |xs[1..]| :: xs[1..][k] == xs[k + 1];
        None
      else
        var r := [first.value] + rest.value;
        assert forall k | 1 <= k < |xs| :: xs[k] == xs[1..][k - 1] && r[k] == rest.value[k - 1];
        Some(r)
  }

  /** `[datetime.strptime(date, "%Y-%m-%d") for date in arr]`: `None` when any element raises. */
  function ParseAll(arr: seq<string>): (r: Option<seq<DateTime>>)
    ensures r.Some? <==> forall k | 0 <= k < |arr| :: Parse(arr[k]).Some?
    ensures r.Some? ==> |r.value| == |arr| && forall k | 0 <= k < |arr| :: Parse(arr[k]) == Some(r.value[k])
  {
    AllOrNone(Parse, arr)
  }

  /** `start.replace('-', '')`. */
  function Compact(s: string): string
  {
    Remove(s, '-')
  }

  /** Line 69: both dates of every pair with their hyphens removed. */
  function CompactPairs(rs: seq<(string, string)>): (r: seq<(string, string)>)
    ensures |r| == |rs|
    ensures forall k | 0 <= k < |rs| :: r[k] == (Compact(rs[k].0), Compact(rs[k].1))
  {
    seq(|rs|, k requires 0 <= k < |rs| => (Compact(rs[k].0), Compact(rs[k].1)))
  }

  /** Removing the hyphens from a formatted date leaves its eight digits, in order. */
  lemma CompactFormat(d: DateTime)
    ensures var s := Format(d);
            && Compact(s) == s[..4] + s[5..7] + s[8..]
            && |Compact(s)| == 8 && AllDigits(Compact(s))
  {
    FormatFields(d);
    var s := Format(d);
    var y, m, dd := s[..4], s[5..7], s[8..];
    assert s == y + "-" + m + "-" + dd;
    RemoveSeparators(y, m, dd);
  }

  /** The compacted string is the three zero-padded fields run together. */
  lemma CompactFields(d: DateTime)
    ensures Compact(Format(d)) == ZeroPad(d.year, 4) + (ZeroPad(d.month, 2) + ZeroPad(d.day, 2))
  {
    CompactFormat(d);
    FormatFields(d);
  }

  /** The compacted `YYYYMMDD` strings still sort chronologically. */
  lemma CompactOrder(a: DateTime, b: DateTime)
    ensures LexLess(Compact(Format(a)), Compact(Format(b))) <==> Before(a, b)
  {
    CompactFields(a);
    CompactFields(b);
    assert Pow10(4) == 10000 && Pow10(2) == 100;
    var ma, da := ZeroPad(a.month, 2), ZeroPad(a.day, 2);
    var mb, db := ZeroPad(b.month, 2), ZeroPad(b.day, 2);
    PaddedFieldOrder(a.year, b.year, 4, ma + da, mb + db);
    PaddedFieldOrder(a.month, b.month, 2, da, db);
    PaddedFieldOrder(a.day, b.day, 2, [], []);
    assert da + [] == da && db + [] == db;
  }

  /** On printed pairs, each hyphen-free component is its date's padded year,
      month and day run together, and the two components compare as their dates do. */
  lemma CompactPairsOfFormatted(ps: seq<(DateTime, DateTime)>)
    ensures var r := CompactPairs(FormatPairs(ps));
            && |r| == |ps|
            && forall k | 0 <= k < |r| ::
                 && r[k].0 == ZeroPad(ps[k].0.year, 4) + (ZeroPad(ps[k].0.month, 2) + ZeroPad(ps[k].0.day, 2))
                 && r[k].1 == ZeroPad(ps[k].1.year, 4) + (ZeroPad(ps[k].1.month, 2) + ZeroPad(ps[k].1.day, 2))
                 && (LexLess(r[k].0, r[k].1) <==> Before(ps[k].0, ps[k].1))
  {
    var r := CompactPairs(FormatPairs(ps));
    forall k | 0 <= k < |r|
      ensures && r[k].0 == ZeroPad(ps[k].0.year, 4) + (ZeroPad(ps[k].0.month, 2) + ZeroPad(ps[k].0.day, 2))
              && r[k].1 == ZeroPad(ps[k].1.year, 4) + (ZeroPad(ps[k].1.month, 2) + ZeroPad(ps[k].1.day, 2))
              && (LexLess(r[k].0, r[k].1) <==> Before(ps[k].0, ps[k].1))
    {
      assert r[k] == (Compact(Format(ps[k].0)), Compact(Format(ps[k].1)));
      CompactFields(ps[k].0);
      CompactFields(ps[k].1);
      CompactOrder(ps[k].0, ps[k].1);
    }
  }

  lemma RemoveSeparators(y: string, m: string, dd: string)
    requires AllDigits(y) && AllDigits(m) && AllDigits(dd)
    ensures Remove(y + "-" + m + "-" + dd, '-') == y + m + dd
    ensures AllDigits(y + m + dd)
  {
    NoHyphen(y);
    NoHyphen(m);
    NoHyphen(dd);
    var a := y + "-";
    var b := a + m;
    var c := b + "-";
    RemoveAppend(y, "-", '-');
    assert Remove(a, '-') == y;
    RemoveAppend(a, m, '-');
    assert Remove(b, '-') == y + m;
    RemoveAppend(b, "-", '-');
    assert Remove(c, '-') == y + m;
    RemoveAppend(c, dd, '-');
    AllDigitsAppend(y, m);
    AllDigitsAppend(y + m, dd);
  }

  lemma NoHyphen(s: string)
    requires AllDigits(s)
    ensures '-' !in s
  {
  }

  lemma AllDigitsAppend(a: string, b: string)
    requires AllDigits(a) && AllDigits(b)
    ensures AllDigits(a + b)
  {
  }

  /** `dates` of lines 48-69, or `None` where `strptime` raises on either array. */
  function PairedDates(arr1: seq<string>, arr2: seq<string>): (r: Option<seq<(string, string)>>)
    ensures r.None? <==> ParseAll(arr1).None? || ParseAll(arr2).None?
  {
    match (ParseAll(arr1), ParseAll(arr2))
    case (Some(dates1), Some(dates2)) => Some(CompactPairs(FormatPairs(Pairs(dates1, dates2))))
    case _ => None
  }

  /** In every output pair the hyphen-free t1 string sorts strictly before the t2 string. */
  lemma PairedDatesOrdered(arr1: seq<string>, arr2: seq<string>)
    requires PairedDates(arr1, arr2).Some?
    ensures var out := PairedDates(arr1, arr2).value;
            forall k | 0 <= k < |out| :: LexLess(out[k].0, out[k].1)
  {
    var dates1, dates2 := ParseAll(arr1).value, ParseAll(arr2).value;
    var ps := Pairs(dates1, dates2);
    PairsAreNextAfter(dates1, dates2);
    CompactPairsOfFormatted(ps);
  }

  /** With canonical `YYYY-MM-DD` inputs every output date is an input date of
      its own array with the hyphens removed: eight digits. */
  lemma PairedDatesFromInputs(arr1: seq<string>, arr2: seq<string>)
    requires forall k | 0 <= k < |arr1| :: Canonical(arr1[k]) && Parse(arr1[k]).Some?
    requires forall k | 0 <= k < |arr2| :: Canonical(arr2[k]) && Parse(arr2[k]).Some?
    ensures PairedDates(arr1, arr2).Some?
    ensures var out := PairedDates(arr1, arr2).value;
            forall k | 0 <= k < |out| ::
              && (exists i | 0 <= i < |arr1| :: out[k].0 == Compact(arr1[i]))
              && (exists i | 0 <= i < |arr2| :: out[k].1 == Compact(arr2[i]))
              && |out[k].0| == 8 && AllDigits(out[k].0)
              && |out[k].1| == 8 && AllDigits(out[k].1)
  {
    var dates1, dates2 := ParseAll(arr1).value, ParseAll(arr2).value;
    var ps := Pairs(dates1, dates2);
    var out := PairedDates(arr1, arr2).value;
    PairsAreNextAfter(dates1, dates2);
    forall k | 0 <= k < |out|
      ensures && (exists i | 0 <= i < |arr1| :: out[k].0 == Compact(arr1[i]))
              && (exists i | 0 <= i < |arr2| :: out[k].1 == Compact(arr2[i]))
              && |out[k].0| == 8 && AllDigits(out[k].0)
              && |out[k].1| == 8 && AllDigits(out[k].1)
    {
      var (t1, t2) := ps[k];
      var i :| 0 <= i < |dates1| && dates1[i] == t1;
      var j :| 0 <= j < |dates2| && dates2[j] == t2;
      FormatParse(arr1[i]);
      FormatParse(arr2[j]);
      CompactFormat(t1);
      CompactFormat(t2);
      assert out[k] == (Compact(Format(t1)), Compact(Format(t2)));
    }
  }
}
