/**
  Step 03 of tutorials/01.py: cut each satellite's acquisition timestamps down
  to their date part and keep the dates all three satellites share.
*/
module CommonDates {
  import opened Text
  import opened SortedStrings

  /** MODIS timestamps separate date and time with a space ... */
  const ModisSeparator: char := ' '
  /** ... Landsat 8 and Sentinel-2 timestamps with an ISO 'T'. */
  const LandsatSeparator: char := 'T'
  const SentinelSeparator: char := 'T'

  /** `np.array([date.split(sep)[0] for date in times])`. */
  function DatePrefixes(times: seq<string>, sep: char): (r: seq<string>)
    ensures |r| == |times|
    ensures forall k | 0 <= k < |r| :: r[k] <= times[k] && sep !in r[k]
    ensures forall k | 0 <= k < |r| :: |r[k]| < |times[k]| ==> times[k][|r[k]|] == sep
    ensures forall k | 0 <= k < |r| :: sep !in times[k] ==> r[k] == times[k]
  {
    seq(|times|, k requires 0 <= k < |times| => BeforeFirst(times[k], sep))
  }

  /** A date is among the normalised dates exactly when some timestamp starts with it, up to the first separator. */
  lemma DatePrefixesMembers(times: seq<string>, sep: char, d: string)
    ensures d in DatePrefixes(times, sep) <==> exists t | t in times :: BeforeFirst(t, sep) == d
  {
    var r := DatePrefixes(times, sep);
    if d in r {
      var k :| 0 <= k < |r| && r[k] == d;
      assert times[k] in times;
    }
    if exists t | t in times :: BeforeFirst(t, sep) == d {
      var t :| t in times && BeforeFirst(t, sep) == d;
      var k :| 0 <= k < |times| && times[k] == t;
      assert r[k] == d;
    }
  }

  /** The first intersection: Sentinel-2 dates with Landsat 8 dates. */
  function SentinelLandsatDates(landsatTimes: seq<string>, sentinelTimes: seq<string>): (r: seq<string>)
    ensures StrictlySorted(r)
    ensures forall d :: d in r <==>
              d in DatePrefixes(landsatTimes, LandsatSeparator) && d in DatePrefixes(sentinelTimes, SentinelSeparator)
  {
    Intersect1d(DatePrefixes(sentinelTimes, SentinelSeparator), DatePrefixes(landsatTimes, LandsatSeparator))
  }

  /** `common_dates`: the first intersection intersected with the MODIS dates. */
  /** A date is common exactly when all three normalised lists contain it; the
      result lies within the first intersection and is in ascending order. */
  function CommonDates(modisTimes: seq<string>, landsatTimes: seq<string>, sentinelTimes: seq<string>): (r: seq<string>)
    ensures StrictlySorted(r)
    ensures forall d :: d in r <==>
              && d in DatePrefixes(modisTimes, ModisSeparator)
              && d in DatePrefixes(landsatTimes, LandsatSeparator)
              && d in DatePrefixes(sentinelTimes, SentinelSeparator)
    ensures forall d | d in r :: d in SentinelLandsatDates(landsatTimes, sentinelTimes)
  {
    Intersect1d(SentinelLandsatDates(landsatTimes, sentinelTimes), DatePrefixes(modisTimes, ModisSeparator))
  }

  /** The common dates are ascending and hold no duplicate, whatever duplicates the inputs hold. */
  lemma CommonDatesSortedDistinct(modisTimes: seq<string>, landsatTimes: seq<string>, sentinelTimes: seq<string>)
    ensures var r := CommonDates(modisTimes, landsatTimes, sentinelTimes);
            forall i, j | 0 <= i < j < |r| :: LexLess(r[i], r[j]) && r[i] != r[j]
  {
    var r := CommonDates(modisTimes, landsatTimes, sentinelTimes);
    forall i, j | 0 <= i < j < |r|
      ensures LexLess(r[i], r[j]) && r[i] != r[j]
    {
      StrictlySortedDistinct(r, i, j);
    }
  }

  /** If any satellite contributes no timestamp, no date is common. */
  lemma CommonDatesOfEmpty(modisTimes: seq<string>, landsatTimes: seq<string>, sentinelTimes: seq<string>)
    requires modisTimes == [] || landsatTimes == [] || sentinelTimes == []
    ensures CommonDates(modisTimes, landsatTimes, sentinelTimes) == []
  {
    var s := DatePrefixes(sentinelTimes, SentinelSeparator);
    var l := DatePrefixes(landsatTimes, LandsatSeparator);
    var m := DatePrefixes(modisTimes, ModisSeparator);
    if modisTimes == [] {
      Intersect1dEmpty(Intersect1d(s, l), m);
    } else {
      Intersect1dEmpty(s, l);
      Intersect1dEmpty(Intersect1d(s, l), m);
    }
  }

  /** Intersecting three arrays pairwise gives one result for every order of the three. */
  lemma ThreeWayOrderIndependent(a: seq<string>, b: seq<string>, c: seq<string>,
                                 x: seq<string>, y: seq<string>, z: seq<string>)
    requires multiset{a, b, c} == multiset{x, y, z}
    ensures Intersect1d(Intersect1d(a, b), c) == Intersect1d(Intersect1d(x, y), z)
  {
    var lists := multiset{a, b, c};
    assert x in lists && y in lists && z in lists;
    assert a in multiset{x, y, z} && b in multiset{x, y, z} && c in multiset{x, y, z};
    SortedUniqueness(Intersect1d(Intersect1d(a, b), c), Intersect1d(Intersect1d(x, y), z));
  }

  /** `common_dates` does not depend on which two satellites are intersected first. */
  lemma CommonDatesOrderIndependent(modisTimes: seq<string>, landsatTimes: seq<string>, sentinelTimes: seq<string>,
                                    x: seq<string>, y: seq<string>, z: seq<string>)
    requires multiset{x, y, z} == multiset{DatePrefixes(modisTimes, ModisSeparator),
                                           DatePrefixes(landsatTimes, LandsatSeparator),
                                           DatePrefixes(sentinelTimes, SentinelSeparator)}
    ensures CommonDates(modisTimes, landsatTimes, sentinelTimes) == Intersect1d(Intersect1d(x, y), z)
  {
    var m := DatePrefixes(modisTimes, ModisSeparator);
    var l := DatePrefixes(landsatTimes, LandsatSeparator);
    var s := DatePrefixes(sentinelTimes, SentinelSeparator);
    assert multiset{s, l, m} == multiset{m, l, s};
    ThreeWayOrderIndependent(s, l, m, x, y, z);
  }
}
