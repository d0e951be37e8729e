/**
  Step 02 of tutorials/03.py: split the date pairs into a train and a test
  group and lay each pair out in its own folder, copying the rasters and masks
  of t1 (all three sensors) and of t2 (MODIS and Landsat 8 only) under names
  that encode the position (00 = t1, 01 = t2), the sensor and the date.

  Nothing is copied here: the model computes the list of directory creations
  and copies the script performs, in the order it performs them.
*/
module Assembly {
  import opened Wrappers
  import opened Text

  const MainFolder: string := "data/Tdivision"
  const TripleFolder: string := "data/Triple/MODIS_Landsat8_Sentinel2"
  const TrainFolder: string := "train"
  const TestFolder: string := "test"
  /** The first `SplitIndex` pairs train, the rest test. */
  const SplitIndex: nat := 7

  datatype Sensor = Modis | Landsat | Sentinel
  datatype Kind = Image | Mask

  /** One file of the triple folder: which sensor, raster or mask, which date. */
  datatype FileRef = FileRef(sensor: Sensor, kind: Kind, date: string)

  /** One effect of the script on the file system. */
  datatype Step = MakeDir(path: string) | Copy(src: string, dst: string)

  // ---------------------------------------------------------------------------
  // Splitting
  // ---------------------------------------------------------------------------

  /** `(xs[:k], xs[k:])`: an order-keeping partition with at most `k` elements in front. */
  function SplitAt<T>(xs: seq<T>, k: nat): (r: (seq<T>, seq<T>))
    ensures r.0 + r.1 == xs
    ensures |r.0| == if k < |xs| then k else |xs|
  {
    if k <= |xs| then (xs[..k], xs[k..]) else (xs, [])
  }

  // ---------------------------------------------------------------------------
  // Paths
  // ---------------------------------------------------------------------------

  /** `os.path.join(a, b)` (POSIX): `b` alone when it is absolute, otherwise
      `a` and `b` with one '/' between them. */
  function Join(a: string, b: string): string
  {
    if |b| > 0 && b[0] == '/' then b
    else if |a| == 0 || a[|a| - 1] == '/' then a + b
    else a + "/" + b
  }

  function SourceTag(s: Sensor): string
  {
    match s
    case Modis => "M"
    case Landsat => "L"
    case Sentinel => "S"
  }

  function DestTag(s: Sensor): string
  {
    match s
    case Modis => "MODIS"
    case Landsat => "Landsat"
    case Sentinel => "Sentinel"
  }

  function Extension(k: Kind): string
  {
    match k
    case Image => ".tif"
    case Mask => ".npy"
  }

  /** What follows the sensor tag in both naming schemes: `[mask_]{date}.tif|.npy`. */
  function Body(f: FileRef): string
  {
    (if f.kind == Mask then "mask_" else "") + f.date + Extension(f.kind)
  }

  /** `data/Triple/MODIS_Landsat8_Sentinel2/{M|L|S}_[mask_]{date}.{tif|npy}`. */
  function SourcePath(f: FileRef): string
  {
    TripleFolder + "/" + SourceTag(f.sensor) + "_" + Body(f)
  }

  /** `{j:02d}_{MODIS|Landsat|Sentinel}_[mask_]{date}.{tif|npy}`. */
  function DestName(j: nat, f: FileRef): string
  {
    ZeroPad(j, 2) + "_" + DestTag(f.sensor) + "_" + Body(f)
  }

  function DestPath(pairFolder: string, j: nat, f: FileRef): string
  {
    Join(pairFolder, DestName(j, f))
  }

  /** `os.path.join(main_folder, folder, f'pair_{i}')`. */
  function PairFolder(folder: string, i: nat): string
  {
    Join(Join(MainFolder, folder), "pair_" + NatToString(i))
  }

  // ---------------------------------------------------------------------------
  // Reading the naming convention back
  // ---------------------------------------------------------------------------

  function DecodeBody(b: string): Option<(Kind, string)>
  {
    if |b| >= 4 && b[|b| - 4..] == ".tif" then Some((Image, b[..|b| - 4]))
    else if |b| >= 9 && b[|b| - 4..] == ".npy" && b[..5] == "mask_" then Some((Mask, b[5..|b| - 4]))
    else None
  }

  function DecodeSourceTag(c: char): Option<Sensor>
  {
    if c == 'M' then Some(Modis) else if c == 'L' then Some(Landsat) else if c == 'S' then Some(Sentinel) else None
  }

  /** The file a path of the triple folder names, if it follows the convention. */
  function DecodeSource(path: string): Option<FileRef>
  {
    var prefix := TripleFolder + "/";
    if |path| < |prefix| + 2 || path[..|prefix|] != prefix then None
    else
      var name := path[|prefix|..];
      match (DecodeSourceTag(name[0]), DecodeBody(name[2..]))
      case (Some(s), Some((k, date))) => if name[1] == '_' then Some(FileRef(s, k, date)) else None
      case _ => None
  }

  /** The sensor a destination name starts with, and the text after its `_`. */
  function DecodeDestTag(t: string): Option<(Sensor, string)>
  {
    if |t| >= 6 && t[..6] == "MODIS_" then Some((Modis, t[6..]))
    else if |t| >= 8 && t[..8] == "Landsat_" then Some((Landsat, t[8..]))
    else if |t| >= 9 && t[..9] == "Sentinel_" then Some((Sentinel, t[9..]))
    else None
  }

  /** The position and file a path inside `pairFolder` names, if it follows the convention. */
  function DecodeDest(pairFolder: string, path: string): Option<(nat, FileRef)>
  {
    var prefix := pairFolder + "/";
    if |path| < |prefix| + 3 || path[..|prefix|] != prefix then None
    else
      var name := path[|prefix|..];
      if !AllDigits(name[..2]) || name[2] != '_' then None
      else
        match DecodeDestTag(name[3..])
        case None => None
        case Some((s, rest)) =>
          match DecodeBody(rest)
          case None => None
          case Some((k, date)) => Some((DigitsValue(name[..2]), FileRef(s, k, date)))
  }

  lemma DecodeBodyOf(f: FileRef)
    ensures DecodeBody(Body(f)) == Some((f.kind, f.date))
  {
    var b := Body(f);
    if f.kind == Image {
      assert b == f.date + ".tif";
      assert b[|b| - 4..] == ".tif" && b[..|b| - 4] == f.date;
    } else {
      assert b == "mask_" + f.date + ".npy";
      assert b[|b| - 4..] == ".npy" && b[..5] == "mask_" && b[5..|b| - 4] == f.date;
    }
  }

  /** A source path names the file it was built from. */
  lemma DecodeSourceOf(f: FileRef)
    ensures DecodeSource(SourcePath(f)) == Some(f)
  {
    var prefix := TripleFolder + "/";
    var name := SourceTag(f.sensor) + "_" + Body(f);
    var path := SourcePath(f);
    assert path == prefix + name;
    assert path[..|prefix|] == prefix && path[|prefix|..] == name;
    assert name[2..] == Body(f);
    DecodeBodyOf(f);
  }

  /** The name after a destination's position: the sensor tag, then the body. */
  lemma DecodeDestTagOf(f: FileRef)
    ensures DecodeDestTag(DestTag(f.sensor) + "_" + Body(f)) == Some((f.sensor, Body(f)))
  {
    var t := DestTag(f.sensor) + "_" + Body(f);
    match f.sensor
    case Modis =>
      assert t[..6] == "MODIS_" && t[6..] == Body(f);
    case Landsat =>
      assert t[..6] != "MODIS_" by { assert t[0] == 'L'; }
      assert t[..8] == "Landsat_" && t[8..] == Body(f);
    case Sentinel =>
      assert t[..6] != "MODIS_" by { assert t[0] == 'S'; }
      assert t[..8] != "Landsat_" by { assert t[0] == 'S'; }
      assert t[..9] == "Sentinel_" && t[9..] == Body(f);
  }

  /** A destination path inside a folder (not ending in '/') names the position and file it was built from. */
  lemma DecodeDestOf(pairFolder: string, j: nat, f: FileRef)
    requires |pairFolder| > 0 && pairFolder[|pairFolder| - 1] != '/'
    requires j < 100
    ensures DecodeDest(pairFolder, DestPath(pairFolder, j, f)) == Some((j, f))
  {
    var prefix := pairFolder + "/";
    var digits := ZeroPad(j, 2);
    assert Pow10(2) == 100;
    ZeroPadWidth(j, 2);
    var tail := DestTag(f.sensor) + "_" + Body(f);
    var name := digits + "_" + tail;
    assert DestName(j, f) == name;
    assert name[0] != '/' by { assert IsDigit(digits[0]); }
    var path := DestPath(pairFolder, j, f);
    assert path == prefix + name;
    assert path[..|prefix|] == prefix && path[|prefix|..] == name;
    assert name[..2] == digits && name[2] == '_' && name[3..] == tail;
    DecodeDestTagOf(f);
    DecodeBodyOf(f);
  }

  // ---------------------------------------------------------------------------
  // The copy plan
  // ---------------------------------------------------------------------------

  function CopyOf(pairFolder: string, j: nat, f: FileRef): Step
  {
    Copy(SourcePath(f), DestPath(pairFolder, j, f))
  }

  /** The ten files copied for one pair, in the script's order, each with its
      position: every sensor's t1 raster, then their t1 masks, at position 0;
      the t2 rasters and masks of MODIS and Landsat 8 only, at position 1. */
  function IntendedCopies(pair: (string, string)): seq<(nat, FileRef)>
  {
    var (date1, date2) := pair;
    [ (0, FileRef(Modis, Image, date1)), (0, FileRef(Landsat, Image, date1)), (0, FileRef(Sentinel, Image, date1)),
      (0, FileRef(Modis, Mask, date1)), (0, FileRef(Landsat, Mask, date1)), (0, FileRef(Sentinel, Mask, date1)),
      (1, FileRef(Modis, Image, date2)), (1, FileRef(Landsat, Image, date2)),
      (1, FileRef(Modis, Mask, date2)), (1, FileRef(Landsat, Mask, date2)) ]
  }

  /** One copy step per file, in order, each into the pair folder. */
  function CopiesOf(pairFolder: string, files: seq<(nat, FileRef)>): (r: seq<Step>)
    ensures |r| == |files|
  {
    seq(|files|, k requires 0 <= k < |files| => CopyOf(pairFolder, files[k].0, files[k].1))
  }

  /** What one iteration of `create_subfolders` does for pair `i`: make the pair
      folder, then copy the pair's ten files into it. */
  function PairSteps(folder: string, i: nat, pair: (string, string)): (r: seq<Step>)
    ensures |r| == 11
  {
    var pf := PairFolder(folder, i);
    [MakeDir(pf)] + CopiesOf(pf, IntendedCopies(pair))
  }

  /** The blocks of `blocks`, one after another. */
  function Concat<T>(blocks: seq<seq<T>>): seq<T>
    decreases |blocks|
  {
    if |blocks| == 0 then [] else Concat(blocks[..|blocks| - 1]) + blocks[|blocks| - 1]
  }

  lemma {:induction false} ConcatLength<T>(blocks: seq<seq<T>>, w: nat)
    requires forall k | 0 <= k < |blocks| :: |blocks[k]| == w
    ensures |Concat(blocks)| == w * |blocks|
    decreases |blocks|
  {
    if |blocks| > 0 {
      var n := |blocks| - 1;
      ConcatLength(blocks[..n], w);
      assert w * (n + 1) == w * n + w;
    }
  }

  /** Block `i` of equally long blocks starts at `w * i`. */
  lemma {:induction false} ConcatLayout<T>(blocks: seq<seq<T>>, w: nat, i: nat)
    requires forall k | 0 <= k < |blocks| :: |blocks[k]| == w
    requires i < |blocks|
    ensures w * i + w <= |Concat(blocks)|
    ensures Concat(blocks)[w * i .. w * i + w] == blocks[i]
    decreases |blocks|
  {
    var n := |blocks| - 1;
    var init := blocks[..n];
    ConcatLength(init, w);
    ConcatLength(blocks, w);
    assert w * (n + 1) == w * n + w;
    if i < n {
      ConcatLayout(init, w, i);
      assert w * i + w <= w * n by {
        assert w * n - (w * i + w) == w * (n - i - 1);
      }
      BlockOfLeft(Concat(init), blocks[n], w * i, w * i + w, blocks[i]);
    } else {
      assert blocks[n][0..w] == blocks[n];
      BlockOfRight(Concat(init), blocks[n], w * i, w * i + w, blocks[i]);
    }
  }

  /** One block of steps per pair, pair `k` numbered `k`. */
  function PairBlocks(folder: string, pairs: seq<(string, string)>): (r: seq<seq<Step>>)
    ensures |r| == |pairs|
  {
    seq(|pairs|, k requires 0 <= k < |pairs| => PairSteps(folder, k, pairs[k]))
  }

  /** `create_subfolders(folder, date_pairs)`: every pair's steps, pair after pair. */
  function Plan(folder: string, pairs: seq<(string, string)>): (r: seq<Step>)
    ensures |r| == 11 * |pairs|
  {
    ConcatLength(PairBlocks(folder, pairs), 11);
    Concat(PairBlocks(folder, pairs))
  }

  /** The plan for one more pair is the old plan followed by that pair's steps. */
  lemma PlanSnoc(folder: string, pairs: seq<(string, string)>)
    requires |pairs| > 0
    ensures Plan(folder, pairs) == Plan(folder, pairs[..|pairs| - 1]) + PairSteps(folder, |pairs| - 1, pairs[|pairs| - 1])
  {
    var n := |pairs| - 1;
    var bs := PairBlocks(folder, pairs);
    assert bs[..n] == PairBlocks(folder, pairs[..n]);
  }

  /** Lines 76-86 and 141-142: the top folders, then the train pairs, then the test pairs. */
  function DatasetPlan(dates: seq<(string, string)>): seq<Step>
  {
    var (trainDates, testDates) := SplitAt(dates, SplitIndex);
    [MakeDir(MainFolder), MakeDir(Join(MainFolder, TrainFolder)), MakeDir(Join(MainFolder, TestFolder))]
      + Plan(TrainFolder, trainDates) + Plan(TestFolder, testDates)
  }

  // ---------------------------------------------------------------------------
  // What the plan means
  // ---------------------------------------------------------------------------

  /** `Join(a, b)` for a relative `b`: `a`, a '/' unless `a` is empty or already ends in one, then `b`. */
  function JoinHead(a: string): string
  {
    if |a| == 0 || a[|a| - 1] == '/' then a else a + "/"
  }

  lemma JoinRelative(a: string, b: string)
    requires |b| == 0 || b[0] != '/'
    ensures Join(a, b) == JoinHead(a) + b
  {
  }

  /** A pair folder ends in the pair's number, so it never ends in '/'; and no two
      pairs of one group share a folder. */
  lemma PairFolderShape(folder: string, i: nat)
    ensures var pf := PairFolder(folder, i);
            |pf| > 0 && IsDigit(pf[|pf| - 1])
    ensures PairFolder(folder, i) == JoinHead(Join(MainFolder, folder)) + "pair_" + NatToString(i)
  {
    var digits := NatToString(i);
    var head := JoinHead(Join(MainFolder, folder));
    JoinRelative(Join(MainFolder, folder), "pair_" + digits);
    var pf := PairFolder(folder, i);
    assert pf == head + "pair_" + digits;
    assert pf[|pf| - 1] == digits[|digits| - 1];
  }

  lemma PairFoldersDistinct(folder: string, i: nat, k: nat)
    requires i != k
    ensures PairFolder(folder, i) != PairFolder(folder, k)
  {
    PairFolderShape(folder, i);
    PairFolderShape(folder, k);
    var head := JoinHead(Join(MainFolder, folder)) + "pair_";
    if PairFolder(folder, i) == PairFolder(folder, k) {
      var a, b := PairFolder(folder, i), PairFolder(folder, k);
      assert a[|head|..] == NatToString(i);
      assert b[|head|..] == NatToString(k);
      NatToStringInjective(i, k);
    }
  }

  /** Train pairs and test pairs never share a folder. */
  lemma TrainTestFoldersDistinct(i: nat, k: nat)
    ensures PairFolder(TrainFolder, i) != PairFolder(TestFolder, k)
  {
    PairFolderShape(TrainFolder, i);
    PairFolderShape(TestFolder, k);
    assert PairFolder(TrainFolder, i)[15] == 't' && PairFolder(TrainFolder, i)[16] == 'r';
    assert PairFolder(TestFolder, k)[16] == 'e';
  }

  /** A copy step's source and destination both name the file it copies. */
  lemma CopyOfDecodes(pairFolder: string, j: nat, f: FileRef)
    requires |pairFolder| > 0 && pairFolder[|pairFolder| - 1] != '/'
    requires j < 100
    ensures CopyOf(pairFolder, j, f).Copy?
    ensures DecodeSource(CopyOf(pairFolder, j, f).src) == Some(f)
    ensures DecodeDest(pairFolder, CopyOf(pairFolder, j, f).dst) == Some((j, f))
  {
    DecodeSourceOf(f);
    DecodeDestOf(pairFolder, j, f);
  }

  /** The literal list above is six t1 files (every sensor, raster and mask) and
      four t2 files (no Sentinel-2), each dated by its own half of the pair. */
  lemma IntendedCopiesShape(pair: (string, string))
    ensures var c := IntendedCopies(pair);
            && |c| == 10
            && (forall k | 0 <= k < 10 :: c[k].0 == if k < 6 then 0 else 1)
            && (forall k | 0 <= k < 10 :: c[k].1.date == if k < 6 then pair.0 else pair.1)
            && (forall s: Sensor, kind: Kind :: (0, FileRef(s, kind, pair.0)) in c[..6])
            && (forall s: Sensor, kind: Kind :: (1, FileRef(s, kind, pair.1)) in c[6..] <==> s != Sentinel)
  {
    var c := IntendedCopies(pair);
    forall s: Sensor, kind: Kind
      ensures (0, FileRef(s, kind, pair.0)) in c[..6]
      ensures (1, FileRef(s, kind, pair.1)) in c[6..] <==> s != Sentinel
    {
      var f0, f1 := FileRef(s, kind, pair.0), FileRef(s, kind, pair.1);
      var k := (if kind == Image then 0 else 3) + (match s case Modis => 0 case Landsat => 1 case Sentinel => 2);
      assert c[..6][k] == (0, f0);
      if s != Sentinel {
        var m := (if kind == Image then 0 else 2) + (if s == Modis then 0 else 1);
        assert c[6..][m] == (1, f1);
      }
    }
  }

  lemma IntendedPositions(pair: (string, string))
    ensures forall k | 0 <= k < |IntendedCopies(pair)| :: IntendedCopies(pair)[k].0 < 2
  {
  }

  /** For pair `i`, the script makes the pair folder and then copies exactly the
      intended files: every source and destination names the same sensor, kind
      and date, and every destination lies in the pair folder at its position. */
  lemma PairStepsMeaning(folder: string, i: nat, pair: (string, string))
    ensures var steps, pf := PairSteps(folder, i, pair), PairFolder(folder, i);
            && steps[0] == MakeDir(pf)
            && forall k | 1 <= k < 11 ::
                 && steps[k].Copy?
                 && DecodeSource(steps[k].src) == Some(IntendedCopies(pair)[k - 1].1)
                 && DecodeDest(pf, steps[k].dst) == Some(IntendedCopies(pair)[k - 1])
  {
    var steps, pf := PairSteps(folder, i, pair), PairFolder(folder, i);
    PairFolderShape(folder, i);
    var intended := IntendedCopies(pair);
    var copies := CopiesOf(pf, intended);
    IntendedPositions(pair);
    forall k | 1 <= k < 11
      ensures && steps[k].Copy?
              && DecodeSource(steps[k].src) == Some(intended[k - 1].1)
              && DecodeDest(pf, steps[k].dst) == Some(intended[k - 1])
    {
      assert steps[k] == copies[k - 1];
      CopyOfDecodes(pf, intended[k - 1].0, intended[k - 1].1);
    }
  }

  lemma BlockOfLeft<T>(a: seq<T>, b: seq<T>, lo: int, hi: int, x: seq<T>)
    requires 0 <= lo <= hi <= |a| && a[lo..hi] == x
    ensures (a + b)[lo..hi] == x
  {
    assert (a + b)[lo..hi] == a[lo..hi];
  }

  lemma BlockOfRight<T>(a: seq<T>, b: seq<T>, lo: int, hi: int, x: seq<T>)
    requires |a| <= lo <= hi <= |a| + |b| && b[lo - |a|..hi - |a|] == x
    ensures (a + b)[lo..hi] == x
  {
    assert (a + b)[lo..hi] == b[lo - |a|..hi - |a|];
  }

  /** Pair `i`'s steps are the `i`-th block of eleven in the plan. */
  lemma PlanLayout(folder: string, pairs: seq<(string, string)>, i: nat)
    requires i < |pairs|
    ensures Plan(folder, pairs)[11 * i .. 11 * i + 11] == PairSteps(folder, i, pairs[i])
  {
    ConcatLayout(PairBlocks(folder, pairs), 11, i);
  }

  /** The dataset plan starts with the three top folders ... */
  lemma DatasetPlanTop(dates: seq<(string, string)>)
    ensures |DatasetPlan(dates)| == 3 + 11 * |dates|
    ensures DatasetPlan(dates)[..3] == [MakeDir(MainFolder), MakeDir(Join(MainFolder, TrainFolder)), MakeDir(Join(MainFolder, TestFolder))]
  {
  }

  /** ... and then has each pair's block of eleven: pair `k` is the train group's
      pair `k` when `k < 7`, the test group's pair `k - 7` otherwise. */
  lemma DatasetPlanLayout(dates: seq<(string, string)>, k: nat)
    requires k < |dates|
    ensures DatasetPlan(dates)[3 + 11 * k .. 14 + 11 * k] ==
              if k < SplitIndex then PairSteps(TrainFolder, k, dates[k])
              else PairSteps(TestFolder, k - SplitIndex, dates[k])
  {
    var (trainDates, testDates) := SplitAt(dates, SplitIndex);
    var top := [MakeDir(MainFolder), MakeDir(Join(MainFolder, TrainFolder)), MakeDir(Join(MainFolder, TestFolder))];
    var a, b := Plan(TrainFolder, trainDates), Plan(TestFolder, testDates);
    assert DatasetPlan(dates) == (top + a) + b;
    if k < SplitIndex {
      assert trainDates[k] == dates[k];
      PlanLayout(TrainFolder, trainDates, k);
      BlockOfRight(top, a, 3 + 11 * k, 14 + 11 * k, PairSteps(TrainFolder, k, dates[k]));
      BlockOfLeft(top + a, b, 3 + 11 * k, 14 + 11 * k, PairSteps(TrainFolder, k, dates[k]));
    } else {
      var m := k - SplitIndex;
      assert testDates[m] == dates[k];
      PlanLayout(TestFolder, testDates, m);
      BlockOfRight(top + a, b, 3 + 11 * k, 14 + 11 * k, PairSteps(TestFolder, m, dates[k]));
    }
  }


  // ---------------------------------------------------------------------------
  // The loop as written
  // ---------------------------------------------------------------------------

  /** `create_subfolders(folder, date_pairs)` with each path spelled as the script
      spells it; the steps it issues are exactly `Plan(folder, datePairs)`. */
  method CreateSubfolders(folder: string, datePairs: seq<(string, string)>) returns (steps: seq<Step>)
    ensures steps == Plan(folder, datePairs)
  {
    steps := [];
    for i := 0 to |datePairs|
      invariant steps == Plan(folder, datePairs[..i])
    {
      var pairFolder := Join(Join(MainFolder, folder), "pair_" + NatToString(i));

      var (date1, date2) := datePairs[i];

      // t1
      var modisSrc := TripleFolder + "/M_" + date1 + ".tif";
      var landsatSrc := TripleFolder + "/L_" + date1 + ".tif";
      var sentinelSrc := TripleFolder + "/S_" + date1 + ".tif";

      var modisMaskSrc := TripleFolder + "/M_mask_" + date1 + ".npy";
      var landsatMaskSrc := TripleFolder + "/L_mask_" + date1 + ".npy";
      var sentinelMaskSrc := TripleFolder + "/S_mask_" + date1 + ".npy";

      var j := 0;
      var modisDst := Join(pairFolder, ZeroPad(j, 2) + "_MODIS_" + date1 + ".tif");
      var landsatDst := Join(pairFolder, ZeroPad(j, 2) + "_Landsat_" + date1 + ".tif");
      var sentinelDst := Join(pairFolder, ZeroPad(j, 2) + "_Sentinel_" + date1 + ".tif");

      var modisDstMask := Join(pairFolder, ZeroPad(j, 2) + "_MODIS_mask_" + date1 + ".npy");
      var landsatDstMask := Join(pairFolder, ZeroPad(j, 2) + "_Landsat_mask_" + date1 + ".npy");
      var sentinelDstMask := Join(pairFolder, ZeroPad(j, 2) + "_Sentinel_mask_" + date1 + ".npy");

      var t1Copies := [Copy(modisSrc, modisDst), Copy(landsatSrc, landsatDst), Copy(sentinelSrc, sentinelDst),
                       Copy(modisMaskSrc, modisDstMask), Copy(landsatMaskSrc, landsatDstMask), Copy(sentinelMaskSrc, sentinelDstMask)];

      // t2
      modisSrc := TripleFolder + "/M_" + date2 + ".tif";
      landsatSrc := TripleFolder + "/L_" + date2 + ".tif";

      modisMaskSrc := TripleFolder + "/M_mask_" + date2 + ".npy";
      landsatMaskSrc := TripleFolder + "/L_mask_" + date2 + ".npy";

      j := 1;
      modisDst := Join(pairFolder, ZeroPad(j, 2) + "_MODIS_" + date2 + ".tif");
      landsatDst := Join(pairFolder, ZeroPad(j, 2) + "_Landsat_" + date2 + ".tif");

      modisDstMask := Join(pairFolder, ZeroPad(j, 2) + "_MODIS_mask_" + date2 + ".npy");
      landsatDstMask := Join(pairFolder, ZeroPad(j, 2) + "_Landsat_mask_" + date2 + ".npy");

      var t2Copies := [Copy(modisSrc, modisDst), Copy(landsatSrc, landsatDst),
                       Copy(modisMaskSrc, modisDstMask), Copy(landsatMaskSrc, landsatDstMask)];

      PairStepsSpelledOut(folder, i, date1, date2);
      steps := steps + ([MakeDir(pairFolder)] + t1Copies + t2Copies);
      PlanSnoc(folder, datePairs[..i + 1]);
      assert datePairs[..i + 1][..i] == datePairs[..i];
    }
    assert datePairs[..|datePairs|] == datePairs;
  }

  /** Regrouping a path's pieces so that the fixed text before the date reads as the literal `lit`. */
  lemma Respell(base: string, sep: string, tag: string, mask: string, date: string, ext: string, lit: string)
    requires sep + tag + "_" + mask == lit
    ensures base + sep + tag + "_" + (mask + date + ext) == base + lit + date + ext
  {
  }

  /** Each source path, written the way the script writes it. */
  lemma SpelledSources(date: string)
    ensures SourcePath(FileRef(Modis, Image, date)) == TripleFolder + "/M_" + date + ".tif"
    ensures SourcePath(FileRef(Landsat, Image, date)) == TripleFolder + "/L_" + date + ".tif"
    ensures SourcePath(FileRef(Sentinel, Image, date)) == TripleFolder + "/S_" + date + ".tif"
    ensures SourcePath(FileRef(Modis, Mask, date)) == TripleFolder + "/M_mask_" + date + ".npy"
    ensures SourcePath(FileRef(Landsat, Mask, date)) == TripleFolder + "/L_mask_" + date + ".npy"
    ensures SourcePath(FileRef(Sentinel, Mask, date)) == TripleFolder + "/S_mask_" + date + ".npy"
  {
    Respell(TripleFolder, "/", "M", "", date, ".tif", "/M_");
    Respell(TripleFolder, "/", "L", "", date, ".tif", "/L_");
    Respell(TripleFolder, "/", "S", "", date, ".tif", "/S_");
    Respell(TripleFolder, "/", "M", "mask_", date, ".npy", "/M_mask_");
    Respell(TripleFolder, "/", "L", "mask_", date, ".npy", "/L_mask_");
    Respell(TripleFolder, "/", "S", "mask_", date, ".npy", "/S_mask_");
  }

  /** Each destination file name after its position `z`, written the way the script writes it. */
  lemma SpelledDests(z: string, date: string)
    ensures z + "_" + DestTag(Modis) + "_" + Body(FileRef(Modis, Image, date)) == z + "_MODIS_" + date + ".tif"
    ensures z + "_" + DestTag(Landsat) + "_" + Body(FileRef(Landsat, Image, date)) == z + "_Landsat_" + date + ".tif"
    ensures z + "_" + DestTag(Sentinel) + "_" + Body(FileRef(Sentinel, Image, date)) == z + "_Sentinel_" + date + ".tif"
    ensures z + "_" + DestTag(Modis) + "_" + Body(FileRef(Modis, Mask, date)) == z + "_MODIS_mask_" + date + ".npy"
    ensures z + "_" + DestTag(Landsat) + "_" + Body(FileRef(Landsat, Mask, date)) == z + "_Landsat_mask_" + date + ".npy"
    ensures z + "_" + DestTag(Sentinel) + "_" + Body(FileRef(Sentinel, Mask, date)) == z + "_Sentinel_mask_" + date + ".npy"
  {
    Respell(z, "_", "MODIS", "", date, ".tif", "_MODIS_");
    Respell(z, "_", "Landsat", "", date, ".tif", "_Landsat_");
    Respell(z, "_", "Sentinel", "", date, ".tif", "_Sentinel_");
    Respell(z, "_", "MODIS", "mask_", date, ".npy", "_MODIS_mask_");
    Respell(z, "_", "Landsat", "mask_", date, ".npy", "_Landsat_mask_");
    Respell(z, "_", "Sentinel", "mask_", date, ".npy", "_Sentinel_mask_");
  }

  /** The ten copies of a pair, listed in the script's order. */
  lemma CopiesListed(pf: string, date1: string, date2: string)
    ensures CopiesOf(pf, IntendedCopies((date1, date2))) ==
              [ CopyOf(pf, 0, FileRef(Modis, Image, date1)), CopyOf(pf, 0, FileRef(Landsat, Image, date1)),
                CopyOf(pf, 0, FileRef(Sentinel, Image, date1)),
                CopyOf(pf, 0, FileRef(Modis, Mask, date1)), CopyOf(pf, 0, FileRef(Landsat, Mask, date1)),
                CopyOf(pf, 0, FileRef(Sentinel, Mask, date1)) ]
              + [ CopyOf(pf, 1, FileRef(Modis, Image, date2)), CopyOf(pf, 1, FileRef(Landsat, Image, date2)),
                  CopyOf(pf, 1, FileRef(Modis, Mask, date2)), CopyOf(pf, 1, FileRef(Landsat, Mask, date2)) ]
  {
    var c := CopiesOf(pf, IntendedCopies((date1, date2)));
    FirstCopiesListed(pf, date1, date2);
    LastCopiesListed(pf, date1, date2);
    assert c == c[..6] + c[6..];
  }

  /** The six t1 copies: the three images, then the three masks. */
  lemma FirstCopiesListed(pf: string, date1: string, date2: string)
    ensures CopiesOf(pf, IntendedCopies((date1, date2)))[..6] ==
              [ CopyOf(pf, 0, FileRef(Modis, Image, date1)), CopyOf(pf, 0, FileRef(Landsat, Image, date1)),
                CopyOf(pf, 0, FileRef(Sentinel, Image, date1)),
                CopyOf(pf, 0, FileRef(Modis, Mask, date1)), CopyOf(pf, 0, FileRef(Landsat, Mask, date1)),
                CopyOf(pf, 0, FileRef(Sentinel, Mask, date1)) ]
  {
    var c := CopiesOf(pf, IntendedCopies((date1, date2)));
    FirstImagesListed(pf, date1, date2);
    FirstMasksListed(pf, date1, date2);
    assert c[..6] == c[..3] + c[3..6];
  }

  lemma FirstImagesListed(pf: string, date1: string, date2: string)
    ensures CopiesOf(pf, IntendedCopies((date1, date2)))[..3] ==
              [ CopyOf(pf, 0, FileRef(Modis, Image, date1)), CopyOf(pf, 0, FileRef(Landsat, Image, date1)),
                CopyOf(pf, 0, FileRef(Sentinel, Image, date1)) ]
  {
    var c := CopiesOf(pf, IntendedCopies((date1, date2)));
    ThreeListed(c[..3], c[0], c[1], c[2]);
  }

  lemma FirstMasksListed(pf: string, date1: string, date2: string)
    ensures CopiesOf(pf, IntendedCopies((date1, date2)))[3..6] ==
              [ CopyOf(pf, 0, FileRef(Modis, Mask, date1)), CopyOf(pf, 0, FileRef(Landsat, Mask, date1)),
                CopyOf(pf, 0, FileRef(Sentinel, Mask, date1)) ]
  {
    var c := CopiesOf(pf, IntendedCopies((date1, date2)));
    ThreeListed(c[3..6], c[3], c[4], c[5]);
  }

  /** The four t2 copies. */
  lemma LastCopiesListed(pf: string, date1: string, date2: string)
    ensures CopiesOf(pf, IntendedCopies((date1, date2)))[6..] ==
              [ CopyOf(pf, 1, FileRef(Modis, Image, date2)), CopyOf(pf, 1, FileRef(Landsat, Image, date2)),
                CopyOf(pf, 1, FileRef(Modis, Mask, date2)), CopyOf(pf, 1, FileRef(Landsat, Mask, date2)) ]
  {
    var c := CopiesOf(pf, IntendedCopies((date1, date2)));
    FourListed(c[6..], c[6], c[7], c[8], c[9]);
  }

  lemma ThreeListed<A>(c: seq<A>, x0: A, x1: A, x2: A)
    requires |c| == 3 && c[0] == x0 && c[1] == x1 && c[2] == x2
    ensures c == [x0, x1, x2]
  {
  }

  lemma FourListed<A>(c: seq<A>, x0: A, x1: A, x2: A, x3: A)
    requires |c| == 4 && c[0] == x0 && c[1] == x1 && c[2] == x2 && c[3] == x3
    ensures c == [x0, x1, x2, x3]
  {
  }

  /** One iteration's steps with every path written out the way the script writes it. */
  lemma PairStepsSpelledOut(folder: string, i: nat, date1: string, date2: string)
    ensures var pf := Join(Join(MainFolder, folder), "pair_" + NatToString(i));
            PairSteps(folder, i, (date1, date2)) ==
              [MakeDir(pf)]
              + [ Copy(TripleFolder + "/M_" + date1 + ".tif", Join(pf, ZeroPad(0, 2) + "_MODIS_" + date1 + ".tif")),
                Copy(TripleFolder + "/L_" + date1 + ".tif", Join(pf, ZeroPad(0, 2) + "_Landsat_" + date1 + ".tif")),
                Copy(TripleFolder + "/S_" + date1 + ".tif", Join(pf, ZeroPad(0, 2) + "_Sentinel_" + date1 + ".tif")),
                Copy(TripleFolder + "/M_mask_" + date1 + ".npy", Join(pf, ZeroPad(0, 2) + "_MODIS_mask_" + date1 + ".npy")),
                Copy(TripleFolder + "/L_mask_" + date1 + ".npy", Join(pf, ZeroPad(0, 2) + "_Landsat_mask_" + date1 + ".npy")),
                Copy(TripleFolder + "/S_mask_" + date1 + ".npy", Join(pf, ZeroPad(0, 2) + "_Sentinel_mask_" + date1 + ".npy")) ]
              + [ Copy(TripleFolder + "/M_" + date2 + ".tif", Join(pf, ZeroPad(1, 2) + "_MODIS_" + date2 + ".tif")),
                Copy(TripleFolder + "/L_" + date2 + ".tif", Join(pf, ZeroPad(1, 2) + "_Landsat_" + date2 + ".tif")),
                Copy(TripleFolder + "/M_mask_" + date2 + ".npy", Join(pf, ZeroPad(1, 2) + "_MODIS_mask_" + date2 + ".npy")),
                Copy(TripleFolder + "/L_mask_" + date2 + ".npy", Join(pf, ZeroPad(1, 2) + "_Landsat_mask_" + date2 + ".npy")) ]
  {
    var pf := PairFolder(folder, i);
    CopiesListed(pf, date1, date2);
    SpelledSources(date1);
    SpelledSources(date2);
    SpelledDests(ZeroPad(0, 2), date1);
    SpelledDests(ZeroPad(1, 2), date2);
  }
}
