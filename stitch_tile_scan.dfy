/** StitchTileScan.java: the "Stitch TileScan" command. It opens the chosen
    image files, offers one stitching job per (file, tile group), and runs
    the ticked ones: each job writes the tile configuration of its group,
    hands it to the stitcher, cleans the stitched ROI set, saves the results
    next to the image file and removes its scratch directory.

    The stitcher, the projections and the dialog are outside the model:
    what they report is passed in (JobEnv, the dialog answers), and the
    filesystem is the set of paths that exist. */
module StitchTileScan {
  import opened Text
  import opened Paths
  import opened SeriesInfo
  import opened ImageFiles
  import opened TileConfig

  /** The command's parameters (files aside). */
  datatype Options = Options(subfolder: bool, crossCorrelation: bool, pngExport: bool,
                             invertX: bool, invertY: bool)

  // ---------------------------------------------------------------------------
  // Opening the image files (run, first loop)
  // ---------------------------------------------------------------------------

  /** The files that open, in input order; a file whose constructor throws
      one of the caught exceptions is skipped. */
  function OpenedFiles(paths: seq<string>, subfolder: bool, plainFiles: set<string>,
                       backend: string -> Option<seq<SeriesMeta>>): seq<ImageFile>
  {
    if paths == [] then []
    else
      var p := paths[|paths| - 1];
      var rest := OpenedFiles(paths[..|paths| - 1], subfolder, plainFiles, backend);
      match OpenSpec(p, subfolder, plainFiles, backend(p))
      case Ok(f) => rest + [f]
      case Err(_) => rest
  }

  /** Some path has no parent directory once placed, so the constructor's
      new File(null) throws a NullPointerException that nothing catches. */
  predicate SomeWithoutParent(paths: seq<string>, subfolder: bool)
  {
    exists i :: 0 <= i < |paths| && GetParent(SubfolderPath(paths[i], subfolder)).None?
  }

  /** What the loop leaves: the opened files, or None when the command dies. */
  function LoadSpec(paths: seq<string>, subfolder: bool, plainFiles: set<string>,
                    backend: string -> Option<seq<SeriesMeta>>): Option<seq<ImageFile>>
  {
    if SomeWithoutParent(paths, subfolder) then None
    else Some(OpenedFiles(paths, subfolder, plainFiles, backend))
  }

  /** The loading loop. `plainFiles` are the existing regular files and
      `backend` what the reader reports for a path (None when it fails). */
  method LoadFiles(paths: seq<string>, subfolder: bool, plainFiles: set<string>,
                   backend: string -> Option<seq<SeriesMeta>>) returns (r: Option<seq<ImageFile>>)
    ensures r == LoadSpec(paths, subfolder, plainFiles, backend)
  {
    var files: seq<ImageFile> := [];
    var i := 0;
    while i < |paths|
      invariant 0 <= i <= |paths|
      invariant !SomeWithoutParent(paths[..i], subfolder)
      invariant files == OpenedFiles(paths[..i], subfolder, plainFiles, backend)
    {
      LoadStep(paths, i, subfolder, plainFiles, backend);
      var o := Open(paths[i], subfolder, plainFiles, backend(paths[i]));
      if o == Err(NoParentDirectory) {
        return None;
      }
      if o.Ok? {
        files := files + [o.value];
      }
      i := i + 1;
    }
    assert paths[..i] == paths;
    return Some(files);
  }

  /** One more path: it either opens, is skipped, or kills the command. */
  lemma LoadStep(paths: seq<string>, i: nat, subfolder: bool, plainFiles: set<string>,
                 backend: string -> Option<seq<SeriesMeta>>)
    requires i < |paths|
    ensures var o := OpenSpec(paths[i], subfolder, plainFiles, backend(paths[i]));
      && OpenedFiles(paths[..i + 1], subfolder, plainFiles, backend)
         == OpenedFiles(paths[..i], subfolder, plainFiles, backend) + (if o.Ok? then [o.value] else [])
      && (SomeWithoutParent(paths[..i + 1], subfolder)
          <==> SomeWithoutParent(paths[..i], subfolder) || o == Err(NoParentDirectory))
      && (o == Err(NoParentDirectory) ==> SomeWithoutParent(paths, subfolder))
  {
    var cur := paths[..i + 1];
    assert cur[..i] == paths[..i] && cur[i] == paths[i];
    WithoutParentStep(paths, i, subfolder);
  }

  lemma WithoutParentStep(paths: seq<string>, i: nat, subfolder: bool)
    requires i < |paths|
    ensures SomeWithoutParent(paths[..i + 1], subfolder)
            <==> SomeWithoutParent(paths[..i], subfolder) || GetParent(SubfolderPath(paths[i], subfolder)).None?
    ensures GetParent(SubfolderPath(paths[i], subfolder)).None? ==> SomeWithoutParent(paths, subfolder)
  {
    var pre, cur := paths[..i], paths[..i + 1];
    assert forall j :: 0 <= j < i ==> pre[j] == paths[j] && cur[j] == paths[j];
    assert cur[i] == paths[i];
  }

  /** Every opened file is well formed and is what its path opens to; at
      most one file per path. */
  lemma {:induction false} OpenedFilesSpec(paths: seq<string>, subfolder: bool, plainFiles: set<string>,
                                           backend: string -> Option<seq<SeriesMeta>>)
    ensures var fs := OpenedFiles(paths, subfolder, plainFiles, backend);
      && |fs| <= |paths|
      && forall f :: f in fs ==>
           WellFormed(f)
           && exists i :: 0 <= i < |paths| && OpenSpec(paths[i], subfolder, plainFiles, backend(paths[i])) == Ok(f)
  {
    if paths != [] {
      var init := paths[..|paths| - 1];
      var p := paths[|paths| - 1];
      OpenedFilesSpec(init, subfolder, plainFiles, backend);
      OpenSpecShape(p, subfolder, plainFiles, backend(p));
      var fs := OpenedFiles(paths, subfolder, plainFiles, backend);
      forall f | f in fs
        ensures exists i :: 0 <= i < |paths| && OpenSpec(paths[i], subfolder, plainFiles, backend(paths[i])) == Ok(f)
      {
        if f in OpenedFiles(init, subfolder, plainFiles, backend) {
          var i :| 0 <= i < |init| && OpenSpec(init[i], subfolder, plainFiles, backend(init[i])) == Ok(f);
          assert paths[i] == init[i];
        } else {
          assert OpenSpec(paths[|paths| - 1], subfolder, plainFiles, backend(paths[|paths| - 1])) == Ok(f);
        }
      }
    }
  }

  // ---------------------------------------------------------------------------
  // Jobs: one per (file, distinct series name)
  // ---------------------------------------------------------------------------

  /** A StitchingJob: an image file and the name of one tile group in it. */
  datatype Job = Job(file: ImageFile, group: string)

  /** The jobs of one file, in unique_series order. */
  function FileJobs(f: ImageFile): seq<Job>
  {
    var groups := UniqueSeries(f);
    seq(|groups|, k requires 0 <= k < |groups| => Job(f, groups[k]))
  }

  /** The jobs of all files: file order, then first-occurrence order. */
  function JobsOf(files: seq<ImageFile>): seq<Job>
  {
    if files == [] then [] else JobsOf(files[..|files| - 1]) + FileJobs(files[|files| - 1])
  }

  /** The nested loop that fills the job list (and the dialog). */
  method CreateJobs(files: seq<ImageFile>) returns (jobs: seq<Job>)
    ensures jobs == JobsOf(files)
  {
    jobs := [];
    var i := 0;
    while i < |files|
      invariant 0 <= i <= |files|
      invariant jobs == JobsOf(files[..i])
    {
      var f := files[i];
      var groups := UniqueSeries(f);
      var k := 0;
      while k < |groups|
        invariant 0 <= k <= |groups|
        invariant jobs == JobsOf(files[..i]) + FileJobs(f)[..k]
      {
        jobs := jobs + [Job(f, groups[k])];
        k := k + 1;
        assert FileJobs(f)[..k] == FileJobs(f)[..k - 1] + [Job(f, groups[k - 1])];
      }
      assert files[..i + 1][..i] == files[..i];
      assert FileJobs(f)[..k] == FileJobs(f);
      i := i + 1;
    }
    assert files[..i] == files;
  }

  /** A job exists exactly for each file and each of its series names. */
  lemma {:induction false} JobsOfSpec(files: seq<ImageFile>)
    ensures forall j :: j in JobsOf(files) <==> j.file in files && j.group in UniqueSeries(j.file)
  {
    if files != [] {
      var init, f := files[..|files| - 1], files[|files| - 1];
      JobsOfSpec(init);
      assert files == init + [f];
      forall j
        ensures j in FileJobs(f) <==> j.file == f && j.group in UniqueSeries(f)
      {
        if j.file == f && j.group in UniqueSeries(f) {
          var k :| 0 <= k < |UniqueSeries(f)| && UniqueSeries(f)[k] == j.group;
          assert FileJobs(f)[k] == j;
        }
      }
    }
  }

  // ---------------------------------------------------------------------------
  // The job filter: the series of the job's group
  // ---------------------------------------------------------------------------

  /** image_file.series filtered by name, in series order. */
  function Members(series: seq<Series>, group: string): (r: seq<Series>)
    ensures |r| <= |series|
    ensures forall s :: s in r <==> s in series && s.name == group
  {
    if series == [] then []
    else
      var init, last := series[..|series| - 1], series[|series| - 1];
      assert series == init + [last];
      var rest := Members(init, group);
      if last.name == group then rest + [last] else rest
  }

  predicate IncreasingIndices(series: seq<Series>)
  {
    forall i, j :: 0 <= i < j < |series| ==> series[i].index < series[j].index
  }

  /** The filter keeps series order. */
  lemma {:induction false} MembersOrdered(series: seq<Series>, group: string)
    requires IncreasingIndices(series)
    ensures IncreasingIndices(Members(series, group))
  {
    if series != [] {
      var init, last := series[..|series| - 1], series[|series| - 1];
      MembersOrdered(init, group);
      var rest := Members(init, group);
      forall s | s in rest
        ensures s.index < last.index
      {
        var i :| 0 <= i < |init| && init[i] == s;
        assert series[i] == s;
      }
    }
  }

  /** Every job has tiles and channels: its group occurs in its file, the
      filter keeps those series in index order, and channels(group) is
      non-null. */
  lemma JobHasTiles(files: seq<ImageFile>, job: Job)
    requires job in JobsOf(files)
    requires WellFormed(job.file)
    ensures |Members(job.file.series, job.group)| > 0
    ensures IncreasingIndices(Members(job.file.series, job.group))
    ensures ChannelsOf(job.file.series, job.group).Some?
  {
    JobsOfSpec(files);
    UniqueSeriesSpec(job.file);
    var i :| 0 <= i < |job.file.series| && job.file.series[i].name == job.group;
    assert job.file.series[i] in Members(job.file.series, job.group);
    MembersOrdered(job.file.series, job.group);
  }

  // ---------------------------------------------------------------------------
  // The tile configuration
  // ---------------------------------------------------------------------------

  /** The title and position of each tile, as the lines print them. */
  function Tiles(members: seq<Series>): (tiles: seq<(string, real, real)>)
    ensures |tiles| == |members|
  {
    seq(|members|, i requires 0 <= i < |members| => (members[i].mpTitle, members[i].posX, members[i].posY))
  }

  /** The position of the first projection whose future fails, or the
      number of tiles when none does. */
  function FirstFailure(n: nat, failedTiles: set<nat>): (k: nat)
    ensures k <= n
    ensures k < n ==> k in failedTiles
    ensures forall j :: 0 <= j < k ==> j !in failedTiles
  {
    FirstFailureFrom(n, failedTiles, 0)
  }

  function FirstFailureFrom(n: nat, failedTiles: set<nat>, from: nat): (k: nat)
    requires from <= n
    requires forall j :: 0 <= j < from ==> j !in failedTiles
    ensures from <= k <= n
    ensures k < n ==> k in failedTiles
    ensures forall j :: 0 <= j < k ==> j !in failedTiles
    decreases n - from
  {
    if from == n || from in failedTiles then from else FirstFailureFrom(n, failedTiles, from + 1)
  }

  /** The tile-config loop: the header, then one line per future in
      submission order; _mp.get() throws at the first failed projection,
      leaving the lines written so far. `failedTiles` are the positions of
      the projections that fail. */
  method WriteTileConfig(members: seq<Series>, failedTiles: set<nat>) returns (lines: seq<string>, failed: bool)
    ensures lines == ConfigText(Tiles(members[..FirstFailure(|members|, failedTiles)]))
    ensures failed <==> FirstFailure(|members|, failedTiles) < |members|
  {
    lines := [Header];
    assert Tiles(members[..0]) == [];
    var i := 0;
    while i < |members|
      invariant 0 <= i <= |members|
      invariant forall j :: 0 <= j < i ==> j !in failedTiles
      invariant lines == ConfigText(Tiles(members[..i]))
    {
      if i in failedTiles {
        return lines, true;
      }
      lines := lines + [EntryLine(members[i].mpTitle, members[i].posX, members[i].posY)];
      i := i + 1;
      assert Tiles(members[..i]) == Tiles(members[..i - 1]) + [(members[i - 1].mpTitle, members[i - 1].posX, members[i - 1].posY)];
      ConfigTextSnoc(Tiles(members[..i - 1]), (members[i - 1].mpTitle, members[i - 1].posX, members[i - 1].posY));
    }
    assert members[..i] == members;
    return lines, false;
  }

  /** Adding a tile adds its line at the end of the file. */
  lemma ConfigTextSnoc(tiles: seq<(string, real, real)>, t: (string, real, real))
    ensures ConfigText(tiles + [t]) == ConfigText(tiles) + [EntryLine(t.0, t.1, t.2)]
  {
    var a, b := ConfigText(tiles + [t]), ConfigText(tiles) + [EntryLine(t.0, t.1, t.2)];
    assert |a| == |b|;
    forall k | 0 <= k < |a|
      ensures a[k] == b[k]
    {
      if 0 < k < |a| - 1 {
        assert (tiles + [t])[k - 1] == tiles[k - 1];
      }
    }
  }

  /** What is written is always the start of the complete file: the
      header and the lines of the tiles before the first failure. */
  lemma ConfigWrittenPrefix(members: seq<Series>, failedTiles: set<nat>)
    ensures var k := FirstFailure(|members|, failedTiles);
      var written := ConfigText(Tiles(members[..k]));
      |written| == k + 1 && written == ConfigText(Tiles(members))[..k + 1]
  {
    var k := FirstFailure(|members|, failedTiles);
    var written, full := ConfigText(Tiles(members[..k])), ConfigText(Tiles(members));
    forall j | 1 <= j < k + 1
      ensures written[j] == full[j]
    {
      assert members[..k][j - 1] == members[j - 1];
    }
  }

  /** A config line gives back a tile's title, and its position to six
      decimals. */
  predicate ReadsBackAs(line: string, s: Series)
  {
    var e := ParseEntry(line);
    && e.Some? && e.value.0 == s.mpTitle
    && -0.0000005 <= e.value.1 - s.posX <= 0.0000005
    && -0.0000005 <= e.value.2 - s.posY <= 0.0000005
  }

  /** When no projection fails the file is complete: every line after the
      header reads back as its tile's title and position. */
  lemma ConfigComplete(members: seq<Series>, failedTiles: set<nat>)
    requires FirstFailure(|members|, failedTiles) == |members|
    ensures forall i :: 0 <= i < |members| ==> ReadsBackAs(ConfigText(Tiles(members))[i + 1], members[i])
  {
    forall i | 0 <= i < |members|
      ensures ReadsBackAs(ConfigText(Tiles(members))[i + 1], members[i])
    {
      assert Tiles(members)[i] == (members[i].mpTitle, members[i].posX, members[i].posY);
      ConfigTextRoundTrip(Tiles(members), i);
    }
  }

  // ---------------------------------------------------------------------------
  // The invert option of the stitcher call
  // ---------------------------------------------------------------------------

  /** An option key occurs in an option string. */
  predicate HasKey(s: string, key: string)
  {
    exists i: nat :: i <= |s| && StartsAt(s, key, i)
  }

  /** Accumulates invert_xy: each requested flag contributes its key and a
      separating space, the X key first. */
  method InvertOption(invertX: bool, invertY: bool) returns (invertXY: string)
    ensures invertXY == (if invertX then "invert_x " else "") + (if invertY then "invert_y " else "")
    ensures HasKey(invertXY, "invert_x") <==> invertX
    ensures HasKey(invertXY, "invert_y") <==> invertY
    ensures invertXY == [] || invertXY[|invertXY| - 1] == ' '
    ensures |invertXY| == (if invertX then 9 else 0) + (if invertY then 9 else 0)
  {
    invertXY := "";
    if invertX {
      invertXY := "invert_x ";
    }
    if invertY {
      invertXY := invertXY + "invert_y ";
    }
    assert invertXY == (if invertX then "invert_x " else "") + (if invertY then "invert_y " else "");
    InvertKeys(invertX, invertY);
  }

  /** Which keys occur in the four possible option strings. */
  lemma InvertKeys(invertX: bool, invertY: bool)
    ensures var s := (if invertX then "invert_x " else "") + (if invertY then "invert_y " else "");
      && (HasKey(s, "invert_x") <==> invertX)
      && (HasKey(s, "invert_y") <==> invertY)
  {
    var s := (if invertX then "invert_x " else "") + (if invertY then "invert_y " else "");
    if invertX && invertY {
      assert s == "invert_x invert_y ";
      assert StartsAt(s, "invert_x", 0);
      assert StartsAt(s, "invert_y", 9);
    } else if invertX {
      assert s == "invert_x ";
      assert StartsAt(s, "invert_x", 0);
      OtherKeyAbsent("invert_x ", "invert_y");
    } else if invertY {
      assert s == "invert_y ";
      assert StartsAt(s, "invert_y", 0);
      OtherKeyAbsent("invert_y ", "invert_x");
    } else {
      assert s == "";
    }
  }

  /** A nine-character string holds an eight-character key only at 0 or 1,
      so a key whose last character is neither of the string's last two is
      absent. */
  lemma OtherKeyAbsent(s: string, key: string)
    requires |s| == 9 && |key| == 8 && s[7] != key[7] && s[8] != key[7]
    ensures !HasKey(s, key)
  {
    forall i: nat | i <= |s|
      ensures !StartsAt(s, key, i)
    {
      if i <= 1 {
        assert s[i..i + 8][7] == s[i + 7];
      }
    }
  }

  // ---------------------------------------------------------------------------
  // Placeholder ROIs: names matching .*file=unknown file \d+$
  // ---------------------------------------------------------------------------

  /** The characters '.' does not match: Java's line terminators. */
  predicate IsLineTerminator(c: char)
  {
    c == '\n' || c == '\r' || c == '\U{0085}' || c == '\U{2028}' || c == '\U{2029}'
  }

  const UnknownMarker: string := "file=unknown file "

  /** Matcher.matches() of the pattern, read directly: a prefix without line
      terminators, the marker, then one or more ASCII digits up to the end. */
  predicate MatchesUnknownPattern(name: string)
  {
    exists k: nat :: k + |UnknownMarker| < |name| && StartsAt(name, UnknownMarker, k)
      && AllDigits(name[k + |UnknownMarker|..])
      && forall i :: 0 <= i < k ==> !IsLineTerminator(name[i])
  }

  /** The length of the run of digits that ends the name. */
  function TrailingDigits(name: string): (d: nat)
    ensures d <= |name| && AllDigits(name[|name| - d..])
    ensures d < |name| ==> !IsDigit(name[|name| - d - 1])
  {
    if name == [] || !IsDigit(name[|name| - 1]) then 0
    else
      var init := name[..|name| - 1];
      var d := TrailingDigits(init);
      forall i | |name| - d - 1 <= i < |name|
        ensures IsDigit(name[i])
      {
        if i < |name| - 1 {
          assert name[i] == init[|init| - d..][i - (|init| - d)];
        }
      }
      assert d + 1 < |name| ==> name[|name| - (d + 1) - 1] == init[|init| - d - 1];
      d + 1
  }

  /** The same test, decided at the one place the marker can sit: right
      before the digit run that ends the name. */
  predicate IsUnknownRoi(name: string)
  {
    var d := TrailingDigits(name);
    var k := |name| - d - |UnknownMarker|;
    d > 0 && k >= 0 && StartsAt(name, UnknownMarker, k)
    && forall i :: 0 <= i < k ==> !IsLineTerminator(name[i])
  }

  /** The digit-run test decides the regular expression exactly. */
  lemma UnknownRoiByDigitRun(name: string)
    ensures IsUnknownRoi(name) <==> MatchesUnknownPattern(name)
  {
    if IsUnknownRoi(name) {
      DigitRunMatches(name);
    }
    if MatchesUnknownPattern(name) {
      MatchHasDigitRun(name);
    }
  }

  lemma DigitRunMatches(name: string)
    requires IsUnknownRoi(name)
    ensures MatchesUnknownPattern(name)
  {
    var k: nat := |name| - TrailingDigits(name) - |UnknownMarker|;
    assert k + |UnknownMarker| < |name| && StartsAt(name, UnknownMarker, k);
  }

  lemma MatchHasDigitRun(name: string)
    requires MatchesUnknownPattern(name)
    ensures IsUnknownRoi(name)
  {
    var m := |UnknownMarker|;
    var k: nat :| k + m < |name| && StartsAt(name, UnknownMarker, k)
      && AllDigits(name[k + m..])
      && forall i :: 0 <= i < k ==> !IsLineTerminator(name[i]);
    // The marker ends in a space, so the digit run starts right after it.
    assert name[k + m - 1] == ' ' by {
      assert name[k..k + m][m - 1] == ' ';
    }
    var tail := name[k + m..];
    forall i | k + m <= i < |name|
      ensures IsDigit(name[i])
    {
      assert name[i] == tail[i - k - m];
    }
    TrailingDigitsExact(name, k + m);
  }

  /** A name whose digits run from just after a non-digit to the end has
      exactly that many trailing digits. */
  lemma TrailingDigitsExact(name: string, j: nat)
    requires 0 < j < |name| && !IsDigit(name[j - 1])
    requires forall i :: j <= i < |name| ==> IsDigit(name[i])
    ensures TrailingDigits(name) == |name| - j
  {
    var d := TrailingDigits(name);
    forall i | |name| - d <= i < |name|
      ensures IsDigit(name[i])
    {
      assert name[i] == name[|name| - d..][i - (|name| - d)];
    }
    assert d <= |name| - j;
  }

  /** getRoiIndex of every placeholder, in manager order. */
  function UnknownIndices(names: seq<string>): seq<nat>
  {
    if names == [] then []
    else
      var rest := UnknownIndices(names[..|names| - 1]);
      if IsUnknownRoi(names[|names| - 1]) then rest + [|names| - 1] else rest
  }

  /** The filter finds exactly the positions of the placeholders, each once,
      in increasing order. */
  lemma UnknownIndicesSpec(names: seq<string>)
    ensures forall i :: i in UnknownIndices(names) <==> 0 <= i < |names| && IsUnknownRoi(names[i])
    ensures forall a, b :: 0 <= a < b < |UnknownIndices(names)| ==> UnknownIndices(names)[a] < UnknownIndices(names)[b]
  {
    UnknownIndicesMembers(names);
    UnknownIndicesIncreasing(names);
  }

  lemma {:induction false} UnknownIndicesMembers(names: seq<string>)
    ensures forall i :: i in UnknownIndices(names) <==> 0 <= i < |names| && IsUnknownRoi(names[i])
  {
    if names != [] {
      var init := names[..|names| - 1];
      UnknownIndicesMembers(init);
      var rest := UnknownIndices(init);
      var last := |names| - 1;
      var r := UnknownIndices(names);
      forall i
        ensures i in r <==> 0 <= i < |names| && IsUnknownRoi(names[i])
      {
        assert i in r <==> i in rest || (i == last && IsUnknownRoi(names[last]));
        if 0 <= i < |init| {
          assert init[i] == names[i];
        }
      }
    }
  }

  lemma {:induction false} UnknownIndicesIncreasing(names: seq<string>)
    ensures forall a :: 0 <= a < |UnknownIndices(names)| ==> UnknownIndices(names)[a] < |names|
    ensures forall a, b :: 0 <= a < b < |UnknownIndices(names)| ==> UnknownIndices(names)[a] < UnknownIndices(names)[b]
  {
    if names != [] {
      var init := names[..|names| - 1];
      UnknownIndicesIncreasing(init);
      var rest := UnknownIndices(init);
      var last := |names| - 1;
      var r := UnknownIndices(names);
      assert r == rest || r == rest + [last];
      forall a | 0 <= a < |r|
        ensures r[a] < |names|
      {
        if a < |rest| { assert r[a] == rest[a]; }
      }
      forall a, b | 0 <= a < b < |r|
        ensures r[a] < r[b]
      {
        if b < |rest| {
          assert r[a] == rest[a] && r[b] == rest[b];
        } else {
          assert r[a] == rest[a] < last;
        }
      }
    }
  }

  /** The ROIs that are not placeholders, in manager order. */
  function KeepKnown(names: seq<string>): (r: seq<string>)
    ensures forall n :: n in r <==> n in names && !IsUnknownRoi(n)
  {
    if names == [] then []
    else
      var init, last := names[..|names| - 1], names[|names| - 1];
      assert names == init + [last];
      if IsUnknownRoi(last) then KeepKnown(init) else KeepKnown(init) + [last]
  }

  /** The "Delete" command: the entries at the selected positions go. */
  function DeleteAt(names: seq<string>, selected: seq<nat>): seq<string>
  {
    if names == [] then []
    else
      var init := DeleteAt(names[..|names| - 1], selected);
      if |names| - 1 in selected then init else init + [names[|names| - 1]]
  }

  /** Only the selected positions inside the list matter. */
  lemma {:induction false} DeleteAtInRange(names: seq<string>, s1: seq<nat>, s2: seq<nat>)
    requires forall i :: 0 <= i < |names| ==> (i in s1 <==> i in s2)
    ensures DeleteAt(names, s1) == DeleteAt(names, s2)
  {
    if names != [] {
      DeleteAtInRange(names[..|names| - 1], s1, s2);
    }
  }

  /** Deleting the positions the filter found removes exactly the
      placeholders and keeps every other ROI in order. */
  lemma {:induction false} DeleteUnknownIsFilter(names: seq<string>)
    ensures DeleteAt(names, UnknownIndices(names)) == KeepKnown(names)
  {
    if names != [] {
      var init := names[..|names| - 1];
      DeleteUnknownIsFilter(init);
      UnknownIndicesSpec(names);
      UnknownIndicesSpec(init);
      DeleteAtInRange(init, UnknownIndices(names), UnknownIndices(init));
    }
  }

  /** Without placeholders nothing is deleted. */
  lemma {:induction false} KeepKnownAll(names: seq<string>)
    requires forall n :: n in names ==> !IsUnknownRoi(n)
    ensures KeepKnown(names) == names
  {
    if names != [] {
      var init, last := names[..|names| - 1], names[|names| - 1];
      assert names == init + [last];
      KeepKnownAll(init);
    }
  }

  function AllIndices(n: nat): (r: seq<nat>)
    ensures |r| == n && forall i :: 0 <= i < n ==> r[i] == i
  {
    seq(n, i requires 0 <= i < n => i)
  }

  /** The ROI Manager: the names of its ROIs and the selected positions. */
  class RoiManager {
    var names: seq<string>
    var selected: seq<nat>

    constructor(names: seq<string>)
      ensures this.names == names && selected == []
    {
      this.names := names;
      selected := [];
    }

    /** setSelectedIndexes. */
    method SetSelectedIndexes(indexes: seq<nat>)
      modifies this
      ensures names == old(names) && selected == indexes
    {
      selected := indexes;
    }

    /** runCommand("Delete") on a selection. */
    method Delete()
      modifies this
      ensures names == DeleteAt(old(names), old(selected)) && selected == []
    {
      names := DeleteAt(names, selected);
      selected := [];
    }

    /** runCommand("Select All"). */
    method SelectAll()
      modifies this
      ensures names == old(names) && selected == AllIndices(|names|)
    {
      selected := AllIndices(|names|);
    }

    /** The placeholder removal of StitchingJob.run: when some ROI names
        match, select them, delete them and select everything left;
        otherwise leave the manager alone. */
    method RemoveUnknownRois()
      modifies this
      ensures names == KeepKnown(old(names))
      ensures UnknownIndices(old(names)) == [] ==> selected == old(selected)
      ensures UnknownIndices(old(names)) != [] ==> selected == AllIndices(|names|)
    {
      var toRemove := UnknownIndices(names);
      if |toRemove| > 0 {
        DeleteUnknownIsFilter(names);
        SetSelectedIndexes(toRemove);
        Delete();
        SelectAll();
      } else {
        UnknownIndicesMembers(names);
        assert forall n :: n in names ==> !IsUnknownRoi(n) by {
          forall n | n in names ensures !IsUnknownRoi(n) {
            var i :| 0 <= i < |names| && names[i] == n;
            assert i !in toRemove;
          }
        }
        KeepKnownAll(names);
      }
    }
  }

  // ---------------------------------------------------------------------------
  // Paths of a job
  // ---------------------------------------------------------------------------

  const ScratchName: string := ".max_projections"

  /** max_projection_dir: <parent>/.max_projections. */
  function ScratchDir(f: ImageFile): string
  {
    Join(ParentOrNull(f.path), ScratchName)
  }

  /** tileconfig: tileconfig_<group>.txt in the scratch directory. */
  function ConfigPath(f: ImageFile, group: string): string
  {
    Join(ScratchDir(f), "tileconfig_" + group + ".txt")
  }

  /** Where a tile's projection is saved: its title in the scratch directory. */
  function ProjectionPath(f: ImageFile, s: Series): string
  {
    Join(ScratchDir(f), s.mpTitle)
  }

  /** _save_path: <parent>/<base_name>_<group>. */
  function SaveBase(f: ImageFile, group: string): string
  {
    Join(ParentOrNull(f.path), f.baseName + "_" + group)
  }

  /** The results: the ROI set and the stitched TIFF, and the PNG export
      when asked for. */
  function OutputPaths(f: ImageFile, group: string, pngExport: bool): set<string>
  {
    var base := SaveBase(f, group);
    {base + "_ROIset.zip", base + "_stitch.tif"} + (if pngExport then {base + "_stitched.png"} else {})
  }

  lemma MpTitleNoSeparator(name: string, index: nat)
    requires Separator !in name
    ensures Separator !in MpTitle(name, index)
  {
    var digits := NatToString(index);
    assert forall i :: 0 <= i < |digits| ==> digits[i] != Separator;
    assert MpTitle(name, index) == name + "_mp_" + digits + ".tif";
  }

  /** For an opened file and one of its groups: the scratch directory sits
      next to the image file, and the config and the projections are
      directly inside it. */
  lemma ScratchLayout(f: ImageFile, group: string)
    requires WellFormed(f) && Separator !in group
    ensures GetParent(ScratchDir(f)) == GetParent(f.path)
    ensures GetName(ScratchDir(f)) == ScratchName
    ensures GetParent(ConfigPath(f, group)) == Some(ScratchDir(f))
    ensures forall s :: s in f.series ==> GetParent(ProjectionPath(f, s)) == Some(ScratchDir(f))
  {
    ScratchDirPlace(f);
    ConfigInScratch(f, group);
    forall s | s in f.series
      ensures GetParent(ProjectionPath(f, s)) == Some(ScratchDir(f))
    {
      ProjectionInScratch(f, s);
    }
  }

  lemma ScratchDirPlace(f: ImageFile)
    requires WellFormed(f)
    ensures GetParent(ScratchDir(f)) == GetParent(f.path)
    ensures GetName(ScratchDir(f)) == ScratchName
  {
    JoinParts(GetParent(f.path).value, ScratchName);
  }

  lemma ConfigInScratch(f: ImageFile, group: string)
    requires Separator !in group
    ensures GetParent(ConfigPath(f, group)) == Some(ScratchDir(f))
  {
    var name := "tileconfig_" + group + ".txt";
    assert Separator !in name;
    JoinParts(ScratchDir(f), name);
  }

  lemma ProjectionInScratch(f: ImageFile, s: Series)
    requires WellFormed(f) && s in f.series
    ensures GetParent(ProjectionPath(f, s)) == Some(ScratchDir(f))
  {
    var i :| 0 <= i < |f.series| && f.series[i] == s;
    assert Separator !in s.name && s.mpTitle == MpTitle(s.name, i);
    MpTitleNoSeparator(s.name, i);
    JoinParts(ScratchDir(f), s.mpTitle);
  }

  lemma BaseNameNoSeparator(f: ImageFile)
    requires WellFormed(f)
    ensures Separator !in f.baseName
  {
    var name := GetName(f.path);
    assert f.baseName == name[..|f.baseName|];
    assert forall i :: 0 <= i < |f.baseName| ==> f.baseName[i] == name[i];
  }

  /** A path directly beside the image file that is neither the scratch
      directory nor inside it. */
  predicate BesideImage(f: ImageFile, o: string)
  {
    GetParent(o) == GetParent(f.path) && o != ScratchDir(f)
    && GetParent(o) != Some(ScratchDir(f))
  }

  /** The results sit next to the image file and are neither the scratch
      directory nor inside it. */
  lemma OutputLayout(f: ImageFile, group: string, pngExport: bool)
    requires WellFormed(f) && Separator !in group
    ensures forall o :: o in OutputPaths(f, group, pngExport) ==> BesideImage(f, o)
  {
    var base := SaveBase(f, group);
    var roiSet, tif, png := base + "_ROIset.zip", base + "_stitch.tif", base + "_stitched.png";
    OutputEntry(f, group, "_ROIset.zip");
    OutputEntry(f, group, "_stitch.tif");
    OutputEntry(f, group, "_stitched.png");
    assert OutputPaths(f, group, pngExport) <= {roiSet, tif, png};
  }

  lemma OutputEntry(f: ImageFile, group: string, ext: string)
    requires WellFormed(f) && Separator !in group
    requires ext in {"_ROIset.zip", "_stitch.tif", "_stitched.png"}
    ensures BesideImage(f, SaveBase(f, group) + ext)
  {
    var parent := GetParent(f.path).value;
    BaseNameNoSeparator(f);
    var stem := f.baseName + "_" + group;
    assert Separator !in stem;
    assert Join(parent, stem + ext) == SaveBase(f, group) + ext;
    OutputName(parent, stem, ext);
  }

  lemma OutputName(parent: string, stem: string, ext: string)
    requires |parent| > 0 && Separator !in stem
    requires ext in {"_ROIset.zip", "_stitch.tif", "_stitched.png"}
    ensures GetParent(Join(parent, stem + ext)) == Some(parent)
    ensures Join(parent, stem + ext) != Join(parent, ScratchName)
    ensures Join(parent, ScratchName) != parent
  {
    JoinParts(parent, stem + ext);
    var o := Join(parent, stem + ext);
    assert o[|o| - 1] == ext[|ext| - 1];
  }

  // ---------------------------------------------------------------------------
  // Cleanup of the scratch directory
  // ---------------------------------------------------------------------------

  /** The paths directly inside a directory (listFiles). */
  function Children(fs: set<string>, dir: string): set<string>
  {
    set p | p in fs && GetParent(p) == Some(dir)
  }

  /** The filesystem after the cleanup: the directory's entries and the
      directory itself are gone, nothing else. */
  function CleanedUp(fs: set<string>, dir: string): (r: set<string>)
    ensures forall p :: p in r <==> p in fs && p != dir && GetParent(p) != Some(dir)
  {
    fs - Children(fs, dir) - {dir}
  }

  /** The cleanup loop: delete every listed entry, then the directory. */
  method Cleanup(fs: set<string>, dir: string) returns (r: set<string>)
    ensures r == CleanedUp(fs, dir)
  {
    var contents := Children(fs, dir);
    r := fs;
    var todo := contents;
    while todo != {}
      invariant todo <= contents
      invariant r == fs - (contents - todo)
      decreases todo
    {
      var f :| f in todo;
      r := r - {f};
      todo := todo - {f};
    }
    r := r - {dir};
  }

  // ---------------------------------------------------------------------------
  // One stitching job
  // ---------------------------------------------------------------------------

  /** How a job ends: normally, or with one of the exceptions StitchingJob.run
      declares. */
  datatype JobResult = Completed | ExecutionFailed | Interrupted | ConfigNotCreatable

  /** What the world does during a job: whether the config file can be
      created (otherwise FileNotFoundException), whether the wait for the
      projections is interrupted, the positions of the projections that
      throw, and the paths whose save fails. A failed save (saveAsTiff,
      saveAsPng, the ROI manager's "Save") returns false without throwing,
      and the job carries on. */
  datatype JobEnv = JobEnv(configCreatable: bool, interrupted: bool, failedTiles: set<nat>, failedSaves: set<string>)

  /** A job's effect: its result, the lines handed to the config writer
      and the paths that exist afterwards. */
  datatype JobRun = JobRun(result: JobResult, config: seq<string>, files: set<string>)

  /** The result of a job, which depends on nothing but the job and the world. */
  function JobResultOf(job: Job, env: JobEnv): JobResult
  {
    var n := |Members(job.file.series, job.group)|;
    if !env.configCreatable then ConfigNotCreatable
    else if env.interrupted then Interrupted
    else if FirstFailure(n, env.failedTiles) < n then ExecutionFailed
    else Completed
  }

  /** The projections the tasks try to save: every tile whose task succeeds. */
  function Projections(f: ImageFile, members: seq<Series>, failedTiles: set<nat>): set<string>
  {
    set i | 0 <= i < |members| && i !in failedTiles :: ProjectionPath(f, members[i])
  }

  /** StitchingJob.run as a value: create the scratch directory, open the
      config, wait for every projection, write the lines, then save the
      results and remove the scratch directory. An exception leaves the
      scratch directory and what was already written in it. */
  function RunJobSpec(job: Job, pngExport: bool, env: JobEnv, fs: set<string>): JobRun
  {
    var f, g := job.file, job.group;
    var members := Members(f.series, g);
    var fs1 := fs + {ScratchDir(f)};
    if !env.configCreatable then JobRun(ConfigNotCreatable, [], fs1)
    else
      var fs2 := fs1 + {ConfigPath(f, g)};
      if env.interrupted then JobRun(Interrupted, [Header], fs2)
      else
        var fs3 := fs2 + (Projections(f, members, env.failedTiles) - env.failedSaves);
        var k := FirstFailure(|members|, env.failedTiles);
        var lines := ConfigText(Tiles(members[..k]));
        if k < |members| then JobRun(ExecutionFailed, lines, fs3)
        else JobRun(Completed, lines, CleanedUp(fs3 + (OutputPaths(f, g, pngExport) - env.failedSaves), ScratchDir(f)))
  }

  /** StitchingJob.run. */
  method RunJob(job: Job, pngExport: bool, env: JobEnv, fs: set<string>) returns (run: JobRun)
    ensures run == RunJobSpec(job, pngExport, env, fs)
  {
    var f, g := job.file, job.group;
    var scratch := ScratchDir(f);
    var files := fs;
    if scratch !in files {
      files := files + {scratch};
    }
    assert files == fs + {scratch};
    var members := Members(f.series, g);
    if !env.configCreatable {
      return JobRun(ConfigNotCreatable, [], files);
    }
    files := files + {ConfigPath(f, g)};
    if env.interrupted {
      return JobRun(Interrupted, [Header], files);
    }
    files := files + (Projections(f, members, env.failedTiles) - env.failedSaves);
    var lines, failed := WriteTileConfig(members, env.failedTiles);
    if failed {
      return JobRun(ExecutionFailed, lines, files);
    }
    files := files + (OutputPaths(f, g, pngExport) - env.failedSaves);
    files := Cleanup(files, scratch);
    return JobRun(Completed, lines, files);
  }

  /** The job's result is JobResultOf, whatever the filesystem. */
  lemma RunJobResult(job: Job, pngExport: bool, env: JobEnv, fs: set<string>)
    ensures RunJobSpec(job, pngExport, env, fs).result == JobResultOf(job, env)
  {
  }

  /** The files a job creates in its scratch directory are inside it. */
  lemma ScratchContents(f: ImageFile, g: string, failedTiles: set<nat>)
    requires WellFormed(f) && Separator !in g
    ensures GetParent(ConfigPath(f, g)) == Some(ScratchDir(f))
    ensures forall p :: p in Projections(f, Members(f.series, g), failedTiles) ==> GetParent(p) == Some(ScratchDir(f))
  {
    var members := Members(f.series, g);
    ScratchLayout(f, g);
    forall p | p in Projections(f, members, failedTiles)
      ensures GetParent(p) == Some(ScratchDir(f))
    {
      var i :| 0 <= i < |members| && i !in failedTiles && p == ProjectionPath(f, members[i]);
      assert members[i] in f.series;
    }
  }

  /** A completed job has handed the whole tile configuration to the
      writer: every tile's line reads back as its title and position. */
  lemma CompletedJobConfig(job: Job, pngExport: bool, env: JobEnv, fs: set<string>)
    requires JobResultOf(job, env) == Completed
    ensures var run := RunJobSpec(job, pngExport, env, fs);
      var members := Members(job.file.series, job.group);
      && run.config == ConfigText(Tiles(members))
      && forall i :: 0 <= i < |members| ==> ReadsBackAs(run.config[i + 1], members[i])
  {
    var members := Members(job.file.series, job.group);
    assert members[..|members|] == members;
    ConfigComplete(members, env.failedTiles);
  }

  /** A completed job has saved its results next to the image file, except
      those whose save failed, and has removed its scratch directory with
      everything in it; every other path is as before. */
  lemma CompletedJobFiles(job: Job, pngExport: bool, env: JobEnv, fs: set<string>)
    requires WellFormed(job.file) && Separator !in job.group
    requires JobResultOf(job, env) == Completed
    ensures var run := RunJobSpec(job, pngExport, env, fs);
      && OutputPaths(job.file, job.group, pngExport) - env.failedSaves <= run.files
      && ScratchDir(job.file) !in run.files
      && ConfigPath(job.file, job.group) !in run.files
      && (forall p :: p != ScratchDir(job.file) && GetParent(p) != Some(ScratchDir(job.file)) ==>
            (p in run.files <==> p in fs || (p in OutputPaths(job.file, job.group, pngExport) && p !in env.failedSaves)))
  {
    var f, g := job.file, job.group;
    var scratch := ScratchDir(f);
    CompletedFilesShape(job, pngExport, env, fs);
    JobAddsInScratch(f, g, env, fs);
    OutputsOutsideScratch(f, g, pngExport);
    CleanupAfterJob(fs, JobAdds(f, g, env, fs), OutputPaths(f, g, pngExport) - env.failedSaves, scratch);
    ConfigInScratch(f, g);
  }

  /** The paths that exist once a job has made its scratch directory, its
      config and the projections of the tiles whose tasks and saves succeed. */
  function JobAdds(f: ImageFile, g: string, env: JobEnv, fs: set<string>): set<string>
  {
    fs + {ScratchDir(f)} + {ConfigPath(f, g)} + (Projections(f, Members(f.series, g), env.failedTiles) - env.failedSaves)
  }

  lemma CompletedFilesShape(job: Job, pngExport: bool, env: JobEnv, fs: set<string>)
    requires JobResultOf(job, env) == Completed
    ensures RunJobSpec(job, pngExport, env, fs).files ==
      CleanedUp(JobAdds(job.file, job.group, env, fs) + (OutputPaths(job.file, job.group, pngExport) - env.failedSaves), ScratchDir(job.file))
  {
  }

  lemma {:induction false} JobAddsInScratch(f: ImageFile, g: string, env: JobEnv, fs: set<string>)
    requires WellFormed(f) && Separator !in g
    ensures forall p :: p in JobAdds(f, g, env, fs) && p !in fs ==> p == ScratchDir(f) || GetParent(p) == Some(ScratchDir(f))
  {
    var projections := Projections(f, Members(f.series, g), env.failedTiles);
    var scratch := ScratchDir(f);
    ScratchContents(f, g, env.failedTiles);
    forall p | p in JobAdds(f, g, env, fs) && p !in fs
      ensures p == scratch || GetParent(p) == Some(scratch)
    {
      if p != scratch && p != ConfigPath(f, g) {
        assert p in projections;
      }
    }
  }

  lemma OutputsOutsideScratch(f: ImageFile, g: string, pngExport: bool)
    requires WellFormed(f) && Separator !in g
    ensures forall o :: o in OutputPaths(f, g, pngExport) ==> o != ScratchDir(f) && GetParent(o) != Some(ScratchDir(f))
  {
    OutputLayout(f, g, pngExport);
  }

  /** Cleaning up after a job that only added the scratch directory and
      entries inside it, then its outputs outside it, leaves the outputs and
      the paths that were there before. */
  lemma CleanupAfterJob(fs: set<string>, fs3: set<string>, outputs: set<string>, scratch: string)
    requires fs <= fs3
    requires forall p :: p in fs3 && p !in fs ==> p == scratch || GetParent(p) == Some(scratch)
    requires forall o :: o in outputs ==> o != scratch && GetParent(o) != Some(scratch)
    ensures var r := CleanedUp(fs3 + outputs, scratch);
      && outputs <= r && scratch !in r
      && (forall p :: GetParent(p) == Some(scratch) ==> p !in r)
      && (forall p :: p != scratch && GetParent(p) != Some(scratch) ==> (p in r <==> p in fs || p in outputs))
  {
  }

  /** A job that ends with an exception saves no result and leaves its
      scratch directory behind. */
  lemma FailedJob(job: Job, pngExport: bool, env: JobEnv, fs: set<string>)
    requires WellFormed(job.file) && Separator !in job.group
    requires JobResultOf(job, env) != Completed
    ensures var run := RunJobSpec(job, pngExport, env, fs);
      && ScratchDir(job.file) in run.files
      && (forall o :: o in OutputPaths(job.file, job.group, pngExport) ==> (o in run.files <==> o in fs))
      && run.config == ConfigText(Tiles(Members(job.file.series, job.group)))[..|run.config|]
  {
    FailedJobFiles(job, pngExport, env, fs);
    ConfigWrittenPrefix(Members(job.file.series, job.group), env.failedTiles);
  }

  lemma FailedJobFiles(job: Job, pngExport: bool, env: JobEnv, fs: set<string>)
    requires WellFormed(job.file) && Separator !in job.group
    requires JobResultOf(job, env) != Completed
    ensures var run := RunJobSpec(job, pngExport, env, fs);
      && ScratchDir(job.file) in run.files
      && (forall o :: o in OutputPaths(job.file, job.group, pngExport) ==> (o in run.files <==> o in fs))
  {
    var f, g := job.file, job.group;
    var run := RunJobSpec(job, pngExport, env, fs);
    ScratchContents(f, g, env.failedTiles);
    OutputLayout(f, g, pngExport);
    assert run.files <= fs + {ScratchDir(f), ConfigPath(f, g)} + Projections(f, Members(f.series, g), env.failedTiles);
  }

  // ---------------------------------------------------------------------------
  // Running the ticked jobs (run, last loop)
  // ---------------------------------------------------------------------------

  /** The k-th checkbox answer; the dialog holds one checkbox per job. */
  predicate Ticked(answers: seq<bool>, k: nat)
  {
    k < |answers| && answers[k]
  }

  /** The jobs from position k on: an unticked job is skipped; a ticked job
      runs and the loop goes on after any exception but an interruption,
      which ends the command. The log lists (position, result) of every job
      that ran. */
  function RunFrom(jobs: seq<Job>, answers: seq<bool>, pngExport: bool, env: nat -> JobEnv,
                   fs: set<string>, k: nat): (seq<(nat, JobResult)>, set<string>)
    decreases |jobs| - k
  {
    if k >= |jobs| then ([], fs)
    else if !Ticked(answers, k) then RunFrom(jobs, answers, pngExport, env, fs, k + 1)
    else
      var run := RunJobSpec(jobs[k], pngExport, env(k), fs);
      if run.result == Interrupted then ([(k, Interrupted)], run.files)
      else
        var rest := RunFrom(jobs, answers, pngExport, env, run.files, k + 1);
        ([(k, run.result)] + rest.0, rest.1)
  }

  /** The loop over the jobs; `answers` is None when the dialog is cancelled. */
  method RunSelected(jobs: seq<Job>, answers: Option<seq<bool>>, pngExport: bool, env: nat -> JobEnv,
                     fs: set<string>) returns (log: seq<(nat, JobResult)>, files: set<string>)
    ensures answers.None? ==> log == [] && files == fs
    ensures answers.Some? ==> (log, files) == RunFrom(jobs, answers.value, pngExport, env, fs, 0)
  {
    log, files := [], fs;
    if answers.None? {
      return;
    }
    var ticks := answers.value;
    ghost var whole := RunFrom(jobs, ticks, pngExport, env, fs, 0);
    var k := 0;
    assert log + RunFrom(jobs, ticks, pngExport, env, files, k).0 == RunFrom(jobs, ticks, pngExport, env, files, k).0;
    while k < |jobs|
      invariant 0 <= k <= |jobs|
      invariant whole.0 == log + RunFrom(jobs, ticks, pngExport, env, files, k).0
      invariant whole.1 == RunFrom(jobs, ticks, pngExport, env, files, k).1
    {
      if k < |ticks| && ticks[k] {
        var run := RunJob(jobs[k], pngExport, env(k), files);
        RunFromTicked(jobs, ticks, pngExport, env, files, k);
        if run.result == Interrupted {
          log, files := log + [(k, Interrupted)], run.files;
          return;
        }
        RunFromContinues(jobs, ticks, pngExport, env, files, k, log, run);
        log, files := log + [(k, run.result)], run.files;
      }
      k := k + 1;
    }
    assert log + [] == log;
  }

  /** One ticked job, unfolded. */
  lemma RunFromTicked(jobs: seq<Job>, answers: seq<bool>, pngExport: bool, env: nat -> JobEnv,
                      fs: set<string>, k: nat)
    requires k < |jobs| && Ticked(answers, k)
    ensures var run := RunJobSpec(jobs[k], pngExport, env(k), fs);
      var rest := RunFrom(jobs, answers, pngExport, env, run.files, k + 1);
      RunFrom(jobs, answers, pngExport, env, fs, k)
      == if run.result == Interrupted then ([(k, Interrupted)], run.files)
         else ([(k, run.result)] + rest.0, rest.1)
  {
  }

  /** A ticked job that is not interrupted appends its entry and hands its
      filesystem on to the next position. */
  lemma {:induction false} RunFromContinues(jobs: seq<Job>, answers: seq<bool>, pngExport: bool, env: nat -> JobEnv,
                         fs: set<string>, k: nat, log: seq<(nat, JobResult)>, run: JobRun)
    requires k < |jobs| && Ticked(answers, k)
    requires run == RunJobSpec(jobs[k], pngExport, env(k), fs) && run.result != Interrupted
    ensures log + RunFrom(jobs, answers, pngExport, env, fs, k).0
            == (log + [(k, run.result)]) + RunFrom(jobs, answers, pngExport, env, run.files, k + 1).0
    ensures RunFrom(jobs, answers, pngExport, env, fs, k).1 == RunFrom(jobs, answers, pngExport, env, run.files, k + 1).1
  {
    var rest := RunFrom(jobs, answers, pngExport, env, run.files, k + 1);
    assert RunFrom(jobs, answers, pngExport, env, fs, k) == ([(k, run.result)] + rest.0, rest.1);
    assert log + ([(k, run.result)] + rest.0) == (log + [(k, run.result)]) + rest.0;
  }

  /** No ticked job between positions k and i was interrupted. */
  predicate NoInterruptionBefore(jobs: seq<Job>, answers: seq<bool>, env: nat -> JobEnv, k: nat, i: nat)
    requires i <= |jobs|
  {
    forall j :: k <= j < i && Ticked(answers, j) ==> JobResultOf(jobs[j], env(j)) != Interrupted
  }

  /** The schedule: a job runs exactly when it is ticked and no earlier
      ticked job was interrupted; jobs run in list order, and each logs the
      result its own world gives it. */
  lemma {:induction false} RunSchedule(jobs: seq<Job>, answers: seq<bool>, pngExport: bool,
                                       env: nat -> JobEnv, fs: set<string>, k: nat)
    requires k <= |jobs|
    ensures var log := RunFrom(jobs, answers, pngExport, env, fs, k).0;
      && (forall e :: e in log ==>
            k <= e.0 < |jobs| && Ticked(answers, e.0) && e.1 == JobResultOf(jobs[e.0], env(e.0))
            && NoInterruptionBefore(jobs, answers, env, k, e.0))
      && (forall i :: k <= i < |jobs| && Ticked(answers, i) && NoInterruptionBefore(jobs, answers, env, k, i) ==>
            (i, JobResultOf(jobs[i], env(i))) in log)
      && (forall a, b :: 0 <= a < b < |log| ==> log[a].0 < log[b].0)
    decreases |jobs| - k
  {
    RunLogSound(jobs, answers, pngExport, env, fs, k);
    RunLogComplete(jobs, answers, pngExport, env, fs, k);
    RunLogOrdered(jobs, answers, pngExport, env, fs, k);
  }

  /** Every logged job is ticked, logs its own result and ran after no
      interruption. */
  lemma {:induction false} RunLogSound(jobs: seq<Job>, answers: seq<bool>, pngExport: bool,
                                       env: nat -> JobEnv, fs: set<string>, k: nat)
    requires k <= |jobs|
    ensures forall e :: e in RunFrom(jobs, answers, pngExport, env, fs, k).0 ==>
              k <= e.0 < |jobs| && Ticked(answers, e.0) && e.1 == JobResultOf(jobs[e.0], env(e.0))
              && NoInterruptionBefore(jobs, answers, env, k, e.0)
    decreases |jobs| - k
  {
    if k < |jobs| {
      var log := RunFrom(jobs, answers, pngExport, env, fs, k).0;
      var run := RunJobSpec(jobs[k], pngExport, env(k), fs);
      var next := if Ticked(answers, k) then run.files else fs;
      RunLogSound(jobs, answers, pngExport, env, next, k + 1);
      var rest := RunFrom(jobs, answers, pngExport, env, next, k + 1).0;
      RunJobResult(jobs[k], pngExport, env(k), fs);
      forall e | e in log
        ensures k <= e.0 < |jobs| && Ticked(answers, e.0) && e.1 == JobResultOf(jobs[e.0], env(e.0))
                && NoInterruptionBefore(jobs, answers, env, k, e.0)
      {
        if e != (k, run.result) || !Ticked(answers, k) {
          assert e in rest;
          assert NoInterruptionBefore(jobs, answers, env, k + 1, e.0);
        }
      }
    }
  }

  /** Every ticked job with no interruption before it is logged with its
      result. */
  lemma {:induction false} RunLogComplete(jobs: seq<Job>, answers: seq<bool>, pngExport: bool,
                                          env: nat -> JobEnv, fs: set<string>, k: nat)
    requires k <= |jobs|
    ensures forall i :: k <= i < |jobs| && Ticked(answers, i) && NoInterruptionBefore(jobs, answers, env, k, i) ==>
              (i, JobResultOf(jobs[i], env(i))) in RunFrom(jobs, answers, pngExport, env, fs, k).0
    decreases |jobs| - k
  {
    if k < |jobs| {
      var log := RunFrom(jobs, answers, pngExport, env, fs, k).0;
      var run := RunJobSpec(jobs[k], pngExport, env(k), fs);
      var next := if Ticked(answers, k) then run.files else fs;
      RunLogComplete(jobs, answers, pngExport, env, next, k + 1);
      var rest := RunFrom(jobs, answers, pngExport, env, next, k + 1).0;
      RunJobResult(jobs[k], pngExport, env(k), fs);
      forall i | k <= i < |jobs| && Ticked(answers, i) && NoInterruptionBefore(jobs, answers, env, k, i)
        ensures (i, JobResultOf(jobs[i], env(i))) in log
      {
        if i > k {
          assert NoInterruptionBefore(jobs, answers, env, k + 1, i);
          if Ticked(answers, k) {
            assert JobResultOf(jobs[k], env(k)) != Interrupted;
            assert log == [(k, run.result)] + rest;
          }
        }
      }
    }
  }

  /** The log lists the jobs in list order. */
  lemma {:induction false} RunLogOrdered(jobs: seq<Job>, answers: seq<bool>, pngExport: bool,
                                         env: nat -> JobEnv, fs: set<string>, k: nat)
    requires k <= |jobs|
    ensures LogFrom(RunFrom(jobs, answers, pngExport, env, fs, k).0, k)
    decreases |jobs| - k
  {
    if k < |jobs| {
      var log := RunFrom(jobs, answers, pngExport, env, fs, k).0;
      var run := RunJobSpec(jobs[k], pngExport, env(k), fs);
      var next := if Ticked(answers, k) then run.files else fs;
      RunLogOrdered(jobs, answers, pngExport, env, next, k + 1);
      var rest := RunFrom(jobs, answers, pngExport, env, next, k + 1).0;
      if !Ticked(answers, k) {
        assert log == rest;
        LogFromWeaken(rest, k);
      } else if run.result == Interrupted {
        assert log == [(k, Interrupted)];
      } else {
        assert log == [(k, run.result)] + rest;
        LogFromCons(k, run.result, rest);
      }
    }
  }

  /** A log whose positions are at least k and strictly increasing. */
  predicate LogFrom(log: seq<(nat, JobResult)>, k: nat)
  {
    && (forall a :: 0 <= a < |log| ==> k <= log[a].0)
    && (forall a, b :: 0 <= a < b < |log| ==> log[a].0 < log[b].0)
  }

  lemma LogFromWeaken(log: seq<(nat, JobResult)>, k: nat)
    requires LogFrom(log, k + 1)
    ensures LogFrom(log, k)
  {
  }

  lemma LogFromCons(k: nat, r: JobResult, rest: seq<(nat, JobResult)>)
    requires LogFrom(rest, k + 1)
    ensures LogFrom([(k, r)] + rest, k)
  {
    var log := [(k, r)] + rest;
    forall a | 0 <= a < |log|
      ensures k <= log[a].0
    {
      if a > 0 { assert log[a] == rest[a - 1]; }
    }
    forall a, b | 0 <= a < b < |log|
      ensures log[a].0 < log[b].0
    {
      assert log[b] == rest[b - 1];
      if a > 0 { assert log[a] == rest[a - 1]; }
    }
  }

  // ---------------------------------------------------------------------------
  // The command
  // ---------------------------------------------------------------------------

  /** StitchTileScan.run: open the files, offer one job per file and group,
      and run the ticked ones. A path without a parent directory ends the
      command before the dialog. */
  method Run(paths: seq<string>, opts: Options, plainFiles: set<string>,
             backend: string -> Option<seq<SeriesMeta>>, answers: Option<seq<bool>>,
             env: nat -> JobEnv, fs: set<string>) returns (log: seq<(nat, JobResult)>, files: set<string>)
    ensures var loaded := LoadSpec(paths, opts.subfolder, plainFiles, backend);
      && (loaded.None? || answers.None? ==> log == [] && files == fs)
      && (loaded.Some? && answers.Some? ==>
            (log, files) == RunFrom(JobsOf(loaded.value), answers.value, opts.pngExport, env, fs, 0))
  {
    var loaded := LoadFiles(paths, opts.subfolder, plainFiles, backend);
    if loaded.None? {
      return [], fs;
    }
    var jobs := CreateJobs(loaded.value);
    log, files := RunSelected(jobs, answers, opts.pngExport, env, fs);
  }

  /** Every job the command builds is for a well-formed file and a group
      name without a separator, so the path lemmas apply to it. */
  lemma LoadedJobs(paths: seq<string>, subfolder: bool, plainFiles: set<string>,
                   backend: string -> Option<seq<SeriesMeta>>)
    ensures forall j :: j in JobsOf(OpenedFiles(paths, subfolder, plainFiles, backend)) ==>
              WellFormed(j.file) && Separator !in j.group
  {
    var files := OpenedFiles(paths, subfolder, plainFiles, backend);
    OpenedFilesSpec(paths, subfolder, plainFiles, backend);
    JobsOfSpec(files);
    forall j | j in JobsOf(files)
      ensures WellFormed(j.file) && Separator !in j.group
    {
      UniqueSeriesSpec(j.file);
      var i :| 0 <= i < |j.file.series| && j.file.series[i].name == j.group;
    }
  }
}
