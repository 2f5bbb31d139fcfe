/** RoiExtractor.java: clicking a ROI on the stitched image reads the tile's
    series index back out of the ROI label and queues the extraction of that
    tile's z-stack, one TIFF per channel, next to the other results; and the
    form autofills its file fields from the stitched or the original file. */
module RoiExtractor {
  import opened Text
  import opened Paths
  import opened SeriesInfo
  import opened ImageFiles
  import StitchTileScan

  // ---------------------------------------------------------------------------
  // The series index in a ROI label: find() with (?<=_mp_)\d+(?=\.tif)
  // ---------------------------------------------------------------------------

  const MpMarker: string := "_mp_"
  const TifSuffix: string := ".tif"

  /** The length of the run of digits that starts at i. */
  function DigitRun(s: string, i: nat): (d: nat)
    requires i <= |s|
    ensures i + d <= |s|
    ensures forall j :: i <= j < i + d ==> IsDigit(s[j])
    ensures i + d < |s| ==> !IsDigit(s[i + d])
    decreases |s| - i
  {
    if i < |s| && IsDigit(s[i]) then 1 + DigitRun(s, i + 1) else 0
  }

  /** A run of d digits from i that ends before a non-digit (or the end) is
      the whole run. */
  lemma {:induction false} DigitRunExact(s: string, i: nat, d: nat)
    requires i + d <= |s|
    requires forall j :: i <= j < i + d ==> IsDigit(s[j])
    requires i + d < |s| ==> !IsDigit(s[i + d])
    ensures DigitRun(s, i) == d
    decreases d
  {
    if d > 0 {
      DigitRunExact(s, i + 1, d - 1);
    }
  }

  /** The pattern matches at i: "_mp_" just before i, digits from i, and
      ".tif" right after the digits (the greedy run; see MatchAtBacktracking). */
  predicate MatchAt(s: string, i: nat)
    requires i <= |s|
  {
    && i >= |MpMarker| && StartsAt(s, MpMarker, i - |MpMarker|)
    && DigitRun(s, i) > 0 && StartsAt(s, TifSuffix, i + DigitRun(s, i))
  }

  /** Backtracking to a shorter run never helps, since a digit is not '.':
      the pattern matches at i exactly when some non-empty digit run from i
      is followed by ".tif", and that run is then the greedy one. */
  lemma MatchAtBacktracking(s: string, i: nat, d: nat)
    requires i <= |s|
    requires i >= |MpMarker| && StartsAt(s, MpMarker, i - |MpMarker|)
    requires 0 < d && i + d <= |s| && forall j :: i <= j < i + d ==> IsDigit(s[j])
    ensures StartsAt(s, TifSuffix, i + d) <==> MatchAt(s, i) && DigitRun(s, i) == d
  {
    if StartsAt(s, TifSuffix, i + d) {
      assert s[i + d] == s[i + d..i + d + 4][0] == '.';
      DigitRunExact(s, i, d);
    }
  }

  /** Matcher.find() from position i: the first position at or after i
      where the pattern matches. */
  function FindFrom(s: string, i: nat): (r: Option<nat>)
    requires i <= |s|
    ensures r.Some? ==> i <= r.value <= |s| && MatchAt(s, r.value)
    ensures forall j :: i <= j <= |s| && (r.None? || j < r.value) ==> !MatchAt(s, j)
    decreases |s| - i
  {
    if MatchAt(s, i) then Some(i)
    else if i == |s| then None
    else FindFrom(s, i + 1)
  }

  /** The value of the digit run that starts at i. */
  function RunValue(s: string, i: nat): nat
    requires i <= |s|
  {
    var digits := s[i..i + DigitRun(s, i)];
    assert AllDigits(digits) by {
      assert forall j :: 0 <= j < |digits| ==> digits[j] == s[i + j];
    }
    DigitsValue(digits)
  }

  /** Integer.parseInt(matcher.group(0)): the value of the digits of the
      first match, or None when find() fails. */
  function SeriesIndexOf(roiName: string): Option<nat>
  {
    match FindFrom(roiName, 0)
    case None => None
    case Some(i) => Some(RunValue(roiName, i))
  }

  /** The series index is read from the first match: it is the value of
      the digits there, and no earlier position matches; with no match
      there is no index. */
  lemma SeriesIndexOfSpec(roiName: string)
    ensures SeriesIndexOf(roiName).None? <==> forall j :: 0 <= j <= |roiName| ==> !MatchAt(roiName, j)
    ensures SeriesIndexOf(roiName).Some? ==>
      exists i :: 0 <= i <= |roiName| && MatchAt(roiName, i)
        && (forall j :: 0 <= j < i ==> !MatchAt(roiName, j))
        && SeriesIndexOf(roiName).value == RunValue(roiName, i)
  {
    match FindFrom(roiName, 0)
    case None =>
    case Some(i) =>
      assert MatchAt(roiName, i) && SeriesIndexOf(roiName).value == RunValue(roiName, i);
  }

  /** No occurrence of "_mp_" anywhere in the string. */
  predicate NoMarker(name: string)
  {
    forall k :: 0 <= k < |name| ==> !StartsAt(name, MpMarker, k)
  }

  /** Round trip with mp_title: for a name without "_mp_", the index read
      back from the title is the index it was built with. */
  lemma SeriesIndexOfMpTitle(name: string, index: nat)
    requires NoMarker(name)
    ensures SeriesIndexOf(MpTitle(name, index)) == Some(index)
  {
    var s := MpTitle(name, index);
    var p := |name| + 4;
    TitleMatch(name, index);
    forall j | 0 <= j < p
      ensures !MatchAt(s, j)
    {
      NoMatchInName(name, NatToString(index), j);
    }
    FirstMatchAt(s, p);
  }

  /** A title matches right after its marker, with the index's digits. */
  lemma {:induction false} TitleMatch(name: string, index: nat)
    ensures var s := MpTitle(name, index);
      |name| + 4 <= |s| && MatchAt(s, |name| + 4) && RunValue(s, |name| + 4) == index
  {
    var digits := NatToString(index);
    MpTitleIs(name, index);
    TitleParts(name, digits);
    MatchAfterMarker(MpTitle(name, index), |name| + 4, digits);
    DigitsValueOfNatToString(index);
  }

  lemma MpTitleIs(name: string, index: nat)
    ensures MpTitle(name, index) == name + MpMarker + NatToString(index) + TifSuffix
  {
  }

  lemma TitleParts(name: string, digits: string)
    ensures var s := name + MpMarker + digits + TifSuffix;
      var p := |name| + 4;
      && p + |digits| <= |s|
      && StartsAt(s, MpMarker, |name|) && s[p..p + |digits|] == digits && StartsAt(s, TifSuffix, p + |digits|)
  {
    var s := name + MpMarker + digits + TifSuffix;
    var p := |name| + 4;
    assert s[|name|..p] == MpMarker;
    assert s[p..p + |digits|] == digits;
    assert s[p + |digits|..p + |digits| + 4] == TifSuffix;
  }

  /** "_mp_", a non-empty run of digits and ".tif" make a match, whose value
      is that of the digits. */
  lemma MatchAfterMarker(s: string, p: nat, digits: string)
    requires p >= 4 && StartsAt(s, MpMarker, p - 4)
    requires |digits| > 0 && AllDigits(digits) && p + |digits| <= |s| && s[p..p + |digits|] == digits
    requires StartsAt(s, TifSuffix, p + |digits|)
    ensures MatchAt(s, p) && RunValue(s, p) == DigitsValue(digits)
  {
    DigitsBeforeTif(s, p, digits);
  }

  /** A run of digits followed by ".tif" is the whole run, and its value
      is read. */
  lemma DigitsBeforeTif(s: string, p: nat, digits: string)
    requires AllDigits(digits) && p + |digits| <= |s| && s[p..p + |digits|] == digits
    requires StartsAt(s, TifSuffix, p + |digits|)
    ensures DigitRun(s, p) == |digits| && RunValue(s, p) == DigitsValue(digits)
  {
    assert forall j :: p <= j < p + |digits| ==> s[j] == digits[j - p];
    assert s[p + |digits|] == s[p + |digits|..p + |digits| + 4][0] == '.';
    DigitRunExact(s, p, |digits|);
  }

  /** The index is read from the first matching position. */
  lemma FirstMatchAt(s: string, p: nat)
    requires p <= |s| && MatchAt(s, p)
    requires forall j :: 0 <= j < p ==> !MatchAt(s, j)
    ensures SeriesIndexOf(s) == Some(RunValue(s, p))
  {
    assert FindFrom(s, 0) == Some(p);
  }

  /** Before the digits of a title there is no match: a lookbehind that
      fits in the name would be a "_mp_" in the name, and the positions
      inside the marker hold no digit. */
  lemma NoMatchInName(name: string, digits: string, j: nat)
    requires NoMarker(name)
    requires j < |name| + 4
    ensures !MatchAt(name + MpMarker + digits + TifSuffix, j)
  {
    var s := name + MpMarker + digits + TifSuffix;
    if j >= 4 && j <= |name| {
      assert s[j - 4..j] == name[j - 4..j];
      assert !StartsAt(name, MpMarker, j - 4);
    } else if j > |name| {
      assert s[j] == MpMarker[j - |name|];
      assert !IsDigit(s[j]);
    }
  }

  // ---------------------------------------------------------------------------
  // mouseClicked: the selection guard
  // ---------------------------------------------------------------------------

  /** An extraction request: the series to read and the ROI's 1-based
      position in the manager. */
  datatype Task = Task(seriesIndex: nat, ordinal: nat)

  /** What a click does: nothing (getSelectedRoisAsArray returns more or
      fewer than one ROI), a NullPointerException in the loop (it returns
      no array at all), nothing
      (the label holds no series index), or a queued extraction. */
  datatype Click = Ignored | NullSelection | NoSeriesIndex | Submitted(task: Task)

  /** mouseClicked. `labels` are the names of the ROIs in the manager;
      `selection` the manager positions of the ROIs getSelectedRoisAsArray
      returns (which ImageJ may widen to every ROI when none is selected),
      or None when it returns null. */
  function OnClick(labels: seq<string>, selection: Option<seq<nat>>): (c: Click)
    requires selection.Some? ==> forall k :: 0 <= k < |selection.value| ==> selection.value[k] < |labels|
    ensures c == Ignored <==> selection.Some? && |selection.value| != 1
    ensures c == NullSelection <==> selection.None?
    ensures c.Submitted? <==>
      selection.Some? && |selection.value| == 1 && SeriesIndexOf(labels[selection.value[0]]).Some?
    ensures c.Submitted? ==>
      c.task.seriesIndex == SeriesIndexOf(labels[selection.value[0]]).value
      && c.task.ordinal == selection.value[0] + 1
  {
    match selection
    case None => NullSelection
    case Some(sel) =>
      if |sel| != 1 then Ignored
      else match SeriesIndexOf(labels[sel[0]])
        case None => NoSeriesIndex
        case Some(i) => Submitted(Task(i, sel[0] + 1))
  }

  /** Clicking the one selected ROI labelled with a tile's projection
      title queues that tile's series, numbered by the ROI's position. */
  lemma ClickOnTile(labels: seq<string>, k: nat, name: string, index: nat)
    requires k < |labels| && labels[k] == MpTitle(name, index) && NoMarker(name)
    ensures OnClick(labels, Some([k])) == Submitted(Task(index, k + 1))
  {
    SeriesIndexOfMpTitle(name, index);
  }

  // ---------------------------------------------------------------------------
  // The extraction task: one TIFF per channel, never overwriting
  // ---------------------------------------------------------------------------

  /** base_path: <output_dir>/<base_name>_zstack_<ordinal>. */
  function ZStackBase(outputDir: string, baseName: string, ordinal: nat): string
  {
    Join(outputDir, baseName + "_zstack_" + NatToString(ordinal))
  }

  /** The file of channel c: <base_path>_channel_<c>.tif. */
  function ChannelPath(base: string, c: nat): string
  {
    base + "_channel_" + NatToString(c) + ".tif"
  }

  /** The digits in front of a non-digit are the whole leading digit run. */
  lemma LeadingDigits(a: string, t: string)
    requires AllDigits(a) && t != [] && !IsDigit(t[0])
    ensures DigitRun(a + t, 0) == |a|
  {
    var x := a + t;
    assert forall j :: 0 <= j < |a| ==> x[j] == a[j];
    assert x[|a|] == t[0];
    DigitRunExact(x, 0, |a|);
  }

  /** Digits followed by a non-digit split uniquely. */
  lemma DigitsPrefix(a: string, t: string, b: string, u: string)
    requires AllDigits(a) && AllDigits(b)
    requires t != [] && !IsDigit(t[0]) && u != [] && !IsDigit(u[0])
    requires a + t == b + u
    ensures a == b && t == u
  {
    LeadingDigits(a, t);
    LeadingDigits(b, u);
    assert a == (a + t)[..|a|] && b == (b + u)[..|b|];
    assert t == (a + t)[|a|..] && u == (b + u)[|b|..];
  }

  /** Equal strings with a common prefix agree after it. */
  lemma DropPrefix(pre: string, x: string, y: string)
    requires pre + x == pre + y
    ensures x == y
  {
    assert x == (pre + x)[|pre|..] && y == (pre + y)[|pre|..];
  }

  /** Different channels of one base get different files. */
  lemma ChannelPathInjective(base: string, c1: nat, c2: nat)
    requires ChannelPath(base, c1) == ChannelPath(base, c2)
    ensures c1 == c2
  {
    var d1, d2 := NatToString(c1), NatToString(c2);
    var pre := base + "_channel_";
    assert ChannelPath(base, c1) == pre + (d1 + ".tif");
    assert ChannelPath(base, c2) == pre + (d2 + ".tif");
    DropPrefix(pre, d1 + ".tif", d2 + ".tif");
    DigitsPrefix(d1, ".tif", d2, ".tif");
    NatToStringInjective(c1, c2);
  }

  /** The channel file of a ROI, cut after the fixed part of the path. */
  lemma ChannelPathShape(outputDir: string, baseName: string, ordinal: nat, c: nat)
    ensures ChannelPath(ZStackBase(outputDir, baseName, ordinal), c)
      == (outputDir + [Separator] + baseName + "_zstack_")
         + (NatToString(ordinal) + ("_channel_" + (NatToString(c) + ".tif")))
  {
  }

  /** The channel files of different ROIs, or of different channels, are
      different files: the path determines ordinal and channel. */
  lemma ChannelPathsDistinct(outputDir: string, baseName: string, o1: nat, c1: nat, o2: nat, c2: nat)
    requires ChannelPath(ZStackBase(outputDir, baseName, o1), c1) == ChannelPath(ZStackBase(outputDir, baseName, o2), c2)
    ensures o1 == o2 && c1 == c2
  {
    var e1, e2 := NatToString(o1), NatToString(o2);
    var f1, f2 := NatToString(c1) + ".tif", NatToString(c2) + ".tif";
    ChannelPathShape(outputDir, baseName, o1, c1);
    ChannelPathShape(outputDir, baseName, o2, c2);
    DropPrefix(outputDir + [Separator] + baseName + "_zstack_", e1 + ("_channel_" + f1), e2 + ("_channel_" + f2));
    DigitsPrefix(e1, "_channel_" + f1, e2, "_channel_" + f2);
    NatToStringInjective(o1, o2);
    DropPrefix("_channel_", f1, f2);
    DigitsPrefix(NatToString(c1), ".tif", NatToString(c2), ".tif");
    NatToStringInjective(c1, c2);
  }

  lemma DigitsNoSeparator(d: string)
    requires AllDigits(d)
    ensures Separator !in d
  {
    assert forall k :: 0 <= k < |d| ==> IsDigit(d[k]);
  }

  /** The file name of channel c of a ROI. */
  function ChannelFileName(baseName: string, ordinal: nat, c: nat): string
  {
    baseName + "_zstack_" + NatToString(ordinal) + "_channel_" + NatToString(c) + ".tif"
  }

  lemma ChannelFileNameNoSeparator(baseName: string, ordinal: nat, c: nat)
    requires Separator !in baseName
    ensures Separator !in ChannelFileName(baseName, ordinal, c)
  {
    DigitsNoSeparator(NatToString(ordinal));
    DigitsNoSeparator(NatToString(c));
  }

  /** The channel files land directly in the output directory, under the
      file name <base_name>_zstack_<ordinal>_channel_<c>.tif. */
  lemma ChannelPathPlace(outputDir: string, baseName: string, ordinal: nat, c: nat)
    requires |outputDir| > 0 && Separator !in baseName
    ensures GetParent(ChannelPath(ZStackBase(outputDir, baseName, ordinal), c)) == Some(outputDir)
    ensures GetName(ChannelPath(ZStackBase(outputDir, baseName, ordinal), c)) == ChannelFileName(baseName, ordinal, c)
  {
    var name := ChannelFileName(baseName, ordinal, c);
    assert ChannelPath(ZStackBase(outputDir, baseName, ordinal), c) == Join(outputDir, name);
    ChannelFileNameNoSeparator(baseName, ordinal, c);
    JoinParts(outputDir, name);
  }

  /** Channel c cannot be saved: its file exists already, or saveAsTiff
      fails (`saveFails` are the channels whose save fails). */
  predicate Refused(base: string, c: nat, saveFails: set<nat>, fs: set<string>)
  {
    ChannelPath(base, c) in fs || c in saveFails
  }

  /** The files the first n channels add to the existing files fs. */
  function Written(base: string, n: nat, saveFails: set<nat>, fs: set<string>): set<string>
  {
    set c | 0 <= c < n && !Refused(base, c, saveFails, fs) :: ChannelPath(base, c)
  }

  /** The log lines for the first n channels, in channel order. */
  function SaveErrors(base: string, n: nat, saveFails: set<nat>, fs: set<string>): seq<string>
  {
    if n == 0 then []
    else SaveErrors(base, n - 1, saveFails, fs)
         + (if Refused(base, n - 1, saveFails, fs) then ["Error saving to " + ChannelPath(base, n - 1)] else [])
  }

  /** The loop over the channels: an existing target is not touched and a
      failed save writes nothing; either way an error is logged and the
      loop goes on. `fs` are the paths that exist beforehand. */
  method WriteChannels(base: string, count: nat, saveFails: set<nat>, fs: set<string>)
    returns (files: set<string>, errors: seq<string>)
    ensures files == fs + Written(base, count, saveFails, fs)
    ensures errors == SaveErrors(base, count, saveFails, fs)
  {
    files, errors := fs, [];
    var c := 0;
    while c < count
      invariant 0 <= c <= count
      invariant files == fs + Written(base, c, saveFails, fs)
      invariant errors == SaveErrors(base, c, saveFails, fs)
    {
      var path := ChannelPath(base, c);
      NotYetWritten(base, c, saveFails, fs);
      if path in files || c in saveFails {
        errors := errors + ["Error saving to " + path];
      } else {
        files := files + {path};
      }
      WrittenStep(base, c, saveFails, fs);
      c := c + 1;
    }
  }

  /** Channel c's file is not among those the earlier channels wrote. */
  lemma NotYetWritten(base: string, c: nat, saveFails: set<nat>, fs: set<string>)
    ensures ChannelPath(base, c) !in Written(base, c, saveFails, fs)
  {
    if ChannelPath(base, c) in Written(base, c, saveFails, fs) {
      var k :| 0 <= k < c && !Refused(base, k, saveFails, fs) && ChannelPath(base, k) == ChannelPath(base, c);
      ChannelPathInjective(base, k, c);
    }
  }

  lemma WrittenStep(base: string, c: nat, saveFails: set<nat>, fs: set<string>)
    ensures Written(base, c + 1, saveFails, fs)
      == Written(base, c, saveFails, fs) + (if Refused(base, c, saveFails, fs) then {} else {ChannelPath(base, c)})
  {
  }

  /** No overwriting and no silent loss: every file the loop adds was
      absent before, and every channel either gets its file or an error
      line naming that file, never both. */
  lemma {:induction false} WriteChannelsOutcome(base: string, count: nat, saveFails: set<nat>, fs: set<string>)
    ensures fs !! Written(base, count, saveFails, fs)
    ensures forall c :: 0 <= c < count ==>
      (ChannelPath(base, c) in Written(base, count, saveFails, fs) <==> !Refused(base, c, saveFails, fs))
    ensures forall c :: 0 <= c < count ==>
      (("Error saving to " + ChannelPath(base, c)) in SaveErrors(base, count, saveFails, fs) <==> Refused(base, c, saveFails, fs))
    ensures |SaveErrors(base, count, saveFails, fs)| <= count
  {
    forall c | 0 <= c < count
      ensures ChannelPath(base, c) in Written(base, count, saveFails, fs) ==> !Refused(base, c, saveFails, fs)
    {
      if ChannelPath(base, c) in Written(base, count, saveFails, fs) {
        var k :| 0 <= k < count && !Refused(base, k, saveFails, fs) && ChannelPath(base, k) == ChannelPath(base, c);
        ChannelPathInjective(base, k, c);
      }
    }
    SaveErrorsNames(base, count, saveFails, fs);
  }

  /** The error lines name exactly the refused channels below n. */
  lemma {:induction false} SaveErrorsNames(base: string, n: nat, saveFails: set<nat>, fs: set<string>)
    ensures |SaveErrors(base, n, saveFails, fs)| <= n
    ensures forall c :: 0 <= c < n ==>
      (("Error saving to " + ChannelPath(base, c)) in SaveErrors(base, n, saveFails, fs) <==> Refused(base, c, saveFails, fs))
    ensures forall e :: e in SaveErrors(base, n, saveFails, fs) ==>
      exists c :: 0 <= c < n && e == "Error saving to " + ChannelPath(base, c)
  {
    if n > 0 {
      SaveErrorsNames(base, n - 1, saveFails, fs);
      forall c | 0 <= c < n
        ensures ("Error saving to " + ChannelPath(base, c)) in SaveErrors(base, n, saveFails, fs) <==> Refused(base, c, saveFails, fs)
      {
        ErrorLineOf(base, c, n - 1, saveFails, fs);
      }
    }
  }

  /** The error line of channel c is in the lines of channels below n + 1
      exactly when c's is among those below n or c is channel n and
      refused. */
  lemma ErrorLineOf(base: string, c: nat, n: nat, saveFails: set<nat>, fs: set<string>)
    requires c <= n
    requires forall e :: e in SaveErrors(base, n, saveFails, fs) ==>
      exists k :: 0 <= k < n && e == "Error saving to " + ChannelPath(base, k)
    requires c < n ==>
      (("Error saving to " + ChannelPath(base, c)) in SaveErrors(base, n, saveFails, fs) <==> Refused(base, c, saveFails, fs))
    ensures ("Error saving to " + ChannelPath(base, c)) in SaveErrors(base, n + 1, saveFails, fs) <==> Refused(base, c, saveFails, fs)
  {
    var line := "Error saving to " + ChannelPath(base, c);
    var last := "Error saving to " + ChannelPath(base, n);
    if c == n {
      if line in SaveErrors(base, n, saveFails, fs) {
        var k :| 0 <= k < n && line == "Error saving to " + ChannelPath(base, k);
        assert ChannelPath(base, k) == line[16..];
        ChannelPathInjective(base, k, c);
      }
    } else if line == last {
      assert ChannelPath(base, c) == line[16..] == ChannelPath(base, n);
      ChannelPathInjective(base, c, n);
    }
  }

  /** A line of the log. `Exception` stands for log.error(e.toString()) of
      an exception the task catches; the text of the exception is not
      modelled. */
  datatype LogLine = Info(text: string) | Error(text: string) | Exception

  function ErrorLines(errors: seq<string>): (lines: seq<LogLine>)
    ensures |lines| == |errors|
    ensures forall k :: 0 <= k < |errors| ==> lines[k] == Error(errors[k])
  {
    seq(|errors|, k requires 0 <= k < |errors| => Error(errors[k]))
  }

  /** The task a click submits, as a value: the files that exist afterwards
      and the lines it logs. `stack` is the number of channels
      ChannelSplitter finds in the opened z-stack of the series, or None
      when opening it throws; a series index past the end of the list
      throws IndexOutOfBoundsException. Both are caught and logged. */
  function ExtractSpec(task: Task, f: ImageFile, outputDir: string, stack: Option<nat>,
                       saveFails: set<nat>, fs: set<string>): (set<string>, seq<LogLine>)
  {
    if task.seriesIndex >= |f.series| || stack.None? then (fs, [Exception])
    else
      var base := ZStackBase(outputDir, f.baseName, task.ordinal);
      (fs + Written(base, stack.value, saveFails, fs),
       ErrorLines(SaveErrors(base, stack.value, saveFails, fs)) + [Info("Done writing ROI " + NatToString(task.ordinal))])
  }

  /** The submitted lambda: build the base path, open the series, write
      its channels and report. */
  method Extract(task: Task, f: ImageFile, outputDir: string, stack: Option<nat>,
                 saveFails: set<nat>, fs: set<string>)
    returns (files: set<string>, log: seq<LogLine>)
    ensures (files, log) == ExtractSpec(task, f, outputDir, stack, saveFails, fs)
  {
    var base := ZStackBase(outputDir, f.baseName, task.ordinal);
    if task.seriesIndex >= |f.series| || stack.None? {
      return fs, [Exception];
    }
    var errors;
    files, errors := WriteChannels(base, stack.value, saveFails, fs);
    log := ErrorLines(errors) + [Info("Done writing ROI " + NatToString(task.ordinal))];
  }

  /** What an extraction leaves behind: nothing when it fails, and
      otherwise only new files, all of them channel files of this ROI in the
      output directory, with the report as the last line. */
  lemma ExtractOutcome(task: Task, f: ImageFile, outputDir: string, stack: Option<nat>,
                       saveFails: set<nat>, fs: set<string>)
    requires WellFormed(f) && |outputDir| > 0
    ensures var (files, log) := ExtractSpec(task, f, outputDir, stack, saveFails, fs);
      && fs <= files
      && (task.seriesIndex >= |f.series| || stack.None? ==> files == fs && log == [Exception])
      && (task.seriesIndex < |f.series| && stack.Some? ==>
            && log[|log| - 1] == Info("Done writing ROI " + NatToString(task.ordinal))
            && forall p :: p in files - fs ==>
                 p !in fs && GetParent(p) == Some(outputDir)
                 && exists c :: 0 <= c < stack.value && p == ChannelPath(ZStackBase(outputDir, f.baseName, task.ordinal), c))
  {
    if task.seriesIndex < |f.series| && stack.Some? {
      StitchTileScan.BaseNameNoSeparator(f);
      forall c | 0 <= c < stack.value
        ensures GetParent(ChannelPath(ZStackBase(outputDir, f.baseName, task.ordinal), c)) == Some(outputDir)
      {
        ChannelPathPlace(outputDir, f.baseName, task.ordinal, c);
      }
    }
  }

  // ---------------------------------------------------------------------------
  // Autofill of the form's file fields
  // ---------------------------------------------------------------------------

  /** The original-file candidate at underscore u: the path up to u with
      ".lif" appended, when that file exists. */
  predicate LifHit(s: string, u: nat, isFile: set<string>)
  {
    0 < u < |s| && s[u] == '_' && s[..u] + ".lif" in isFile
  }

  /** The underscore scan from position i (an underscore, or -1 when there
      is none left): the first candidate that is a file. */
  function LifScan(s: string, i: int, isFile: set<string>): Option<string>
    requires i == -1 || 0 <= i < |s|
    decreases if i <= 0 then 0 else |s| - i + 1
  {
    if i <= 0 then None
    else if s[..i] + ".lif" in isFile then Some(s[..i] + ".lif")
    else LifScan(s, IndexOfFrom(s, '_', i + 1), isFile)
  }

  /** The scan as stitched_file_changed starts it, at the first underscore. */
  function LifCandidate(s: string, isFile: set<string>): Option<string>
  {
    LifScan(s, IndexOf(s, '_'), isFile)
  }

  /** From an underscore i > 0 on, the scan finds the first hit. */
  lemma {:induction false} LifScanSpec(s: string, i: nat, isFile: set<string>)
    requires 0 < i < |s| && s[i] == '_'
    ensures LifScan(s, i, isFile).Some? ==>
      exists u :: i <= u < |s| && LifHit(s, u, isFile) && LifScan(s, i, isFile) == Some(s[..u] + ".lif")
        && forall v :: i <= v < u ==> !LifHit(s, v, isFile)
    ensures LifScan(s, i, isFile).None? ==> forall u :: i <= u < |s| ==> !LifHit(s, u, isFile)
    decreases |s| - i
  {
    if s[..i] + ".lif" in isFile {
      assert LifHit(s, i, isFile);
    } else {
      var next := IndexOfFrom(s, '_', i + 1);
      assert forall v :: i <= v < |s| && (next == -1 || v < next) ==> !LifHit(s, v, isFile);
      assert LifScan(s, i, isFile) == LifScan(s, next, isFile);
      if next > 0 {
        LifScanSpec(s, next, isFile);
        if LifScan(s, next, isFile).Some? {
          var u :| next <= u < |s| && LifHit(s, u, isFile) && LifScan(s, next, isFile) == Some(s[..u] + ".lif")
            && forall v :: next <= v < u ==> !LifHit(s, v, isFile);
          assert forall v :: i <= v < u ==> !LifHit(s, v, isFile);
          assert i <= u < |s| && LifHit(s, u, isFile) && LifScan(s, i, isFile) == Some(s[..u] + ".lif");
        }
      }
    }
  }

  /** The .lif autofill: the scan starts only when the first underscore is
      past index 0; then it yields the candidate of the first underscore
      whose .lif file exists, and nothing when there is none. */
  lemma LifCandidateSpec(s: string, isFile: set<string>)
    ensures IndexOf(s, '_') <= 0 ==> LifCandidate(s, isFile).None?
    ensures IndexOf(s, '_') > 0 ==>
      (LifCandidate(s, isFile).None? <==> forall u :: 0 <= u < |s| ==> !LifHit(s, u, isFile))
    ensures LifCandidate(s, isFile).Some? ==>
      exists u: nat :: LifHit(s, u, isFile) && LifCandidate(s, isFile) == Some(s[..u] + ".lif")
        && forall v :: 0 <= v < u ==> !LifHit(s, v, isFile)
  {
    var i := IndexOf(s, '_');
    if i > 0 {
      LifScanSpec(s, i, isFile);
    }
  }

  /** A stitched path <x>_<rest> whose first part has no underscore finds
      <x>.lif when that file exists. */
  lemma LifFromStitchedName(x: string, rest: string, isFile: set<string>)
    requires x != [] && '_' !in x && x + ".lif" in isFile
    ensures LifCandidate(x + "_" + rest, isFile) == Some(x + ".lif")
  {
    var s := x + "_" + rest;
    assert s == x + ['_'] + rest;
    IndexOfAfterPrefix(x, '_', rest);
    assert s[..|x|] == x;
  }

  /** The ROI set that belongs to a stitched image: every "_stitch.tif"
      in its path replaced by "_ROIset.zip". */
  function RoiSetFor(stitched: string): string
  {
    ReplaceAll(stitched, "_stitch.tif", "_ROIset.zip")
  }

  /** The stitcher's TIFF leads back to the stitcher's ROI set, as long as
      "_stitch.tif" does not also occur earlier in the path. */
  lemma RoiSetForStitcherOutput(f: ImageFile, group: string, pngExport: bool)
    requires forall i :: 0 <= i < |StitchTileScan.SaveBase(f, group)| ==>
      !StartsAt(StitchTileScan.SaveBase(f, group) + "_stitch.tif", "_stitch.tif", i)
    ensures StitchTileScan.SaveBase(f, group) + "_stitch.tif" in StitchTileScan.OutputPaths(f, group, pngExport)
    ensures RoiSetFor(StitchTileScan.SaveBase(f, group) + "_stitch.tif") == StitchTileScan.SaveBase(f, group) + "_ROIset.zip"
    ensures StitchTileScan.SaveBase(f, group) + "_ROIset.zip" in StitchTileScan.OutputPaths(f, group, pngExport)
  {
    ReplaceSuffix(StitchTileScan.SaveBase(f, group), "_stitch.tif", "_ROIset.zip");
  }

  /** The file-name pattern <base>_.*<suffix> of list_files_regex, with the
      base name read literally: the base, '_', any text without line
      terminators, and the suffix. */
  predicate NameMatches(name: string, base: string, suffix: string)
  {
    && |base| + 1 + |suffix| <= |name|
    && name[..|base|] == base && name[|base|] == '_'
    && EndsWith(name, suffix)
    && forall k :: |base| + 1 <= k < |name| - |suffix| ==> !StitchTileScan.IsLineTerminator(name[k])
  }

  /** list_files_regex(new File(original.getParent()), basename + "_.*" + suffix):
      the entries of the original file's directory whose names match, with
      basename the original's name without extension; `existing` are the
      paths that exist. */
  function Candidates(existing: set<string>, original: string, suffix: string): set<string>
  {
    set p | p in existing && GetParent(p) == GetParent(original)
              && NameMatches(GetName(p), RemoveExtension(GetName(original)), suffix)
  }

  /** The name of a result of the stitcher: <base_name>_<group> and the
      result's suffix, in the image file's directory. */
  lemma StitcherOutputName(f: ImageFile, group: string, ext: string)
    requires WellFormed(f) && Separator !in group && Separator !in ext
    ensures GetParent(StitchTileScan.SaveBase(f, group) + ext) == GetParent(f.path)
    ensures GetName(StitchTileScan.SaveBase(f, group) + ext) == f.baseName + "_" + group + ext
  {
    StitchTileScan.BaseNameNoSeparator(f);
    var stem := f.baseName + "_" + group;
    assert StitchTileScan.SaveBase(f, group) + ext == Join(ParentOrNull(f.path), stem + ext);
    JoinParts(ParentOrNull(f.path), stem + ext);
  }

  /** <base>_<mid><suffix> matches the pattern when mid has no line
      terminator. */
  lemma NameMatchesParts(base: string, mid: string, suffix: string)
    requires forall k :: 0 <= k < |mid| ==> !StitchTileScan.IsLineTerminator(mid[k])
    ensures NameMatches(base + "_" + mid + suffix, base, suffix)
  {
    var name := base + "_" + mid + suffix;
    assert name[..|base|] == base && name[|base|] == '_';
    assert name[|name| - |suffix|..] == suffix;
    assert forall k :: |base| + 1 <= k < |name| - |suffix| ==> name[k] == mid[k - |base| - 1];
  }

  /** The autofill from the original file finds the stitcher's ROI set: its
      name is the original's base name, '_', the group and "_ROIset.zip". */
  lemma StitcherRoiSetListed(f: ImageFile, group: string, existing: set<string>)
    requires WellFormed(f) && Separator !in group
    requires forall k :: 0 <= k < |group| ==> !StitchTileScan.IsLineTerminator(group[k])
    requires StitchTileScan.SaveBase(f, group) + "_ROIset.zip" in existing
    ensures StitchTileScan.SaveBase(f, group) + "_ROIset.zip"
      in Candidates(existing, f.path, "_ROIset.zip")
  {
    StitcherOutputName(f, group, "_ROIset.zip");
    NameMatchesParts(f.baseName, group, "_ROIset.zip");
  }

  /** The autofill of the stitched image looks for "_stitch.png", which no
      result of the stitcher ends with: it writes "_stitch.tif" and
      "_stitched.png". So it never picks up the stitcher's own output. */
  lemma StitcherOutputsNotListedAsStitch(f: ImageFile, group: string, pngExport: bool,
                                         existing: set<string>, original: string)
    requires WellFormed(f) && Separator !in group
    ensures forall o :: o in StitchTileScan.OutputPaths(f, group, pngExport) ==>
      o !in Candidates(existing, original, "_stitch.png")
  {
    var sb := StitchTileScan.SaveBase(f, group);
    var base := RemoveExtension(GetName(original));
    NotListedAsStitch(f, group, "_ROIset.zip", base);
    NotListedAsStitch(f, group, "_stitch.tif", base);
    NotListedAsStitch(f, group, "_stitched.png", base);
    assert StitchTileScan.OutputPaths(f, group, pngExport) <= {sb + "_ROIset.zip", sb + "_stitch.tif", sb + "_stitched.png"};
  }

  lemma NotListedAsStitch(f: ImageFile, group: string, ext: string, base: string)
    requires WellFormed(f) && Separator !in group
    requires ext in {"_ROIset.zip", "_stitch.tif", "_stitched.png"}
    ensures !NameMatches(GetName(StitchTileScan.SaveBase(f, group) + ext), base, "_stitch.png")
  {
    StitcherOutputName(f, group, ext);
    var name := f.baseName + "_" + group + ext;
    assert name[|name| - |ext|..] == ext;
    NotStitchPng(name, ext);
  }

  lemma NotStitchPng(x: string, ext: string)
    requires ext in {"_ROIset.zip", "_stitch.tif", "_stitched.png"} && EndsWith(x, ext)
    ensures !EndsWith(x, "_stitch.png")
  {
    if ext == "_stitched.png" {
      assert x[|x| - 11] == ext[2] == 't';
    } else {
      assert x[|x| - 3] == ext[8] != 'p';
    }
  }

  /** Why original_file_changed throws: the original file has no parent, so
      new File(null) fails (NullPointerException), or the parent is not a
      directory (IllegalArgumentException). */
  datatype Autofill = NothingToDo | Filled | NoParent | NotADirectory(dir: string)

  /** The four file fields of the form; None is a null field. */
  class Form {
    var stitchedFile: Option<string>
    var originalFile: Option<string>
    var roiFile: Option<string>
    var outputDir: Option<string>

    /** The fields are not persisted, so the form opens empty. */
    constructor ()
      ensures stitchedFile.None? && originalFile.None? && roiFile.None? && outputDir.None?
    {
      stitchedFile, originalFile, roiFile, outputDir := None, None, None, None;
    }

    /** stitched_file_changed: scan the underscores for the .lif file,
        swap the suffix for the ROI set, and propose zstacks beside the
        stitched image. `isFile` are the paths that are regular files. */
    method StitchedFileChanged(isFile: set<string>)
      modifies this
      ensures stitchedFile == old(stitchedFile)
      ensures old(stitchedFile).None? ==>
        originalFile == old(originalFile) && roiFile == old(roiFile) && outputDir == old(outputDir)
      ensures old(stitchedFile).Some? ==>
        var s := old(stitchedFile).value;
        && originalFile == (if LifCandidate(s, isFile).Some? then LifCandidate(s, isFile) else old(originalFile))
        && roiFile == (if RoiSetFor(s) in isFile then Some(RoiSetFor(s)) else old(roiFile))
        && outputDir == Some(Join(ParentOrNull(s), "zstacks"))
    {
      if stitchedFile.None? {
        return;
      }
      var stitched := stitchedFile.value;
      var i := IndexOf(stitched, '_');
      while i > 0 && i < |stitched|
        invariant i == -1 || 0 <= i < |stitched|
        invariant LifScan(stitched, i, isFile) == LifCandidate(stitched, isFile)
        invariant originalFile == old(originalFile) && stitchedFile == old(stitchedFile)
        decreases if i <= 0 then 0 else |stitched| - i + 1
      {
        var candidate := stitched[..i] + ".lif";
        if candidate in isFile {
          originalFile := Some(candidate);
          break;
        }
        i := IndexOfFrom(stitched, '_', i + 1);
      }
      var roi := RoiSetFor(stitched);
      if roi in isFile {
        roiFile := Some(roi);
      }
      outputDir := Some(Join(ParentOrNull(stitched), "zstacks"));
    }

    /** original_file_changed: fill the ROI set and the stitched image in
        only when exactly one file in the original's directory matches, and
        propose zstacks beside the original. `existing` are the paths that
        exist, `dirs` those that are directories. */
    method OriginalFileChanged(existing: set<string>, dirs: set<string>) returns (outcome: Autofill)
      modifies this
      ensures originalFile == old(originalFile)
      ensures outcome == if old(originalFile).None? then NothingToDo else OriginalOutcome(old(originalFile).value, dirs)
      ensures outcome != Filled ==>
        stitchedFile == old(stitchedFile) && roiFile == old(roiFile) && outputDir == old(outputDir)
      ensures outcome == Filled ==>
        var o := old(originalFile).value;
        && FilledIfUnique(old(roiFile), roiFile, Candidates(existing, o, "_ROIset.zip"))
        && FilledIfUnique(old(stitchedFile), stitchedFile, Candidates(existing, o, "_stitch.png"))
        && outputDir == Some(Join(GetParent(o).value, "zstacks"))
    {
      if originalFile.None? {
        return NothingToDo;
      }
      outcome := OriginalOutcome(originalFile.value, dirs);
      if outcome == Filled {
        var original := originalFile.value;
        Fill(Candidates(existing, original, "_ROIset.zip"), Candidates(existing, original, "_stitch.png"),
             GetParent(original).value);
      }
    }

    /** The fields original_file_changed fills once the listing succeeds:
        the ROI set and the stitched image from their matches, and the
        output directory. */
    method Fill(roiSets: set<string>, stitches: set<string>, dir: string)
      modifies this
      ensures originalFile == old(originalFile)
      ensures FilledIfUnique(old(roiFile), roiFile, roiSets)
      ensures FilledIfUnique(old(stitchedFile), stitchedFile, stitches)
      ensures outputDir == Some(Join(dir, "zstacks"))
    {
      var roi := FillIfUnique(roiFile, roiSets);
      var stitched := FillIfUnique(stitchedFile, stitches);
      roiFile, stitchedFile, outputDir := roi, stitched, Some(Join(dir, "zstacks"));
    }
  }

  /** How original_file_changed ends for a non-null original file: new
      File(getParent()) throws when there is no parent, list_files_regex
      throws when the parent is not a directory, and otherwise the fields
      are filled. */
  function OriginalOutcome(original: string, dirs: set<string>): (r: Autofill)
    ensures r == NoParent <==> GetParent(original).None?
    ensures r.NotADirectory? <==> GetParent(original).Some? && GetParent(original).value !in dirs
    ensures r.NotADirectory? ==> r.dir == GetParent(original).value
    ensures r == Filled ==> GetParent(original).Some?
    ensures r != NothingToDo
  {
    match GetParent(original)
    case None => NoParent
    case Some(dir) => if dir in dirs then Filled else NotADirectory(dir)
  }

  /** `roi_files.length == 1`: a field takes the one match, and keeps its
      value when there are none or several. */
  predicate FilledIfUnique(before: Option<string>, after: Option<string>, found: set<string>)
  {
    && (|found| == 1 ==> after.Some? && found == {after.value})
    && (|found| != 1 ==> after == before)
  }

  method FillIfUnique(before: Option<string>, found: set<string>) returns (after: Option<string>)
    ensures FilledIfUnique(before, after, found)
  {
    after := before;
    if |found| == 1 {
      var x :| x in found;
      OnlyMember(found, x);
      after := Some(x);
    }
  }

  lemma OnlyMember(s: set<string>, x: string)
    requires |s| == 1 && x in s
    ensures s == {x}
  {
    var rest := s - {x};
    assert |rest| == 0;
  }
}
