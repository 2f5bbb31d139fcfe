/** util/ImageFile.java: an opened image file, its working path (optionally
    moved into a subfolder named after it), its base name and the list of
    its series. */
module ImageFiles {
  import opened Text
  import opened Paths
  import opened ChannelPalette
  import opened SeriesInfo

  datatype ImageFile = ImageFile(path: string, baseName: string, series: seq<Series>)

  /** Why the constructor throws: the working directory is a plain file
      (IOException), the path has no parent so new File(null) fails
      (NullPointerException), or the Bio-Formats reader or its services fail
      (FormatException, DependencyException, ServiceException). */
  datatype OpenError = WorkingDirIsFile(dir: string) | NoParentDirectory | ReaderFailure

  /** remove_extension: the text before the last '.', unless that dot is the
      first character or there is none. */
  function RemoveExtension(path: string): (r: string)
    ensures |r| <= |path| && path[..|r|] == r
    ensures |r| < |path| ==> 1 <= |r| && path[|r|] == '.' && '.' !in path[|r| + 1..]
    ensures r == path <==> forall i :: 1 <= i < |path| ==> path[i] != '.'
  {
    var last := LastIndexOf(path, '.');
    if last >= 1 then
      var r := path[..last];
      var ext := path[last + 1..];
      assert forall j :: 0 <= j < |ext| ==> ext[j] == path[last + 1 + j];
      r
    else path
  }

  /** When something is stripped, the input is the result, a dot and a
      dot-free extension. */
  lemma RemoveExtensionSplit(path: string)
    requires |RemoveExtension(path)| < |path|
    ensures var r := RemoveExtension(path);
      path == r + "." + path[|r| + 1..] && '.' !in path[|r| + 1..]
  {
    var r := RemoveExtension(path);
    assert path == path[..|r|] + [path[|r|]] + path[|r| + 1..];
  }

  /** The path the ImageFile stands for: with move_to_subfolder the file goes
      into a directory named after the whole path minus its extension. */
  function SubfolderPath(path: string, moveToSubfolder: bool): string
  {
    if moveToSubfolder then Join(RemoveExtension(path), GetName(path)) else path
  }

  /** Moving into the subfolder keeps the file name, hence the base name. */
  lemma SubfolderKeepsName(path: string, moveToSubfolder: bool)
    requires |path| > 0
    ensures GetName(SubfolderPath(path, moveToSubfolder)) == GetName(path)
    ensures RemoveExtension(GetName(SubfolderPath(path, moveToSubfolder))) == RemoveExtension(GetName(path))
    ensures moveToSubfolder ==> GetParent(SubfolderPath(path, true)) == Some(RemoveExtension(path))
  {
    if moveToSubfolder {
      JoinParts(RemoveExtension(path), GetName(path));
    }
  }

  /** The whole path is stripped, so for a file name without a dot, a dot
      in its directory decides the cut: the file moves into a folder named
      after the directory minus its "extension", not into one inside its
      own directory. */
  lemma DotInDirectoryName(dir: string, name: string)
    requires |dir| > 0 && '.' in dir[1..]
    requires Separator !in name && '.' !in name
    ensures RemoveExtension(Join(dir, name)) == RemoveExtension(dir)
    ensures |RemoveExtension(dir)| < |dir|
    ensures SubfolderPath(Join(dir, name), true) == Join(RemoveExtension(dir), name)
    ensures GetParent(SubfolderPath(Join(dir, name), true)) == Some(RemoveExtension(dir))
  {
    var k := LastIndexOf(dir, '.');
    var j :| 1 <= j < |dir| && dir[j] == '.';
    assert j == 1 + (j - 1) && dir[1..][j - 1] == '.';
    assert k >= j;
    var a, b := dir[..k], dir[k + 1..];
    assert '.' !in b by {
      forall i | 0 <= i < |b| ensures b[i] != '.' { assert b[i] == dir[k + 1 + i]; }
    }
    assert '.' !in [Separator] + name;
    assert dir == a + ['.'] + b;
    assert Join(dir, name) == a + ['.'] + (b + [Separator] + name);
    LastIndexOfBeforeSuffix(a, '.', b + [Separator] + name);
    LastIndexOfBeforeSuffix(a, '.', b);
    JoinParts(dir, name);
    JoinParts(RemoveExtension(dir), name);
  }

  /** The series list: one series per index 0 .. count-1. */
  function SeriesList(file: string, metas: seq<SeriesMeta>): seq<Series>
  {
    seq(|metas|, i requires 0 <= i < |metas| => MakeSeries(file, i, metas[i]))
  }

  /** The constructor ImageFile(path, move_to_subfolder), as a value. */
  function OpenSpec(path: string, moveToSubfolder: bool, plainFiles: set<string>,
                    backend: Option<seq<SeriesMeta>>): Result<ImageFile, OpenError>
  {
    var p := SubfolderPath(path, moveToSubfolder);
    match GetParent(p)
    case None => Err(NoParentDirectory)
    case Some(dir) =>
      if dir in plainFiles then Err(WorkingDirIsFile(dir))
      else if backend.None? then Err(ReaderFailure)
      else Ok(ImageFile(p, RemoveExtension(GetName(p)), SeriesList(p, backend.value)))
  }

  /** The constructor: checks the working directory, then appends one
      Series per series the reader reports. `plainFiles` are the existing
      paths that are regular files; `backend` is what the reader reports, or
      None when opening it fails. */
  method Open(path: string, moveToSubfolder: bool, plainFiles: set<string>,
              backend: Option<seq<SeriesMeta>>) returns (r: Result<ImageFile, OpenError>)
    ensures r == OpenSpec(path, moveToSubfolder, plainFiles, backend)
  {
    var p := SubfolderPath(path, moveToSubfolder);
    var parent := GetParent(p);
    if parent.None? {
      return Err(NoParentDirectory);
    }
    if parent.value in plainFiles {
      return Err(WorkingDirIsFile(parent.value));
    }
    if backend.None? {
      return Err(ReaderFailure);
    }
    var metas := backend.value;
    var series: seq<Series> := [];
    var i := 0;
    while i < |metas|
      invariant 0 <= i <= |metas|
      invariant series == SeriesList(p, metas[..i])
    {
      series := series + [MakeSeries(p, i, metas[i])];
      i := i + 1;
    }
    assert metas[..i] == metas;
    return Ok(ImageFile(p, RemoveExtension(GetName(p)), series));
  }

  /** What every opened image file satisfies. */
  predicate WellFormed(f: ImageFile)
  {
    && GetParent(f.path).Some?
    && f.baseName == RemoveExtension(GetName(f.path))
    && forall i :: 0 <= i < |f.series| ==>
         f.series[i].index == i && f.series[i].file == f.path
         && '/' !in f.series[i].name && NoSpace(f.series[i].name)
         && f.series[i].mpTitle == MpTitle(f.series[i].name, i)
  }

  /** An opened file: its base name is that of the original path, its
      series are indexed 0 .. count-1 in reader order, and all its series
      names are sanitised. The error cases are exactly the three guards. */
  lemma OpenSpecShape(path: string, moveToSubfolder: bool, plainFiles: set<string>,
                      backend: Option<seq<SeriesMeta>>)
    ensures var r := OpenSpec(path, moveToSubfolder, plainFiles, backend);
      var p := SubfolderPath(path, moveToSubfolder);
      && (r == Err(NoParentDirectory) <==> GetParent(p).None?)
      && (r.Err? && r.error.WorkingDirIsFile? <==> GetParent(p).Some? && GetParent(p).value in plainFiles)
      && (r.Ok? <==> GetParent(p).Some? && GetParent(p).value !in plainFiles && backend.Some?)
      && (r.Ok? ==>
            && WellFormed(r.value)
            && r.value.path == p
            && r.value.baseName == RemoveExtension(GetName(path))
            && |r.value.series| == |backend.value|
            && forall i :: 0 <= i < |backend.value| ==> r.value.series[i] == MakeSeries(p, i, backend.value[i]))
  {
    var r := OpenSpec(path, moveToSubfolder, plainFiles, backend);
    EmptyPathHasNoParent(moveToSubfolder);
    if r.Ok? {
      OpenedShape(path, moveToSubfolder, r.value, backend.value);
    }
  }

  /** The empty path (or "/" it becomes in a subfolder) has no parent. */
  lemma EmptyPathHasNoParent(moveToSubfolder: bool)
    ensures GetParent(SubfolderPath([], moveToSubfolder)).None?
  {
    if moveToSubfolder {
      var empty: string := [];
      assert RemoveExtension(empty) == [] by {
        assert |RemoveExtension(empty)| == 0;
      }
      assert GetName(empty) == [] by {
        assert |GetName(empty)| == 0;
      }
      assert SubfolderPath(empty, true) == [Separator];
    }
  }

  lemma OpenedShape(path: string, moveToSubfolder: bool, f: ImageFile, metas: seq<SeriesMeta>)
    requires path != []
    requires var p := SubfolderPath(path, moveToSubfolder);
      GetParent(p).Some? && f == ImageFile(p, RemoveExtension(GetName(p)), SeriesList(p, metas))
    ensures WellFormed(f) && f.baseName == RemoveExtension(GetName(path))
  {
    SubfolderKeepsName(path, moveToSubfolder);
    SeriesListShape(f.path, metas);
  }

  /** The series of a file are indexed 0 .. count-1, belong to the file,
      have sanitised names and carry their projection titles. */
  lemma SeriesListShape(p: string, metas: seq<SeriesMeta>)
    ensures var series := SeriesList(p, metas);
      forall i :: 0 <= i < |series| ==>
        series[i].index == i && series[i].file == p
        && '/' !in series[i].name && NoSpace(series[i].name)
        && series[i].mpTitle == MpTitle(series[i].name, i)
  {
    forall i | 0 <= i < |metas|
      ensures '/' !in SeriesList(p, metas)[i].name && NoSpace(SeriesList(p, metas)[i].name)
    {
      SanitizeClean(metas[i].imageName);
    }
  }

  function Names(series: seq<Series>): seq<string>
  {
    seq(|series|, i requires 0 <= i < |series| => series[i].name)
  }

  /** unique_series: the distinct series names, in first-occurrence order. */
  function UniqueSeries(f: ImageFile): seq<string>
  {
    Distinct(Names(f.series))
  }

  /** unique_series has no duplicates, names exactly the series names, and
      lists them in the order in which they first occur. */
  lemma UniqueSeriesSpec(f: ImageFile)
    ensures NoDuplicates(UniqueSeries(f))
    ensures forall n :: n in UniqueSeries(f) <==> exists i :: 0 <= i < |f.series| && f.series[i].name == n
    ensures forall n :: n in UniqueSeries(f) ==> n in Names(f.series)
    ensures forall i, j :: 0 <= i < j < |UniqueSeries(f)| ==>
              FirstIndex(Names(f.series), UniqueSeries(f)[i]) < FirstIndex(Names(f.series), UniqueSeries(f)[j])
  {
    var names := Names(f.series);
    DistinctSpec(names);
    forall n
      ensures n in names <==> exists i :: 0 <= i < |f.series| && f.series[i].name == n
    {
      if n in names {
        var i :| 0 <= i < |names| && names[i] == n;
        assert f.series[i].name == n;
      }
      if exists i :: 0 <= i < |f.series| && f.series[i].name == n {
        var i :| 0 <= i < |f.series| && f.series[i].name == n;
        assert names[i] == n;
      }
    }
  }

  /** channels(series_name): the channels of the first series with that
      name, or None (null) when no series has it. */
  function ChannelsOf(series: seq<Series>, name: string): (r: Option<seq<Option<Channel>>>)
    ensures r.None? <==> forall i :: 0 <= i < |series| ==> series[i].name != name
    ensures r.Some? ==> exists i :: 0 <= i < |series| && series[i].name == name
                          && r.value == series[i].channels
                          && forall j :: 0 <= j < i ==> series[j].name != name
  {
    if series == [] then None
    else if series[0].name == name then Some(series[0].channels)
    else
      var rest := ChannelsOf(series[1..], name);
      assert forall i :: 1 <= i < |series| ==> series[i] == series[1..][i - 1];
      rest
  }
}
