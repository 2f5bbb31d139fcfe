/** util/Series.java: the metadata the plugin derives for one acquisition
    series (tile) of an image file. The Bio-Formats reader is replaced by the
    values it would report, gathered in SeriesMeta. */
module SeriesInfo {
  import opened Text
  import opened ChannelPalette

  /** What the metadata backend reports for one series. `location` is None
      when the plane-position lookup throws IllegalArgumentException. */
  datatype SeriesMeta = SeriesMeta(
    imageName: string,
    location: Option<(real, real)>,
    dimensionOrder: string,
    physicalSizeX: Option<real>,
    physicalSizeY: Option<real>,
    colors: seq<Color>)

  /** A series with the fields the constructor computes; `file` is the path
      of the owning image file. */
  datatype Series = Series(
    file: string,
    name: string,
    mpTitle: string,
    index: nat,
    posX: real,
    posY: real,
    channels: seq<Option<Channel>>)

  // ---------------------------------------------------------------------------
  // Name sanitisation: replaceAll("/", "-").replaceAll("\\s+", "_")
  // ---------------------------------------------------------------------------

  /** The characters of the regular-expression class \s. */
  predicate IsSpace(c: char)
  {
    c == ' ' || c == '\t' || c == '\n' || c == '\U{000B}' || c == '\U{000C}' || c == '\r'
  }

  predicate NoSpace(s: string)
  {
    forall i :: 0 <= i < |s| ==> !IsSpace(s[i])
  }

  function SlashToDash(s: string): string
  {
    seq(|s|, i requires 0 <= i < |s| => if s[i] == '/' then '-' else s[i])
  }

  /** Every maximal run of whitespace becomes a single '_': a whitespace
      character followed by more whitespace is dropped, and the last one of
      a run becomes '_'. */
  function CollapseSpaces(s: string): (r: string)
    ensures NoSpace(r)
  {
    if s == [] then []
    else
      var c := if !IsSpace(s[0]) then [s[0]]
               else if |s| > 1 && IsSpace(s[1]) then []
               else "_";
      var t := CollapseSpaces(s[1..]);
      NoSpaceConcat(c, t);
      c + t
  }

  lemma NoSpaceConcat(c: string, t: string)
    requires NoSpace(c) && NoSpace(t)
    ensures NoSpace(c + t)
  {
    forall i | 0 <= i < |c + t|
      ensures !IsSpace((c + t)[i])
    {
      if i >= |c| { assert (c + t)[i] == t[i - |c|]; }
    }
  }

  /** The collapse only ever writes '_', so it brings in no '/'. */
  lemma {:induction false} CollapseNoSlash(s: string)
    requires '/' !in s
    ensures '/' !in CollapseSpaces(s)
  {
    if s != [] {
      assert '/' !in s[1..] by { assert forall i :: 0 <= i < |s[1..]| ==> s[1..][i] == s[i + 1]; }
      CollapseNoSlash(s[1..]);
    }
  }

  function Sanitize(imageName: string): string
  {
    CollapseSpaces(SlashToDash(imageName))
  }

  /** A sanitised name contains no '/' and no whitespace. */
  lemma SanitizeClean(imageName: string)
    ensures '/' !in Sanitize(imageName) && NoSpace(Sanitize(imageName))
  {
    var t := SlashToDash(imageName);
    assert '/' !in t;
    CollapseNoSlash(t);
  }

  /** A string without whitespace is left alone by the collapse. */
  lemma {:induction false} CollapseNoSpace(s: string)
    requires NoSpace(s)
    ensures CollapseSpaces(s) == s
  {
    if s != [] {
      CollapseNoSpace(s[1..]);
    }
  }

  /** Sanitising is idempotent. */
  lemma SanitizeIdempotent(imageName: string)
    ensures Sanitize(Sanitize(imageName)) == Sanitize(imageName)
  {
    var n := Sanitize(imageName);
    SanitizeClean(imageName);
    assert SlashToDash(n) == n;
    CollapseNoSpace(n);
  }

  /** The collapse distributes over a split point that is not inside a run. */
  lemma {:induction false} CollapseConcat(a: string, b: string)
    requires a == [] || !IsSpace(a[|a| - 1])
    ensures CollapseSpaces(a + b) == CollapseSpaces(a) + CollapseSpaces(b)
  {
    if a == [] {
      assert a + b == b;
    } else {
      var s := a + b;
      assert s[0] == a[0] && s[1..] == a[1..] + b;
      if IsSpace(a[0]) {
        assert |a| > 1 && s[1] == a[1];
      }
      CollapseConcat(a[1..], b);
    }
  }

  /** Characterisation of replaceAll("\\s+", "_"): a maximal run of
      whitespace w (nothing but whitespace, bordered by non-whitespace or the
      ends of the string) turns into exactly one '_'. */
  lemma {:induction false} CollapseMaximalRun(a: string, w: string, b: string)
    requires a == [] || !IsSpace(a[|a| - 1])
    requires |w| > 0 && forall i :: 0 <= i < |w| ==> IsSpace(w[i])
    requires b == [] || !IsSpace(b[0])
    ensures CollapseSpaces(a + w + b) == CollapseSpaces(a) + "_" + CollapseSpaces(b)
  {
    var wb := w + b;
    assert a + w + b == a + wb;
    CollapseRun(w, b);
    CollapseBeforeRun(a, wb, CollapseSpaces(b));
  }

  lemma {:induction false} CollapseBeforeRun(a: string, wb: string, y: string)
    requires a == [] || !IsSpace(a[|a| - 1])
    requires CollapseSpaces(wb) == "_" + y
    ensures CollapseSpaces(a + wb) == CollapseSpaces(a) + "_" + y
  {
    CollapseConcat(a, wb);
    assert CollapseSpaces(a) + ("_" + y) == CollapseSpaces(a) + "_" + y;
  }

  /** A string that opens with a maximal run starts its collapse with one '_'. */
  lemma {:induction false} CollapseRun(w: string, b: string)
    requires |w| > 0 && forall i :: 0 <= i < |w| ==> IsSpace(w[i])
    requires b == [] || !IsSpace(b[0])
    ensures CollapseSpaces(w + b) == "_" + CollapseSpaces(b)
  {
    var s := w + b;
    assert s[0] == w[0] && s[1..] == w[1..] + b;
    if |w| == 1 {
      assert w[1..] + b == b;
      if b != [] { assert s[1] == b[0]; }
    } else {
      assert s[1] == w[1];
      CollapseRun(w[1..], b);
    }
  }

  // ---------------------------------------------------------------------------
  // Projection title and calibration
  // ---------------------------------------------------------------------------

  /** mp_title: name + "_mp_" + index + ".tif". */
  function MpTitle(name: string, index: nat): (t: string)
    ensures |name| < |t| && t[..|name|] == name && EndsWith(t, ".tif")
  {
    var t := name + "_mp_" + NatToString(index) + ".tif";
    assert t[..|name|] == name;
    t
  }

  function UpperAscii(c: char): char
  {
    if 'a' <= c <= 'z' then (c as int - 32) as char else c
  }

  /** String.toUpperCase, as far as the letters of a dimension order go. */
  function ToUpper(s: string): string
  {
    seq(|s|, i requires 0 <= i < |s| => UpperAscii(s[i]))
  }

  /** dimOrder.toUpperCase().indexOf(axis) >= 0 finds the axis letter in
      either case. */
  lemma HasAxisEitherCase(dimOrder: string)
    ensures 'X' in ToUpper(dimOrder) <==> 'X' in dimOrder || 'x' in dimOrder
    ensures 'Y' in ToUpper(dimOrder) <==> 'Y' in dimOrder || 'y' in dimOrder
  {
    var u := ToUpper(dimOrder);
    assert forall i :: 0 <= i < |dimOrder| ==> u[i] == UpperAscii(dimOrder[i]);
  }

  /** The stage-position guard: raw * 1e6 / cal when the axis is present and
      the calibration is non-null and non-zero, 0 otherwise. */
  function Calibrate(raw: real, axisPresent: bool, cal: Option<real>): real
  {
    if axisPresent && cal.Some? && cal.value != 0.0 then raw * 1000000.0 / cal.value else 0.0
  }

  /** The constructor Series(file, index, reader, retrieve). */
  function MakeSeries(file: string, index: nat, meta: SeriesMeta): Series
  {
    var name := Sanitize(meta.imageName);
    var loc := match meta.location case Some(p) => p case None => (0.0, 0.0);
    var dims := ToUpper(meta.dimensionOrder);
    Series(file, name, MpTitle(name, index), index,
           Calibrate(loc.0, 'X' in dims, meta.physicalSizeX),
           Calibrate(loc.1, 'Y' in dims, meta.physicalSizeX),
           seq(|meta.colors|, c requires 0 <= c < |meta.colors| => GetChannel(meta.colors[c])))
  }

  /** The calibrated position: each axis is scaled by the X physical size
      when its letter is in the dimension order and the size is usable, and
      is 0 otherwise. */
  lemma SeriesPosition(file: string, index: nat, meta: SeriesMeta, x: real, y: real)
    requires meta.location == Some((x, y))
    ensures var s := MakeSeries(file, index, meta);
      && (s.posX == if ('X' in meta.dimensionOrder || 'x' in meta.dimensionOrder)
                       && meta.physicalSizeX.Some? && meta.physicalSizeX.value != 0.0
                    then x * 1000000.0 / meta.physicalSizeX.value else 0.0)
      && (s.posY == if ('Y' in meta.dimensionOrder || 'y' in meta.dimensionOrder)
                       && meta.physicalSizeX.Some? && meta.physicalSizeX.value != 0.0
                    then y * 1000000.0 / meta.physicalSizeX.value else 0.0)
  {
    HasAxisEitherCase(meta.dimensionOrder);
  }

  /** When the plane position cannot be looked up the series sits at (0, 0). */
  lemma PositionUnavailable(file: string, index: nat, meta: SeriesMeta)
    requires meta.location.None?
    ensures MakeSeries(file, index, meta).posX == 0.0 && MakeSeries(file, index, meta).posY == 0.0
  {
  }

  /** The Y position is calibrated with the X physical size: the reported Y
      size has no influence on the series. */
  lemma PhysicalSizeYUnused(file: string, index: nat, meta: SeriesMeta, sizeY: Option<real>)
    ensures MakeSeries(file, index, meta.(physicalSizeY := sizeY)) == MakeSeries(file, index, meta)
  {
  }

  /** The series fields as the source promises them: a clean name, the title
      built from name and index, and one palette lookup per channel colour. */
  lemma SeriesFields(file: string, index: nat, meta: SeriesMeta)
    ensures var s := MakeSeries(file, index, meta);
      && s.index == index && s.file == file
      && s.name == Sanitize(meta.imageName)
      && '/' !in s.name && NoSpace(s.name)
      && s.mpTitle == s.name + "_mp_" + NatToString(index) + ".tif"
      && |s.channels| == |meta.colors|
      && forall c :: 0 <= c < |meta.colors| ==>
           (s.channels[c].None? <==> forall i :: 0 <= i < |Palette| ==> !Matches(Palette[i], meta.colors[c]))
           && (s.channels[c].Some? ==> s.channels[c].value in Palette && Matches(s.channels[c].value, meta.colors[c]))
  {
    SanitizeClean(meta.imageName);
    var s := MakeSeries(file, index, meta);
    forall c | 0 <= c < |meta.colors| && s.channels[c].Some?
      ensures s.channels[c].value in Palette && Matches(s.channels[c].value, meta.colors[c])
    {
      GetChannelExact(meta.colors[c], s.channels[c].value);
    }
  }

  /** The copy constructor Series(Series). */
  function CopySeries(s: Series): (r: Series)
    ensures r == s
  {
    Series(s.file, s.name, s.mpTitle, s.index, s.posX, s.posY, s.channels)
  }
}
