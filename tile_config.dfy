/** The tile-configuration text that StitchTileScan writes for the
    Grid/Collection stitcher: a "dim = 2" header, then one line
    "<title>;;(<x>, <y>)" per tile, with coordinates rendered by "%.6f".
    ParseEntry reads a line back; it is the partner that shows the format
    loses nothing but the rounding to six decimals. */
module TileConfig {
  import opened Text

  const Header: string := "dim = 2"

  /** RoundingMode.HALF_UP on a non-negative value. */
  function RoundHalfUp(a: real): (n: nat)
    requires a >= 0.0
    ensures n as real <= a + 0.5 < n as real + 1.0
  {
    (a + 0.5).Floor
  }

  predicate NumeralChar(c: char)
  {
    IsDigit(c) || c == '.' || c == '-'
  }

  /** The text of a numeral whose magnitude is n millionths: an optional
      sign, the integer digits, '.', and exactly six fractional digits. */
  function Numeral(neg: bool, n: nat): (s: string)
    ensures forall i :: 0 <= i < |s| ==> NumeralChar(s[i])
  {
    var body := NatToString(n / 1000000) + "." + FixedDigits(n % 1000000, 6);
    assert forall i :: 0 <= i < |body| ==> NumeralChar(body[i]);
    Signed(neg, body)
  }

  function Signed(neg: bool, body: string): string
  {
    if neg then "-" + body else body
  }

  function SignedValue(neg: bool, v: real): real
  {
    if neg then -v else v
  }

  /** The magnitude of x in millionths, rounded half up. */
  function Millionths(x: real): (n: nat)
    ensures n as real <= (if x < 0.0 then -x else x) * 1000000.0 + 0.5
    ensures (if x < 0.0 then -x else x) * 1000000.0 + 0.5 < n as real + 1.0
  {
    RoundHalfUp(if x < 0.0 then -x * 1000000.0 else x * 1000000.0)
  }

  /** String.format("%.6f", x): sign, integer digits, '.', six fractional
      digits, rounded half up (with '.' as the decimal separator). */
  function Fixed6(x: real): (s: string)
    ensures forall i :: 0 <= i < |s| ==> NumeralChar(s[i])
  {
    Numeral(x < 0.0, Millionths(x))
  }

  /** Reads an unsigned "%.6f" numeral: digits, '.', six digits. */
  function ParseUnsigned(body: string): Option<real>
  {
    var k := IndexOf(body, '.');
    if k < 1 then None
    else
      var ip, fp := body[..k], body[k + 1..];
      if AllDigits(ip) && AllDigits(fp) && |fp| == 6 then
        Some(DigitsValue(ip) as real + DigitsValue(fp) as real / 1000000.0)
      else None
  }

  /** Reads a "%.6f" numeral back into its value. */
  function ParseFixed(s: string): Option<real>
  {
    var neg := s != [] && s[0] == '-';
    match ParseUnsigned(if neg then s[1..] else s)
    case None => None
    case Some(v) => Some(SignedValue(neg, v))
  }

  /** Integer digits, '.', six digits read back as the value the digits
      denote. */
  lemma ParseDigits(ip: string, fp: string)
    requires |ip| > 0 && AllDigits(ip) && AllDigits(fp) && |fp| == 6
    ensures ParseUnsigned(ip + "." + fp) == Some(DigitsValue(ip) as real + DigitsValue(fp) as real / 1000000.0)
  {
    var body := ip + "." + fp;
    assert IndexOf(body, '.') == |ip| by {
      assert body == ip + ['.'] + fp;
      assert '.' !in ip by { assert forall i :: 0 <= i < |ip| ==> IsDigit(ip[i]); }
      IndexOfAfterPrefix(ip, '.', fp);
    }
    assert body[..|ip|] == ip;
    assert body[|ip| + 1..] == fp;
  }

  /** The sign is read back from the leading '-', which an unsigned
      numeral cannot start with. */
  lemma ParseSigned(neg: bool, body: string, v: real)
    requires body != [] && IsDigit(body[0]) && ParseUnsigned(body) == Some(v)
    ensures ParseFixed(Signed(neg, body)) == Some(SignedValue(neg, v))
  {
    if neg {
      assert Signed(neg, body)[1..] == body;
    }
  }

  /** A numeral reads back as exactly the value it was built from. */
  lemma ParseNumeral(neg: bool, n: nat)
    ensures ParseFixed(Numeral(neg, n)) == Some(SignedValue(neg, n as real / 1000000.0))
  {
    var body := NatToString(n / 1000000) + "." + FixedDigits(n % 1000000, 6);
    assert Numeral(neg, n) == Signed(neg, body);
    ParseBody(n);
    assert body[0] == NatToString(n / 1000000)[0];
    ParseSigned(neg, body, n as real / 1000000.0);
  }

  /** The unsigned part of a numeral reads back as its magnitude. */
  lemma ParseBody(n: nat)
    ensures ParseUnsigned(NatToString(n / 1000000) + "." + FixedDigits(n % 1000000, 6)) == Some(n as real / 1000000.0)
  {
    var q, r := n / 1000000, n % 1000000;
    var ip, fp := NatToString(q), FixedDigits(r, 6);
    DigitsValueOfNatToString(q);
    SixDigits(r);
    ParseDigits(ip, fp);
    SplitMillionths(n);
  }

  lemma SixDigits(r: nat)
    requires r < 1000000
    ensures DigitsValue(FixedDigits(r, 6)) == r
  {
    DigitsValueOfFixedDigits(r, 6);
    Pow10Six();
  }

  lemma Pow10Six()
    ensures Pow10(6) == 1000000
  {
    assert Pow10(2) == 100;
    assert Pow10(4) == 10000;
  }

  /** n millionths are n / 10^6 units and n % 10^6 millionths. */
  lemma SplitMillionths(n: nat)
    ensures (n / 1000000) as real + (n % 1000000) as real / 1000000.0 == n as real / 1000000.0
  {
    assert n == 1000000 * (n / 1000000) + n % 1000000;
  }

  /** The rendered numeral reads back within half a unit of the sixth
      decimal of the value. */
  lemma Fixed6Accurate(x: real)
    ensures ParseFixed(Fixed6(x)).Some?
    ensures -0.0000005 <= ParseFixed(Fixed6(x)).value - x <= 0.0000005
  {
    ParseNumeral(x < 0.0, Millionths(x));
  }

  /** The shape of one line of the file, for any title and numerals. */
  function EntryText(title: string, sx: string, sy: string): string
  {
    title + ";;(" + sx + ", " + sy + ")"
  }

  /** One line of the file: String.format("%s;;(%.6f, %.6f)", title, x, y). */
  function EntryLine(title: string, x: real, y: real): string
  {
    EntryText(title, Fixed6(x), Fixed6(y))
  }

  /** Cuts a line at its last ';' into the title and the two numerals. */
  function SplitEntry(line: string): Option<(string, string, string)>
  {
    var k := LastIndexOf(line, ';');
    if k < 1 || line[k - 1] != ';' || k + 2 > |line| - 1 || line[k + 1] != '(' || line[|line| - 1] != ')' then None
    else
      var inner := line[k + 2..|line| - 1];
      var c := IndexOf(inner, ',');
      if c < 0 || c + 2 > |inner| || inner[c + 1] != ' ' then None
      else Some((line[..k - 1], inner[..c], inner[c + 2..]))
  }

  /** Reads a line back as its title and coordinates. */
  function ParseEntry(line: string): Option<(string, real, real)>
  {
    match SplitEntry(line)
    case None => None
    case Some((title, sx, sy)) =>
      match (ParseFixed(sx), ParseFixed(sy))
      case (Some(x), Some(y)) => Some((title, x, y))
      case _ => None
  }

  /** Whatever the title contains (';' included), a line cuts back into
      its title and numerals as long as the numerals hold no ';' and the
      first holds no ','. */
  lemma SplitEntryText(title: string, sx: string, sy: string)
    requires ';' !in sx && ';' !in sy && ',' !in sx
    ensures SplitEntry(EntryText(title, sx, sy)) == Some((title, sx, sy))
  {
    CutAtSemicolons(title, sx + ", " + sy);
    CutAtComma(sx, sy);
    assert EntryText(title, sx, sy) == title + ";;(" + (sx + ", " + sy) + ")";
  }

  /** The last ';' of a line is the second of ";;(", and what follows the
      '(' up to the closing ')' is the pair of numerals. */
  lemma CutAtSemicolons(title: string, pair: string)
    requires ';' !in pair
    ensures var line := title + ";;(" + pair + ")";
      var k := |title| + 1;
      && LastIndexOf(line, ';') == k
      && line[k - 1] == ';' && k + 2 <= |line| - 1 && line[k + 1] == '(' && line[|line| - 1] == ')'
      && line[..k - 1] == title && line[k + 2..|line| - 1] == pair
  {
    var line := title + ";;(" + pair + ")";
    var tail := "(" + pair + ")";
    assert line == (title + ";") + [';'] + tail;
    assert ';' !in tail;
    LastIndexOfBeforeSuffix(title + ";", ';', tail);
    var k := |title| + 1;
    assert line[..k - 1] == title;
    assert line[k + 2..|line| - 1] == pair;
  }

  /** The first ',' of the pair ends the first numeral, and a space
      precedes the second. */
  lemma CutAtComma(sx: string, sy: string)
    requires ',' !in sx
    ensures var inner := sx + ", " + sy;
      var c := |sx|;
      && IndexOf(inner, ',') == c && c + 2 <= |inner| && inner[c + 1] == ' '
      && inner[..c] == sx && inner[c + 2..] == sy
  {
    var inner := sx + ", " + sy;
    assert inner == sx + [','] + (" " + sy);
    IndexOfAfterPrefix(sx, ',', " " + sy);
    assert inner[..|sx|] == sx && inner[|sx| + 2..] == sy;
  }

  lemma NumeralFree(x: real, c: char)
    requires !NumeralChar(c)
    ensures c !in Fixed6(x)
  {
  }

  /** Round trip: the line written for a tile reads back as the same title
      and the coordinates to six decimals, whatever the title contains. */
  lemma EntryLineRoundTrip(title: string, x: real, y: real)
    ensures ParseEntry(EntryLine(title, x, y)).Some?
    ensures ParseEntry(EntryLine(title, x, y)).value.0 == title
    ensures -0.0000005 <= ParseEntry(EntryLine(title, x, y)).value.1 - x <= 0.0000005
    ensures -0.0000005 <= ParseEntry(EntryLine(title, x, y)).value.2 - y <= 0.0000005
  {
    NumeralFree(x, ';');
    NumeralFree(y, ';');
    NumeralFree(x, ',');
    SplitEntryText(title, Fixed6(x), Fixed6(y));
    Fixed6Accurate(x);
    Fixed6Accurate(y);
  }

  /** The whole file for a list of tiles: the header, then one line per
      tile in list order. */
  function ConfigText(tiles: seq<(string, real, real)>): (lines: seq<string>)
    ensures |lines| == |tiles| + 1 && lines[0] == Header
    ensures forall k :: 0 <= k < |tiles| ==> lines[k + 1] == EntryLine(tiles[k].0, tiles[k].1, tiles[k].2)
  {
    [Header] + seq(|tiles|, k requires 0 <= k < |tiles| => EntryLine(tiles[k].0, tiles[k].1, tiles[k].2))
  }

  /** Reading the file back: every line after the header gives back its
      tile's title, and its coordinates to six decimals. */
  lemma ConfigTextRoundTrip(tiles: seq<(string, real, real)>, k: nat)
    requires k < |tiles|
    ensures ParseEntry(ConfigText(tiles)[k + 1]).Some?
    ensures ParseEntry(ConfigText(tiles)[k + 1]).value.0 == tiles[k].0
    ensures -0.0000005 <= ParseEntry(ConfigText(tiles)[k + 1]).value.1 - tiles[k].1 <= 0.0000005
    ensures -0.0000005 <= ParseEntry(ConfigText(tiles)[k + 1]).value.2 - tiles[k].2 <= 0.0000005
  {
    EntryLineRoundTrip(tiles[k].0, tiles[k].1, tiles[k].2);
  }
}
