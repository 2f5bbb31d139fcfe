/** util/Channel.java: the fixed palette of display colours and the lookup
    that names an acquired channel colour by exact RGB equality. */
module ChannelPalette {
  import opened Text

  /** An ome.xml Color as the metadata reports it. */
  datatype Color = Color(red: int, green: int, blue: int, alpha: int)

  /** A palette entry: the ImageJ lookup-table name and its RGB triple. */
  datatype Channel = Channel(name: string, r: int, g: int, b: int)

  /** The static palette, in declaration order. It is a constant: a lookup
      reads it and nothing ever writes it. */
  const Palette: seq<Channel> := [
    Channel("Red", 255, 0, 0), Channel("Green", 0, 255, 0),
    Channel("Blue", 0, 0, 255), Channel("Cyan", 0, 255, 255),
    Channel("Magenta", 255, 0, 255), Channel("Yellow", 255, 255, 0),
    Channel("Grays", 255, 255, 255)]

  predicate Matches(ch: Channel, color: Color)
  {
    ch.r == color.red && ch.g == color.green && ch.b == color.blue
  }

  /** The linear search with early return over a table: the first entry
      whose R, G and B equal the colour's, or None. */
  function FirstMatch(table: seq<Channel>, color: Color): (r: Option<Channel>)
    ensures r.None? <==> forall i :: 0 <= i < |table| ==> !Matches(table[i], color)
    ensures r.Some? ==> exists i :: 0 <= i < |table| && table[i] == r.value && Matches(r.value, color)
                          && forall j :: 0 <= j < i ==> !Matches(table[j], color)
  {
    if table == [] then None
    else if Matches(table[0], color) then Some(table[0])
    else
      var rest := FirstMatch(table[1..], color);
      assert forall i :: 1 <= i < |table| ==> table[i] == table[1..][i - 1];
      rest
  }

  /** Channel.get_channel: the palette entry of a colour, or None (null) when
      the colour is not in the palette. */
  function GetChannel(color: Color): Option<Channel>
  {
    FirstMatch(Palette, color)
  }

  predicate DistinctTriples(table: seq<Channel>)
  {
    forall i, j :: 0 <= i < j < |table| ==>
      (table[i].r, table[i].g, table[i].b) != (table[j].r, table[j].g, table[j].b)
  }

  /** No two palette entries share an RGB triple. */
  lemma PaletteTriplesDistinct()
    ensures |Palette| == 7 && DistinctTriples(Palette)
  {
  }

  /** In a table whose triples are distinct the first match is the only
      match: the search returns an entry exactly when its RGB is the colour's. */
  lemma {:induction false} FirstMatchUnique(table: seq<Channel>, color: Color, ch: Channel)
    requires DistinctTriples(table)
    ensures FirstMatch(table, color) == Some(ch) <==> ch in table && Matches(ch, color)
  {
    if table != [] {
      if Matches(table[0], color) {
        if ch in table && Matches(ch, color) {
          var i :| 0 <= i < |table| && table[i] == ch;
          assert i == 0;
        }
      } else {
        assert DistinctTriples(table[1..]) by {
          forall i, j | 0 <= i < j < |table[1..]|
            ensures (table[1..][i].r, table[1..][i].g, table[1..][i].b) != (table[1..][j].r, table[1..][j].g, table[1..][j].b)
          {
            assert table[1..][i] == table[i + 1] && table[1..][j] == table[j + 1];
          }
        }
        FirstMatchUnique(table[1..], color, ch);
        assert ch in table <==> ch == table[0] || ch in table[1..] by {
          assert table == [table[0]] + table[1..];
        }
      }
    }
  }

  /** get_channel returns a palette entry exactly when that entry's R, G and
      B equal the colour's red, green and blue. */
  lemma GetChannelExact(color: Color, ch: Channel)
    ensures GetChannel(color) == Some(ch) <==> ch in Palette && Matches(ch, color)
  {
    PaletteTriplesDistinct();
    FirstMatchUnique(Palette, color, ch);
  }

  /** A colour outside the palette, black among them, is unmapped. */
  lemma BlackIsUnmapped(alpha: int)
    ensures GetChannel(Color(0, 0, 0, alpha)) == None
  {
    assert forall i :: 0 <= i < |Palette| ==> !Matches(Palette[i], Color(0, 0, 0, alpha));
  }

  /** The lookup looks at red, green and blue only; alpha plays no part. */
  lemma {:induction false} FirstMatchIgnoresAlpha(table: seq<Channel>, c1: Color, c2: Color)
    requires c1.red == c2.red && c1.green == c2.green && c1.blue == c2.blue
    ensures FirstMatch(table, c1) == FirstMatch(table, c2)
  {
    if table != [] {
      FirstMatchIgnoresAlpha(table[1..], c1, c2);
    }
  }
}
