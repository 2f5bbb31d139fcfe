/** The parts of java.io.File the plugin relies on, for Unix paths
    (separator '/'). Joining does not normalise: a directory that already
    ends in '/' gives a doubled separator. */
module Paths {
  import opened Text

  const Separator: char := '/'

  /** File.getName(): everything after the last separator. */
  function GetName(path: string): (name: string)
    ensures Separator !in name
    ensures EndsWith(path, name)
  {
    var k := LastIndexOf(path, Separator);
    var name := path[k + 1..];
    forall j | 0 <= j < |name|
      ensures name[j] != Separator
    {
      assert name[j] == path[k + 1 + j];
    }
    name
  }

  /** File.getParent(): the path up to the last separator; "/" for a file in
      the root directory; null when the path has no separator. */
  function GetParent(path: string): (parent: Option<string>)
    ensures parent.Some? ==> |parent.value| > 0
    ensures parent.None? <==> Separator !in path || path == [Separator]
  {
    var k := LastIndexOf(path, Separator);
    if k < 0 then None
    else if k == 0 then (if |path| > 1 then Some([Separator]) else None)
    else Some(path[..k])
  }

  /** What string concatenation makes of getParent(): Java renders a null
      reference as the text "null". */
  function ParentOrNull(path: string): (s: string)
    ensures |s| > 0
  {
    match GetParent(path)
    case Some(dir) => dir
    case None => "null"
  }

  /** dir + File.separator + name, the way every path of the plugin is built. */
  function Join(dir: string, name: string): string
  {
    dir + [Separator] + name
  }

  /** A joined path names its last part and its directory. */
  lemma JoinParts(dir: string, name: string)
    requires |dir| > 0 && Separator !in name
    ensures GetName(Join(dir, name)) == name
    ensures GetParent(Join(dir, name)) == Some(dir)
  {
    LastIndexOfBeforeSuffix(dir, Separator, name);
    var p := Join(dir, name);
    assert p[|dir| + 1..] == name;
    assert p[..|dir|] == dir;
  }
}
