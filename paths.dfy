/** The parts of `pathlib.PurePosixPath` the core uses: `.name`, `.suffix` and `/`. */
module Paths {
  import opened Text

  /** `s.rfind(c)`: the last index of `c` in `s`, or -1. */
  function RFind(s: string, c: char): (r: int)
    ensures -1 <= r < |s|
    ensures r >= 0 ==> s[r] == c
    ensures forall k :: r < k < |s| ==> s[k] != c
  {
    if s == [] then -1
    else if s[|s| - 1] == c then |s| - 1
    else RFind(s[..|s| - 1], c)
  }

  /** `Path(s).name`: the last component of `s` split at '/', skipping empty and "." components
      (pathlib drops them when it parses a path); "" when there is none. */
  function Name(s: string): (r: string)
    ensures '/' !in r
    ensures r != "."
    decreases |s|
  {
    var k := RFind(s, '/');
    var tail := s[k + 1..];
    if tail != "" && tail != "." then tail
    else if k < 0 then ""
    else Name(s[..k])
  }

  /** A name has no directory part: taking the name again keeps it. */
  lemma NameIdempotent(s: string)
    ensures Name(Name(s)) == Name(s)
  {
    var n := Name(s);
    assert RFind(n, '/') == -1;
    assert n[0..] == n;
  }

  /** `Path(name).suffix` for a name: the text from its last '.', or "" when that dot is the
      first or the last character (or there is no dot). */
  function Suffix(name: string): (r: string)
    ensures r != "" ==> |r| >= 2 && r[0] == '.' && '.' !in r[1..]
    ensures r != "" ==> |r| < |name| && r == name[|name| - |r|..]
  {
    var i := RFind(name, '.');
    if 0 < i < |name| - 1 then name[i..] else ""
  }

  /** `Path(s).suffix.lower()`: the lower-cased extension the core dispatches and names files by. */
  function Extension(s: string): string {
    Lower(Suffix(Name(s)))
  }

  /** `str(Path(dir) / name)` for a directory already in pathlib's normal form. */
  function JoinPath(dir: string, name: string): string {
    dir + "/" + name
  }

  /** The last `c` of `a + [c] + b`, when `b` holds none, is the one between them. */
  lemma RFindLast(a: string, c: char, b: string)
    requires c !in b
    ensures RFind(a + [c] + b, c) == |a|
  {
    var s := a + [c] + b;
    var r := RFind(s, c);
    assert s[|a|] == c;
  }

  /** The name of `dir/name` is `name` whatever the directory part, "../" components included:
      a plain name survives the join. */
  lemma NameOfJoin(dir: string, name: string)
    requires '/' !in name && name != "" && name != "."
    ensures Name(dir + "/" + name) == name
  {
    var s := dir + "/" + name;
    assert s == dir + ['/'] + name;
    RFindLast(dir, '/', name);
    assert s[|dir| + 1..] == name;
  }
}
