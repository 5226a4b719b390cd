/** Python's text primitives the core relies on: whitespace, strip, lower, join and splitlines. */
module Text {

  /** `c.isspace()`: the characters Python's `str.strip()` and the regex class `\s` treat as whitespace. */
  predicate IsSpace(c: char) {
    ('\t' <= c <= '\r') || ('\U{1C}' <= c <= ' ') || c == '\U{85}' || c == '\U{A0}'
    || c == '\U{1680}' || ('\U{2000}' <= c <= '\U{200A}') || c == '\U{2028}' || c == '\U{2029}'
    || c == '\U{202F}' || c == '\U{205F}' || c == '\U{3000}'
  }

  /** The line boundaries of `str.splitlines()`. */
  predicate IsLineBreak(c: char) {
    ('\n' <= c <= '\r') || ('\U{1C}' <= c <= '\U{1E}') || c == '\U{85}' || c == '\U{2028}' || c == '\U{2029}'
  }

  predicate NoLineBreak(s: string) {
    forall k :: 0 <= k < |s| ==> !IsLineBreak(s[k])
  }

  /** No character of `p` at either end: what `strip` leaves. */
  predicate StrippedBy(s: string, p: char -> bool) {
    s == [] || (!p(s[0]) && !p(s[|s| - 1]))
  }

  predicate Stripped(s: string) {
    StrippedBy(s, IsSpace)
  }

  /** `s.lstrip(chars)`: drops the longest prefix made of characters satisfying `p`. */
  function TrimLeftBy(s: string, p: char -> bool): (r: string)
    ensures |r| <= |s| && r == s[|s| - |r|..]
    ensures forall k :: 0 <= k < |s| - |r| ==> p(s[k])
    ensures r == [] || !p(r[0])
    decreases |s|
  {
    if s != [] && p(s[0]) then TrimLeftBy(s[1..], p) else s
  }

  /** `s.rstrip(chars)`: drops the longest suffix made of characters satisfying `p`. */
  function TrimRightBy(s: string, p: char -> bool): (r: string)
    ensures |r| <= |s| && r == s[..|r|]
    ensures forall k :: |r| <= k < |s| ==> p(s[k])
    ensures r == [] || !p(r[|r| - 1])
    decreases |s|
  {
    if s != [] && p(s[|s| - 1]) then TrimRightBy(s[..|s| - 1], p) else s
  }

  /** `s.strip(chars)`: the infix of `s` left after dropping `p`-characters at both ends. */
  function StripBy(s: string, p: char -> bool): (r: string)
    ensures StrippedBy(r, p) && |r| <= |s|
  {
    var l := TrimLeftBy(s, p);
    var r := TrimRightBy(l, p);
    assert r == [] || r[0] == l[0];
    r
  }

  /** `s.strip()`. */
  function Strip(s: string): (r: string)
    ensures Stripped(r)
  {
    StripBy(s, IsSpace)
  }

  /** Stripping text that is already stripped changes nothing. */
  lemma StripByStripped(s: string, p: char -> bool)
    requires StrippedBy(s, p)
    ensures StripBy(s, p) == s
  {
    var l := TrimLeftBy(s, p);
    assert l == s;
  }

  /** `strip` is idempotent. */
  lemma StripIdempotent(s: string)
    ensures Strip(Strip(s)) == Strip(s)
  {
    StripByStripped(Strip(s), IsSpace);
  }

  /** Stripping text without any character of `p` changes nothing. */
  lemma StripByAbsent(s: string, p: char -> bool)
    requires forall k :: 0 <= k < |s| ==> !p(s[k])
    ensures StripBy(s, p) == s
  {
    StripByStripped(s, p);
  }

  /** Stripping keeps only characters of the original: a property of every character of `s`
      holds of every character of the stripped text. */
  lemma StripByKeeps(s: string, p: char -> bool, q: char -> bool)
    requires forall k :: 0 <= k < |s| ==> q(s[k])
    ensures forall k :: 0 <= k < |StripBy(s, p)| ==> q(StripBy(s, p)[k])
  {
    var l := TrimLeftBy(s, p);
    var i := |s| - |l|;
    var r := TrimRightBy(l, p);
    assert r == StripBy(s, p);
    assert r == s[i..i + |r|];
    forall k | 0 <= k < |r|
      ensures q(r[k])
    {
      assert r[k] == s[i + k];
    }
  }

  /** Text that starts with a non-space keeps that first character through `strip`. */
  lemma StripKeepsFirst(s: string)
    requires s != [] && !IsSpace(s[0])
    ensures Strip(s) != [] && Strip(s)[0] == s[0]
  {
    assert TrimLeftBy(s, IsSpace) == s;
  }

  lemma {:induction false} TrimLeftAppendSpace(x: string, c: char)
    requires IsSpace(c)
    ensures TrimLeftBy(x + [c], IsSpace) ==
      if TrimLeftBy(x, IsSpace) == [] then [] else TrimLeftBy(x, IsSpace) + [c]
    decreases |x|
  {
    if x == [] {
      assert ([] + [c])[1..] == [];
    } else if IsSpace(x[0]) {
      TrimLeftAppendSpace(x[1..], c);
      TrimLeftSpaceStep(x, c);
    } else {
      assert (x + [c])[0] == x[0];
    }
  }

  lemma TrimLeftSpaceStep(x: string, c: char)
    requires x != [] && IsSpace(x[0])
    ensures TrimLeftBy(x + [c], IsSpace) == TrimLeftBy(x[1..] + [c], IsSpace)
    ensures TrimLeftBy(x, IsSpace) == TrimLeftBy(x[1..], IsSpace)
  {
    assert (x + [c])[0] == x[0] && (x + [c])[1..] == x[1..] + [c];
  }

  /** One more trailing whitespace character does not change what `strip` leaves. */
  lemma StripAppendSpace(x: string, c: char)
    requires IsSpace(c)
    ensures Strip(x + [c]) == Strip(x)
  {
    TrimLeftAppendSpace(x, c);
    var l := TrimLeftBy(x, IsSpace);
    if l != [] {
      assert (l + [c])[..|l|] == l;
    }
  }

  /** `str.lower()` on one character, for the ASCII letters. */
  function LowerChar(c: char): char {
    if 'A' <= c <= 'Z' then (c as int + 32) as char else c
  }

  /** `s.lower()` (ASCII case mapping). */
  function Lower(s: string): (r: string)
    ensures |r| == |s|
    ensures forall k :: 0 <= k < |s| ==> r[k] == LowerChar(s[k])
  {
    seq(|s|, k requires 0 <= k < |s| => LowerChar(s[k]))
  }

  /** Lower-casing twice is lower-casing once. */
  lemma LowerIdempotent(s: string)
    ensures Lower(Lower(s)) == Lower(s)
  {
  }

  /** `sep.join(parts)`. */
  function Join(parts: seq<string>, sep: string): (r: string)
    ensures parts == [] ==> r == ""
    ensures |parts| == 1 ==> r == parts[0]
  {
    if parts == [] then ""
    else if |parts| == 1 then parts[0]
    else parts[0] + sep + Join(parts[1..], sep)
  }

  /** The index of the first line boundary of `s`, or `|s|` when there is none. */
  function FirstBreak(s: string): (k: nat)
    ensures k <= |s|
    ensures k < |s| ==> IsLineBreak(s[k])
    ensures forall m :: 0 <= m < k ==> !IsLineBreak(s[m])
  {
    if s == [] then 0
    else if IsLineBreak(s[0]) then 0
    else 1 + FirstBreak(s[1..])
  }

  /** `s.splitlines()`: the lines of `s` without their boundaries; `"\r\n"` is one boundary
      and a boundary at the very end does not open a further, empty line. */
  function SplitLines(s: string): (r: seq<string>)
    ensures s == [] <==> r == []
    ensures forall k :: 0 <= k < |r| ==> NoLineBreak(r[k])
    decreases |s|
  {
    if s == [] then []
    else
      var k := FirstBreak(s);
      if k == |s| then [s]
      else
        var skip := if s[k] == '\r' && k + 1 < |s| && s[k + 1] == '\n' then 2 else 1;
        [s[..k]] + SplitLines(s[k + skip..])
  }

  /** Text without boundaries is one line, or none when it is empty. */
  lemma SplitLinesSingle(p: string)
    requires NoLineBreak(p)
    ensures SplitLines(p) == if p == "" then [] else [p]
  {
    if p != "" {
      assert FirstBreak(p) == |p|;
    }
  }

  /** The parts without their last one when that one is empty. */
  function DropEmptyLast(parts: seq<string>): (r: seq<string>)
    requires parts != []
    ensures r == parts || r == parts[..|parts| - 1]
  {
    if parts[|parts| - 1] == "" then parts[..|parts| - 1] else parts
  }

  lemma DropEmptyLastCons(p: string, rest: seq<string>)
    requires rest != []
    ensures DropEmptyLast([p] + rest) == [p] + DropEmptyLast(rest)
  {
    var parts := [p] + rest;
    assert parts[|parts| - 1] == rest[|rest| - 1];
    if rest[|rest| - 1] == "" {
      assert parts[..|parts| - 1] == [p] + rest[..|rest| - 1];
    }
  }

  /** Splitting `"\n".join(parts)` gives back the parts, up to one empty part at the end:
      `splitlines` does not open a line after a final boundary. */
  lemma {:induction false} SplitLinesOfJoin(parts: seq<string>)
    requires parts != []
    requires forall k :: 0 <= k < |parts| ==> NoLineBreak(parts[k])
    ensures SplitLines(Join(parts, "\n")) == DropEmptyLast(parts)
  {
    if |parts| == 1 {
      SplitLinesSingle(parts[0]);
    } else {
      var p, rest := parts[0], parts[1..];
      var tail := Join(rest, "\n");
      assert SplitLines(Join(parts, "\n")) == [p] + SplitLines(tail) by {
        assert Join(parts, "\n") == p + "\n" + tail;
        SplitLinesStep(p, tail);
      }
      assert SplitLines(tail) == DropEmptyLast(rest) by {
        assert forall k :: 0 <= k < |rest| ==> rest[k] == parts[k + 1];
        SplitLinesOfJoin(rest);
      }
      assert parts == [p] + rest;
      DropEmptyLastCons(p, rest);
    }
  }

  /** A line without boundaries followed by "\n" is the first line of the text. */
  lemma SplitLinesStep(p: string, t: string)
    requires NoLineBreak(p)
    ensures SplitLines(p + "\n" + t) == [p] + SplitLines(t)
  {
    var s := p + "\n" + t;
    assert FirstBreak(s) == |p| by {
      assert forall m :: 0 <= m < |p| ==> s[m] == p[m];
      assert s[|p|] == '\n' && IsLineBreak(s[|p|]);
      FirstBreakAt(s, |p|);
    }
    assert s[..|p|] == p && s[|p| + 1..] == t;
  }

  lemma FirstBreakAt(s: string, k: nat)
    requires k < |s| && IsLineBreak(s[k])
    requires forall m :: 0 <= m < k ==> !IsLineBreak(s[m])
    ensures FirstBreak(s) == k
  {
    if k > 0 {
      FirstBreakAt(s[1..], k - 1);
    }
  }

  /** `s[:n]`. */
  function Take(s: string, n: nat): (r: string)
    ensures |r| == if |s| <= n then |s| else n
    ensures r <= s
  {
    if |s| <= n then s else s[..n]
  }
}
