/** The string operations of the modelled programs: white space, trimming, lines, searching. */
module Text {
  import opened Wrappers

  /** White space as `str.isspace` and `\s` have it. */
  predicate IsSpace(c: char) {
    || '\t' <= c <= '\r' || '\U{1c}' <= c <= ' ' || c == '\U{85}' || c == '\U{a0}' || c == '\U{1680}'
    || '\U{2000}' <= c <= '\U{200a}' || c == '\U{2028}' || c == '\U{2029}' || c == '\U{202f}'
    || c == '\U{205f}' || c == '\U{3000}'
  }

  /** The characters at which `str.splitlines` ends a line. */
  predicate IsBreak(c: char) {
    '\n' <= c <= '\r' || '\U{1c}' <= c <= '\U{1e}' || c == '\U{85}' || c == '\U{2028}' || c == '\U{2029}'
  }

  /** The code points of both. */
  lemma SpacesAre(c: char)
    ensures var n := c as int;
            && (IsSpace(c) <==>
                  n in {9, 10, 11, 12, 13, 28, 29, 30, 31, 32, 133, 160, 5760, 8192, 8193, 8194, 8195, 8196, 8197, 8198,
                        8199, 8200, 8201, 8202, 8232, 8233, 8239, 8287, 12288})
            && (IsBreak(c) <==> n in {10, 11, 12, 13, 28, 29, 30, 133, 8232, 8233})
  {}

  function StripLeft(s: string): string
    decreases |s|
  {
    if s != "" && IsSpace(s[0]) then StripLeft(s[1..]) else s
  }

  function StripRight(s: string): string
    decreases |s|
  {
    if s != "" && IsSpace(s[|s| - 1]) then StripRight(s[..|s| - 1]) else s
  }

  function Strip(s: string): string {
    StripRight(StripLeft(s))
  }

  predicate Trimmed(s: string) {
    s == "" || (!IsSpace(s[0]) && !IsSpace(s[|s| - 1]))
  }

  lemma {:induction false} StripLeftTrims(s: string)
    ensures var t := StripLeft(s); t == "" || !IsSpace(t[0])
    ensures |StripLeft(s)| <= |s| && StripLeft(s) == s[|s| - |StripLeft(s)|..]
    decreases |s|
  {
    if s != "" && IsSpace(s[0]) { StripLeftTrims(s[1..]); }
  }

  lemma {:induction false} StripRightTrims(s: string)
    ensures StripRight(s) <= s
    ensures var t := StripRight(s); t == "" || !IsSpace(t[|t| - 1])
    decreases |s|
  {
    if s != "" && IsSpace(s[|s| - 1]) { StripRightTrims(s[..|s| - 1]); }
  }

  /** Trimming leaves a trimmed stretch of the text, and trimmed text alone. */
  lemma StripTrims(s: string)
    ensures Trimmed(Strip(s))
    ensures Trimmed(s) ==> Strip(s) == s
    ensures forall c :: c in Strip(s) ==> c in s
  {
    StripLeftTrims(s);
    StripRightTrims(StripLeft(s));
    if Strip(s) != "" { assert Strip(s)[0] == StripLeft(s)[0]; }
  }

  function SplitLines(s: string): seq<string> {
    LinesFrom(s, "")
  }

  function LinesFrom(s: string, line: string): seq<string>
    decreases |s|
  {
    if s == "" then if line == "" then [] else [line]
    else if |s| >= 2 && s[0] == '\r' && s[1] == '\n' then [line] + LinesFrom(s[2..], "")
    else if IsBreak(s[0]) then [line] + LinesFrom(s[1..], "")
    else LinesFrom(s[1..], line + [s[0]])
  }

  predicate Unbroken(s: string) {
    forall c :: c in s ==> !IsBreak(c)
  }

  lemma {:induction false} LineGathers(w: string, rest: string, line: string)
    requires Unbroken(w)
    ensures LinesFrom(w + rest, line) == LinesFrom(rest, line + w)
    decreases |w|
  {
    if w == "" {
      assert w + rest == rest && line + w == line;
    } else {
      assert (w + rest)[0] == w[0] && (w + rest)[1..] == w[1..] + rest;
      assert line + w == (line + [w[0]]) + w[1..];
      assert w[0] in w && forall c :: c in w[1..] ==> c in w;
      LineGathers(w[1..], rest, line + [w[0]]);
    }
  }

  lemma {:induction false} LinesAreUnbroken(s: string, line: string)
    requires Unbroken(line)
    ensures forall l :: l in LinesFrom(s, line) ==> Unbroken(l)
    decreases |s|
  {
    if s != "" {
      if |s| >= 2 && s[0] == '\r' && s[1] == '\n' { LinesAreUnbroken(s[2..], ""); }
      else if IsBreak(s[0]) { LinesAreUnbroken(s[1..], ""); }
      else { LinesAreUnbroken(s[1..], line + [s[0]]); }
    }
  }

  /** `sep.join(parts)` */
  function Joined(parts: seq<string>, sep: string): string {
    if parts == [] then "" else if |parts| == 1 then parts[0] else parts[0] + sep + Joined(parts[1..], sep)
  }

  function Lower(c: char): char {
    if 'A' <= c <= 'Z' then ((c as int) + 32) as char else c
  }

  /** Where `w` first occurs in `s`. */
  function Find(s: string, w: string): Option<nat>
    requires w != ""
    decreases |s|
  {
    if |s| < |w| then None
    else if w <= s then Some(0)
    else match Find(s[1..], w) case None => None case Some(i) => Some(i + 1)
  }

  predicate OccursAt(s: string, w: string, i: nat) {
    i + |w| <= |s| && s[i..i + |w|] == w
  }

  lemma {:induction false} FindIsFirst(s: string, w: string)
    requires w != ""
    ensures match Find(s, w)
            case Some(i) => OccursAt(s, w, i) && forall j :: 0 <= j < i ==> !OccursAt(s, w, j)
            case None => forall j :: 0 <= j ==> !OccursAt(s, w, j)
    decreases |s|
  {
    if |s| >= |w| && !(w <= s) {
      FindIsFirst(s[1..], w);
      forall j | 0 < j && OccursAt(s, w, j) ensures OccursAt(s[1..], w, j - 1) {
        assert s[1..][j - 1..j - 1 + |w|] == s[j..j + |w|];
      }
      match Find(s[1..], w)
      case Some(i) => assert s[1..][i..i + |w|] == s[i + 1..i + 1 + |w|];
      case None =>
    } else if |s| >= |w| {
      assert s[0..|w|] == w;
    }
  }

  lemma FindUnique(s: string, w: string, i: nat)
    requires w != "" && OccursAt(s, w, i) && forall j :: 0 <= j < i ==> !OccursAt(s, w, j)
    ensures Find(s, w) == Some(i)
  {
    FindIsFirst(s, w);
  }
}
