/** The printer and the parser of an entry's front matter. */
module FrontMatter {
  import opened Wrappers
  import opened Text

  type Meta = map<string, Option<string>>

  datatype Error = NoFrontMatter | NotClosed | BadLine | MissingKey | BadClass | BadAuthority

  const KEYS: seq<string> := ["class", "subject", "type", "scope", "authority", "stated",
                              "source", "recheck_after", "supersedes", "superseded_by",
                              "retired_at", "retired_reason"]
  const REQUIRED: seq<string> := ["class", "subject", "type", "scope", "authority", "stated"]
  const CLASSES: seq<string> := ["ground-truth", "fact", "provisional", "history"]
  const AUTHORITIES: seq<string> := ["owner", "measured", "agent"]

  // ---------------------------------------------------------------- printing

  function Get(meta: Meta, key: string): Option<string> {
    if key in meta then meta[key] else None
  }

  function Shown(v: Option<string>): string {
    if v.Some? then v.value else "null"
  }

  function Line(meta: Meta, key: string): string {
    key + ": " + Shown(Get(meta, key))
  }

  function Lines(meta: Meta, keys: seq<string>): string
    decreases |keys|
  {
    if keys == [] then "" else Line(meta, keys[0]) + "\n" + Lines(meta, keys[1..])
  }

  /** `_render` */
  function Render(meta: Meta, body: string): string {
    "---\n" + Lines(meta, KEYS) + "---" + ("\n\n" + Strip(body) + "\n")
  }

  // ---------------------------------------------------------------- parsing

  function StripNewlines(s: string): string
    decreases |s|
  {
    if s != "" && s[0] == '\n' then StripNewlines(s[1..]) else s
  }

  function ReadValue(v: string): Option<string> {
    if v == "null" || v == "~" || v == "" then None else Some(v)
  }

  /** One front-matter line into the dictionary. */
  function ReadLine(meta: Meta, raw: string): Result<Meta, Error> {
    var line := Strip(raw);
    if line == "" || line[0] == '#' then Ok(meta)
    else match Find(line, ":")
         case None => Err(BadLine)
         case Some(i) =>
           FindIsFirst(line, ":");
           Ok(meta[Strip(line[..i]) := ReadValue(Strip(line[i + 1..]))])
  }

  function ReadLines(meta: Meta, lines: seq<string>): Result<Meta, Error>
    decreases |lines|
  {
    if lines == [] then Ok(meta)
    else match ReadLine(meta, lines[0])
         case Err(e) => Err(e)
         case Ok(m) => ReadLines(m, lines[1..])
  }

  predicate Present(meta: Meta, key: string) {
    Get(meta, key).Some? && Get(meta, key).value != ""
  }

  function Checked(meta: Meta, body: string): Result<(Meta, string), Error> {
    if exists k :: k in REQUIRED && !Present(meta, k) then Err(MissingKey)
    else
      assert "class" == REQUIRED[0] && "authority" == REQUIRED[4];
      assert Present(meta, "class") && Present(meta, "authority");
      if meta["class"].value !in CLASSES then Err(BadClass)
      else if meta["authority"].value !in AUTHORITIES then Err(BadAuthority)
      else Ok((meta, body))
  }

  /** `_parse_front` */
  function Parse(text: string): Result<(Meta, string), Error> {
    if !("---" <= text) then Err(NoFrontMatter)
    else match Find(text[3..], "---")
         case None => Err(NotClosed)
         case Some(i) =>
           FindIsFirst(text[3..], "---");
           var front, body := text[3..][..i], StripNewlines(text[3..][i + 3..]);
           match ReadLines(map[], SplitLines(front))
           case Err(e) => Err(e)
           case Ok(meta) => Checked(meta, body)
  }

  /** The loop over the lines between the fences. */
  method ReadFront(lines: seq<string>) returns (r: Result<Meta, Error>)
    ensures r == ReadLines(map[], lines)
  {
    var meta: Meta := map[];
    for n := 0 to |lines|
      invariant ReadLines(map[], lines) == ReadLines(meta, lines[n..])
    {
      assert lines[n..][0] == lines[n] && lines[n..][1..] == lines[n + 1..];
      var line := Strip(lines[n]);
      if line == "" || line[0] == '#' {
        continue;
      }
      var colon := Find(line, ":");
      if colon.None? {
        return Err(BadLine);
      }
      FindIsFirst(line, ":");
      meta := meta[Strip(line[..colon.value]) := ReadValue(Strip(line[colon.value + 1..]))];
    }
    r := Ok(meta);
  }

  method ParseFront(text: string) returns (r: Result<(Meta, string), Error>)
    ensures r == Parse(text)
  {
    if !("---" <= text) {
      return Err(NoFrontMatter);
    }
    var close := Find(text[3..], "---");
    if close.None? {
      return Err(NotClosed);
    }
    FindIsFirst(text[3..], "---");
    var front, body := text[3..][..close.value], StripNewlines(text[3..][close.value + 3..]);
    var read := ReadFront(SplitLines(front));
    if read.Err? {
      return Err(read.error);
    }
    var meta := read.value;
    for n := 0 to |REQUIRED|
      invariant forall k :: 0 <= k < n ==> Present(meta, REQUIRED[k])
    {
      if !Present(meta, REQUIRED[n]) {
        assert REQUIRED[n] in REQUIRED;
        return Err(MissingKey);
      }
    }
    r := Checked(meta, body);
  }

  // ---------------------------------------------------------------- values that survive

  /** No stretch of the text closes the front matter. */
  predicate NoDashes(s: string) {
    forall i :: 0 <= i < |s| - 2 ==> !(s[i] == '-' && s[i + 1] == '-' && s[i + 2] == '-')
  }

  lemma DashesOccur(s: string, i: nat)
    ensures OccursAt(s, "---", i) <==> i + 2 < |s| && s[i] == '-' && s[i + 1] == '-' && s[i + 2] == '-'
  {
    if i + 2 < |s| {
      var t := s[i..i + 3];
      assert t[0] == s[i] && t[1] == s[i + 1] && t[2] == s[i + 2];
      assert t == [s[i], s[i + 1], s[i + 2]];
    }
  }

  /** A value that can be written on a line and read back as itself. */
  predicate Plain(v: Option<string>) {
    v.Some? ==> && v.value != "" && v.value != "null" && v.value != "~"
                && Trimmed(v.value) && Unbroken(v.value) && NoDashes(v.value)
  }

  /** What reading makes of a printed value: an empty one is none. */
  function AsRead(v: Option<string>): Option<string> {
    if v == Some("") then None else v
  }

  /** A value that is read back as itself, or is empty. */
  predicate Safe(v: Option<string>) {
    v == Some("") || Plain(v)
  }

  /** What reading makes of any value that stays on its line. */
  function Reads(v: Option<string>): Option<string> {
    ReadValue(Strip(Shown(v)))
  }

  /** The value stays on its line and does not close the front matter. */
  predicate Fits(v: Option<string>) {
    Unbroken(Shown(v)) && NoDashes(Shown(v))
  }

  lemma SafeFits(v: Option<string>)
    requires Safe(v)
    ensures Fits(v) && Reads(v) == AsRead(v)
  {
    StripTrims(Shown(v));
  }

  predicate SafeMeta(meta: Meta) {
    forall k :: k in KEYS ==> Safe(Get(meta, k))
  }

  predicate PlainMeta(meta: Meta) {
    forall k :: k in KEYS ==> Plain(Get(meta, k))
  }

  /** What a store may print: the required keys and valid class and authority. */
  predicate Complete(meta: Meta) {
    && (forall k :: k in REQUIRED ==> Present(meta, k))
    && Get(meta, "class").Some? && Get(meta, "class").value in CLASSES
    && Get(meta, "authority").Some? && Get(meta, "authority").value in AUTHORITIES
  }

  // ---------------------------------------------------------------- what is read is plain

  lemma PartHasNoDashes(s: string, i: nat, j: nat)
    requires NoDashes(s) && i <= j <= |s|
    ensures NoDashes(s[i..j])
  {}

  lemma StripHasNoDashes(s: string)
    requires NoDashes(s)
    ensures NoDashes(Strip(s))
  {
    var t, u := StripLeft(s), Strip(s);
    var d := StripIsPart(s);
    PartHasNoDashes(s, d, d + |u|);
  }

  lemma StripIsPart(s: string) returns (d: nat)
    ensures d + |Strip(s)| <= |s| && s[d..d + |Strip(s)|] == Strip(s)
  {
    var t, u := StripLeft(s), Strip(s);
    StripLeftTrims(s);
    StripRightTrims(t);
    d := |s| - |t|;
    assert s[d..d + |u|] == s[d..][..|u|] == t[..|u|];
  }

  lemma {:induction false} LinesHaveNoDashes(s: string, line: string)
    requires NoDashes(line + s)
    ensures forall l :: l in LinesFrom(s, line) ==> NoDashes(l)
    decreases |s|
  {
    var all := line + s;
    PartHasNoDashes(all, 0, |line|);
    assert all[0..|line|] == line;
    if s != "" {
      if |s| >= 2 && s[0] == '\r' && s[1] == '\n' {
        PartHasNoDashes(all, |line| + 2, |all|);
        assert all[|line| + 2..|all|] == "" + s[2..];
        LinesHaveNoDashes(s[2..], "");
      } else if IsBreak(s[0]) {
        PartHasNoDashes(all, |line| + 1, |all|);
        assert all[|line| + 1..|all|] == "" + s[1..];
        LinesHaveNoDashes(s[1..], "");
      } else {
        assert line + [s[0]] + s[1..] == all;
        LinesHaveNoDashes(s[1..], line + [s[0]]);
      }
    }
  }

  lemma ReadValueIsPlain(v: string)
    requires Unbroken(v) && NoDashes(v)
    ensures Plain(ReadValue(Strip(v)))
  {
    StripTrims(v);
    StripHasNoDashes(v);
  }

  lemma ReadLineIsPlain(meta: Meta, raw: string)
    requires forall k :: k in meta ==> Plain(meta[k])
    requires Unbroken(raw) && NoDashes(raw) && ReadLine(meta, raw).Ok?
    ensures forall k :: k in ReadLine(meta, raw).value ==> Plain(ReadLine(meta, raw).value[k])
  {
    var line := Strip(raw);
    if line != "" && line[0] != '#' {
      FindIsFirst(line, ":");
      RestIsClean(raw, Find(line, ":").value + 1);
      ReadValueIsPlain(line[Find(line, ":").value + 1..]);
    }
  }

  lemma RestIsClean(raw: string, i: nat)
    requires Unbroken(raw) && NoDashes(raw) && i <= |Strip(raw)|
    ensures Unbroken(Strip(raw)[i..]) && NoDashes(Strip(raw)[i..])
  {
    var line := Strip(raw);
    StripTrims(raw);
    StripHasNoDashes(raw);
    PartHasNoDashes(line, i, |line|);
    assert line[i..|line|] == line[i..];
    assert forall c :: c in line[i..] ==> c in line;
  }

  lemma {:induction false} ReadLinesArePlain(meta: Meta, lines: seq<string>)
    requires forall k :: k in meta ==> Plain(meta[k])
    requires forall l :: l in lines ==> Unbroken(l) && NoDashes(l)
    requires ReadLines(meta, lines).Ok?
    ensures forall k :: k in ReadLines(meta, lines).value ==> Plain(ReadLines(meta, lines).value[k])
    decreases |lines|
  {
    if lines != [] {
      assert lines[0] in lines && forall l :: l in lines[1..] ==> l in lines;
      ReadLineIsPlain(meta, lines[0]);
      ReadLinesArePlain(ReadLine(meta, lines[0]).value, lines[1..]);
    }
  }

  /** Whatever the parser accepts, every value it returns is plain. */
  lemma ParsedValuesArePlain(text: string)
    requires Parse(text).Ok?
    ensures forall k :: k in Parse(text).value.0 ==> Plain(Parse(text).value.0[k])
  {
    var rest := text[3..];
    FindIsFirst(rest, "---");
    var front := rest[..Find(rest, "---").value];
    forall j | 0 <= j < |front| - 2 ensures !(front[j] == '-' && front[j + 1] == '-' && front[j + 2] == '-') {
      DashesOccur(rest, j);
    }
    LinesAreUnbroken(front, "");
    assert "" + front == front;
    LinesHaveNoDashes(front, "");
    ReadLinesArePlain(map[], SplitLines(front));
  }

  // ---------------------------------------------------------------- what is plain is read back

  /** Front-matter keys are letters and underscores. */
  predicate KeyChar(c: char) {
    'a' <= c <= 'z' || c == '_'
  }

  predicate IsKey(k: string) {
    k != "" && forall c :: c in k ==> KeyChar(c)
  }

  lemma KeysAreKeys()
    ensures forall k :: k in KEYS ==> IsKey(k)
  {}

  lemma NoDashesJoined(a: string, b: string)
    requires NoDashes(a) && NoDashes(b) && (a == "" || a[|a| - 1] != '-')
    ensures NoDashes(a + b)
  {
    var s := a + b;
    forall i | 0 <= i < |s| - 2 ensures !(s[i] == '-' && s[i + 1] == '-' && s[i + 2] == '-') {
      if |a| <= i {
        assert s[i] == b[i - |a|] && s[i + 1] == b[i + 1 - |a|] && s[i + 2] == b[i + 2 - |a|];
      }
    }
  }

  lemma LineIsClean(meta: Meta, key: string)
    requires IsKey(key) && Fits(Get(meta, key))
    ensures NoDashes(Line(meta, key) + "\n") && Unbroken(Line(meta, key)) && Line(meta, key) != ""
  {
    var v := Shown(Get(meta, key));
    var head := key + ": ";
    assert key[0] in key;
    forall c | c in head ensures c != '-' && !IsBreak(c) {
      if c in key { assert KeyChar(c); }
    }
    forall i | 0 <= i < |head| ensures head[i] != '-' {
      assert head[i] in head;
    }
    NoDashesJoined(head, v);
    assert NoDashes(v + "\n");
    NoDashesJoined(head, v + "\n");
    assert head + (v + "\n") == Line(meta, key) + "\n";
    assert Line(meta, key) == head + v;
  }

  lemma SplitFirstLine(l: string, rest: string)
    requires Unbroken(l)
    ensures SplitLines(l + "\n" + rest) == [l] + SplitLines(rest)
  {
    LineGathers(l, "\n" + rest, "");
    assert l + "\n" + rest == l + ("\n" + rest);
    assert "" + l == l && ("\n" + rest)[1..] == rest;
  }

  function LineList(meta: Meta, keys: seq<string>): seq<string> {
    if keys == [] then [] else [Line(meta, keys[0])] + LineList(meta, keys[1..])
  }

  lemma {:induction false} LinesAreClean(meta: Meta, keys: seq<string>)
    requires forall k :: k in keys ==> IsKey(k) && Fits(Get(meta, k))
    ensures NoDashes(Lines(meta, keys))
    ensures SplitLines(Lines(meta, keys)) == LineList(meta, keys)
    decreases |keys|
  {
    if keys != [] {
      var k, rest := keys[0], Lines(meta, keys[1..]);
      assert k in keys && forall x :: x in keys[1..] ==> x in keys;
      LineIsClean(meta, k);
      LinesAreClean(meta, keys[1..]);
      NoDashesJoined(Line(meta, k) + "\n", rest);
      SplitFirstLine(Line(meta, k), rest);
    }
  }

  lemma {:induction false} StripRightJoined(a: string, v: string)
    ensures StripRight(a + v) == if StripRight(v) == "" then StripRight(a) else a + StripRight(v)
    decreases |v|
  {
    if v == "" {
      assert a + v == a;
    } else if IsSpace(v[|v| - 1]) {
      assert (a + v)[..|a + v| - 1] == a + v[..|v| - 1];
      StripRightJoined(a, v[..|v| - 1]);
    }
  }

  /** White space at the end makes no difference to trimming. */
  lemma {:induction false} StripOfStripRight(v: string)
    ensures Strip(StripRight(v)) == Strip(v)
    decreases |v|
  {
    if v != "" {
      assert v == [v[0]] + v[1..];
      StripRightJoined([v[0]], v[1..]);
      StripOfStripRight(v[1..]);
      StripRightTrims(v);
      if IsSpace(v[0]) {
        assert [v[0]][..0] == "";
        if StripRight(v[1..]) != "" { assert StripRight(v)[1..] == StripRight(v[1..]); }
      } else {
        assert StripRight([v[0]]) == [v[0]];
        assert StripLeft(StripRight(v)) == StripRight(v);
      }
    }
  }

  lemma ColonIsFound(key: string, rest: string)
    requires IsKey(key)
    ensures Find(key + ":" + rest, ":") == Some(|key|)
  {
    var l := key + ":" + rest;
    forall j | 0 <= j < |key| ensures !OccursAt(l, ":", j) {
      assert l[j] == key[j] && key[j] in key;
      assert l[j..j + 1] == [l[j]];
    }
    assert l[|key|..|key| + 1] == ":";
    FindUnique(l, ":", |key|);
  }

  lemma KeyStrips(key: string)
    requires IsKey(key)
    ensures Strip(key) == key
  {
    assert key[0] in key && key[|key| - 1] in key;
    StripTrims(key);
  }

  /** A line without a value, trimmed. */
  lemma EmptyLineStrips(key: string)
    requires IsKey(key)
    ensures StripRight(key + ": ") == key + ":"
  {
    var l, m := key + ": ", key + ":";
    assert l[..|l| - 1] == m && m[|m| - 1] == ':';
  }

  /** Reading a line with any value on it. */
  lemma ReadsLine(acc: Meta, key: string, v: string)
    requires IsKey(key)
    ensures ReadLine(acc, key + ": " + v) == Ok(acc[key := ReadValue(Strip(v))])
  {
    var l, w := key + ": " + v, StripRight(v);
    assert key[0] in key;
    KeyStrips(key);
    StripOfStripRight(v);
    StripRightJoined(key + ": ", v);
    assert l[0] == key[0] && StripLeft(l) == l;
    if w == "" {
      EmptyLineStrips(key);
      ColonIsFound(key, "");
      var t := key + ":";
      assert t + "" == t && t[..|key|] == key && t[|key| + 1..] == "";
    } else {
      ColonIsFound(key, " " + w);
      var t := key + ": " + w;
      assert t == key + ":" + (" " + w) && t[..|key|] == key && t[|key| + 1..] == " " + w;
      assert (" " + w)[1..] == w;
    }
  }

  lemma {:induction false} ReadLinesBack(acc: Meta, meta: Meta, keys: seq<string>)
    requires forall k :: k in keys ==> IsKey(k)
    ensures var r := ReadLines(acc, LineList(meta, keys));
            r.Ok? && forall k :: Get(r.value, k) == if k in keys then Reads(Get(meta, k)) else Get(acc, k)
    decreases |keys|
  {
    if keys != [] {
      assert keys[0] in keys && forall x :: x in keys[1..] ==> x in keys;
      ReadsLine(acc, keys[0], Shown(Get(meta, keys[0])));
      ReadLinesBack(acc[keys[0] := Reads(Get(meta, keys[0]))], meta, keys[1..]);
      assert LineList(meta, keys)[1..] == LineList(meta, keys[1..]);
      assert forall k :: k in keys <==> k == keys[0] || k in keys[1..];
    }
  }

  lemma FrontIsFound(front: string, tail: string)
    requires NoDashes(front) && (front == "" || front[|front| - 1] != '-')
    ensures Find(front + "---" + tail, "---") == Some(|front|)
  {
    var s := front + "---" + tail;
    forall j | 0 <= j < |front| ensures !OccursAt(s, "---", j) {
      DashesOccur(s, j);
      if j + 2 < |front| {
        assert s[j] == front[j] && s[j + 1] == front[j + 1] && s[j + 2] == front[j + 2];
      } else {
        assert s[|front| - 1] == front[|front| - 1];
      }
    }
    assert s[|front|..|front| + 3] == "---";
    FindUnique(s, "---", |front|);
  }

  lemma BodyComesBack(body: string)
    ensures Strip(StripNewlines("\n\n" + Strip(body) + "\n")) == Strip(body)
  {
    var b := Strip(body);
    StripTrims(body);
    var t := "\n\n" + b + "\n";
    assert t[1..][1..] == b + "\n";
    assert StripNewlines(t) == StripNewlines(b + "\n");
    if b == "" {
      assert b + "\n" == "\n" && "\n"[1..] == "";
    } else {
      var u := b + "\n";
      assert u[0] == b[0] && StripNewlines(u) == u && StripLeft(u) == u;
      assert u[..|u| - 1] == b;
      StripTrims(b);
    }
  }

  /** The values of the given keys are read as they were written. */
  predicate AgreeAsRead(a: Meta, b: Meta, keys: seq<string>) {
    forall k :: k in keys ==> Get(a, k) == AsRead(Get(b, k))
  }

  /** The values of the given keys are the same in both. */
  predicate Agree(a: Meta, b: Meta, keys: seq<string>) {
    forall k :: k in keys ==> Get(a, k) == Get(b, k)
  }

  /** Parsing is over once the lines are read, if they were closed properly. */
  lemma ParseClosed(lines: string, tail: string)
    requires NoDashes(lines) && (lines == "" || lines[|lines| - 1] != '-')
    ensures Parse("---\n" + lines + "---" + tail) ==
            match ReadLines(map[], SplitLines(lines)) {
              case Err(e) => Err(e)
              case Ok(m) => Checked(m, StripNewlines(tail))
            }
  {
    var text, front := "---\n" + lines + "---" + tail, "\n" + lines;
    NoDashesJoined("\n", lines);
    FrontIsFound(front, tail);
    CutsAtFence(front, tail);
    assert text[3..] == front + "---" + tail;
  }

  lemma CutsAtFence(front: string, tail: string)
    ensures var s := front + "---" + tail; s[..|front|] == front && s[|front| + 3..] == tail
  {}

  lemma LinesEndInNewline(meta: Meta, keys: seq<string>)
    ensures keys != [] ==> Lines(meta, keys) != "" && Lines(meta, keys)[|Lines(meta, keys)| - 1] == '\n'
    decreases |keys|
  {
    if keys != [] { LinesEndInNewline(meta, keys[1..]); }
  }

  /** Nothing cuts the front matter short. */
  lemma ReadsWhole(meta: Meta, body: string) returns (m: Meta, rest: string)
    requires forall k :: k in KEYS ==> Fits(Get(meta, k))
    ensures Parse(Render(meta, body)) == Checked(m, rest)
    ensures forall k :: Get(m, k) == if k in KEYS then Reads(Get(meta, k)) else None
    ensures Strip(rest) == Strip(body)
  {
    hide Parse, Checked, Lines, SplitLines, StripNewlines, Strip, Reads, Fits;
    var tail := "\n\n" + Strip(body) + "\n";
    KeysAreKeys();
    BodyComesBack(body);
    LinesAreClean(meta, KEYS);
    LinesEndInNewline(meta, KEYS);
    ParseClosed(Lines(meta, KEYS), tail);
    ReadLinesBack(map[], meta, KEYS);
    m := ReadLines(map[], LineList(meta, KEYS)).value;
    rest := StripNewlines(tail);
  }

  lemma SafeParseRender(meta: Meta, body: string)
    requires Complete(meta) && SafeMeta(meta)
    ensures var r := Parse(Render(meta, body));
            r.Ok? && AgreeAsRead(r.value.0, meta, KEYS) && Strip(r.value.1) == Strip(body)
  {
    hide Parse, Render, Strip, Reads, Fits, Safe;
    forall k | k in KEYS ensures Fits(Get(meta, k)) && Reads(Get(meta, k)) == AsRead(Get(meta, k)) {
      SafeFits(Get(meta, k));
    }
    var m, rest := ReadsWhole(meta, body);
    forall k | k in REQUIRED ensures Present(m, k) { RequiredIsKnown(k); }
    RequiredIsKnown("class");
    RequiredIsKnown("authority");
  }

  lemma RequiredIsKnown(k: string)
    ensures k in REQUIRED ==> k in KEYS
    ensures "class" in REQUIRED && "authority" in REQUIRED
  {
    assert REQUIRED == KEYS[..6] && REQUIRED[0] == "class" && REQUIRED[4] == "authority";
  }

  /** What `_render` prints `_parse_front` reads back, key by key, with the trimmed body, which
      may itself contain the closing mark. */
  lemma ParseRender(meta: Meta, body: string)
    requires Complete(meta) && PlainMeta(meta)
    ensures var r := Parse(Render(meta, body));
            r.Ok? && Agree(r.value.0, meta, KEYS) && Strip(r.value.1) == Strip(body)
  {
    SafeParseRender(meta, body);
  }

  /** Exactly the metadata whose every known value is plain survives printing and parsing. */
  lemma RoundTripExactly(meta: Meta, body: string)
    requires Complete(meta)
    ensures (Parse(Render(meta, body)).Ok? && Agree(Parse(Render(meta, body)).value.0, meta, KEYS))
            <==> PlainMeta(meta)
  {
    if PlainMeta(meta) {
      ParseRender(meta, body);
    }
    var text := Render(meta, body);
    if Parse(text).Ok? && Agree(Parse(text).value.0, meta, KEYS) {
      ReadBackIsPlain(text, meta, KEYS);
    }
  }

  lemma ReadBackIsPlain(text: string, meta: Meta, keys: seq<string>)
    requires Parse(text).Ok? && Agree(Parse(text).value.0, meta, keys)
    ensures forall k :: k in keys ==> Plain(Get(meta, k))
  {
    ParsedValuesArePlain(text);
  }

  // ---------------------------------------------------------------- what a value that is not plain does

  lemma {:induction false} LinesConcat(meta: Meta, a: seq<string>, b: seq<string>)
    ensures Lines(meta, a + b) == Lines(meta, a) + Lines(meta, b)
    decreases |a|
  {
    if a == [] {
      assert a + b == b;
    } else {
      assert (a + b)[1..] == a[1..] + b;
      LinesConcat(meta, a[1..], b);
    }
  }

  lemma {:induction false} LinesThenLine(meta: Meta, keys: seq<string>, l: string)
    requires forall k :: k in keys ==> IsKey(k) && Fits(Get(meta, k))
    requires Unbroken(l) && l != ""
    ensures SplitLines(Lines(meta, keys) + l) == LineList(meta, keys) + [l]
    decreases |keys|
  {
    hide Shown, Get, NoDashes, IsKey, Unbroken;
    if keys == [] {
      LineGathers(l, "", "");
      assert l + "" == l && "" + l == l;
    } else {
      assert keys[0] in keys && forall x :: x in keys[1..] ==> x in keys;
      LineIsClean(meta, keys[0]);
      LinesThenLine(meta, keys[1..], l);
      SplitFirstLine(Line(meta, keys[0]), Lines(meta, keys[1..]) + l);
      assert Lines(meta, keys) + l == Line(meta, keys[0]) + "\n" + (Lines(meta, keys[1..]) + l);
    }
  }

  /** The value up to the first three dashes in it. */
  function Cut(v: string): (a: string)
    ensures a <= v
  {
    match Find(v, "---")
    case None => v
    case Some(i) =>
      FindIsFirst(v, "---");
      v[..i]
  }

  predicate Dashed(v: Option<string>) {
    !NoDashes(Shown(v))
  }

  /** Every value stays on its line, as far as the first three dashes. */
  predicate OnLines(meta: Meta, keys: seq<string>)
    decreases |keys|
  {
    keys == []
    || (Unbroken(Cut(Shown(Get(meta, keys[0])))) && (Dashed(Get(meta, keys[0])) || OnLines(meta, keys[1..])))
  }

  /** What the file keeps of a key's value: nothing when an earlier value has three dashes in it, and
      otherwise what stands before the first three dashes, trimmed. */
  function Kept(meta: Meta, keys: seq<string>, key: string): Option<string>
    decreases |keys|
  {
    if keys == [] then None
    else if keys[0] == key then ReadValue(Strip(Cut(Shown(Get(meta, key)))))
    else if Dashed(Get(meta, keys[0])) then None
    else Kept(meta, keys[1..], key)
  }

  lemma DashesAre(v: string)
    ensures NoDashes(v) <==> forall i :: 0 <= i ==> !OccursAt(v, "---", i)
  {
    if i :| 0 <= i < |v| - 2 && v[i] == '-' && v[i + 1] == '-' && v[i + 2] == '-' {
      DashesOccur(v, i);
    } else {
      forall i | 0 <= i ensures !OccursAt(v, "---", i) { DashesOccur(v, i); }
    }
  }

  /** What the cut leaves holds no three dashes, and what it cuts off begins with the first ones. */
  lemma CutExactly(v: string)
    ensures NoDashes(v) ==> Cut(v) == v
    ensures !NoDashes(v) ==> |Cut(v)| + 3 <= |v| && v == Cut(v) + "---" + v[|Cut(v)| + 3..]
    ensures NoDashes(Cut(v))
    ensures !NoDashes(v) && Cut(v) != "" ==> Cut(v)[|Cut(v)| - 1] != '-'
  {
    FindIsFirst(v, "---");
    DashesAre(v);
    if Find(v, "---").Some? { CutAtFirst(v, Find(v, "---").value); }
  }

  lemma CutAtFirst(v: string, n: nat)
    requires OccursAt(v, "---", n) && forall j :: 0 <= j < n ==> !OccursAt(v, "---", j)
    ensures v == v[..n] + "---" + v[n + 3..] && NoDashes(v[..n]) && (n > 0 ==> v[n - 1] != '-')
  {
    assert v[n..n + 3] == "---" && v == v[..n] + v[n..n + 3] + v[n + 3..];
    DashesOccur(v, n);
    forall j | 0 <= j < n ensures !(v[j] == '-' && v[j + 1] == '-' && v[j + 2] == '-') { DashesOccur(v, j); }
  }

  /** The place of the first value with three dashes in it, or the end. */
  function FirstDashed(meta: Meta, keys: seq<string>): (i: nat)
    ensures i <= |keys|
    decreases |keys|
  {
    if keys == [] || Dashed(Get(meta, keys[0])) then 0 else 1 + FirstDashed(meta, keys[1..])
  }

  lemma {:induction false} UpToDashes(meta: Meta, keys: seq<string>)
    requires OnLines(meta, keys)
    ensures var i := FirstDashed(meta, keys);
            && (forall k :: k in keys[..i] ==> Fits(Get(meta, k)))
            && (i < |keys| ==> Dashed(Get(meta, keys[i])) && Unbroken(Cut(Shown(Get(meta, keys[i])))))
    decreases |keys|
  {
    hide Cut, Shown, Get, NoDashes, Unbroken;
    if keys != [] && !Dashed(Get(meta, keys[0])) {
      var i := FirstDashed(meta, keys);
      CutExactly(Shown(Get(meta, keys[0])));
      UpToDashes(meta, keys[1..]);
      assert forall k :: k in keys[..i] ==> k == keys[0] || k in keys[1..][..i - 1];
    }
  }

  lemma {:induction false} KeptUpToDashes(meta: Meta, keys: seq<string>, key: string)
    ensures var i := FirstDashed(meta, keys);
            Kept(meta, keys, key)
            == if key in keys[..i] then Reads(Get(meta, key))
               else if i < |keys| && keys[i] == key then ReadValue(Strip(Cut(Shown(Get(meta, key))))) else None
    decreases |keys|
  {
    hide Cut, Shown, Get, NoDashes, ReadValue, Strip;
    if keys != [] && !Dashed(Get(meta, keys[0])) {
      var i := FirstDashed(meta, keys);
      CutExactly(Shown(Get(meta, keys[0])));
      KeptUpToDashes(meta, keys[1..], key);
      assert keys[..i] == [keys[0]] + keys[1..][..i - 1];
    }
  }

  lemma {:induction false} ReadLinesThen(acc: Meta, lines: seq<string>, l: string)
    requires ReadLines(acc, lines).Ok?
    ensures ReadLines(acc, lines + [l]) == ReadLine(ReadLines(acc, lines).value, l)
    decreases |lines|
  {
    if lines == [] {
      assert lines + [l] == [l] && [l][1..] == [];
    } else {
      assert (lines + [l])[0] == lines[0] && (lines + [l])[1..] == lines[1..] + [l];
      ReadLinesThen(ReadLine(acc, lines[0]).value, lines[1..], l);
    }
  }

  /** The line on which the front matter is cut. */
  lemma LastLineRead(meta: Meta, keys: seq<string>, key: string, a: string)
    requires (forall k :: k in keys ==> IsKey(k)) && IsKey(key)
    ensures var r := ReadLines(map[], LineList(meta, keys) + [key + ": " + a]);
            r.Ok? && forall k :: Get(r.value, k) ==
                       if k == key then ReadValue(Strip(a)) else if k in keys then Reads(Get(meta, k)) else None
  {
    ReadLinesBack(map[], meta, keys);
    ReadLinesThen(map[], LineList(meta, keys), key + ": " + a);
    ReadsLine(ReadLines(map[], LineList(meta, keys)).value, key, a);
  }

  lemma CutHasNoDashes(meta: Meta, keys: seq<string>, key: string, a: string)
    requires forall k :: k in keys ==> IsKey(k) && Fits(Get(meta, k))
    requires IsKey(key) && Unbroken(a) && NoDashes(a) && (a != "" ==> a[|a| - 1] != '-')
    ensures var l := key + ": " + a;
            var front := Lines(meta, keys) + l;
            NoDashes(front) && front != "" && front[|front| - 1] != '-' && Unbroken(l) && l != ""
  {
    LinesAreClean(meta, keys);
    LinesEndInNewline(meta, keys);
    var one: Meta := map[key := Some(a)];
    LineIsClean(one, key);
    var l := key + ": " + a;
    assert Line(one, key) == l;
    PartHasNoDashes(l + "\n", 0, |l|);
    assert (l + "\n")[0..|l|] == l;
    NoDashesJoined(Lines(meta, keys), l);
  }

  /** Three dashes inside a value end the front matter there: the value is cut short, every later key is
      lost, and what follows is read as body. */
  lemma CutAtDashes(meta: Meta, body: string, i: nat) returns (m: Meta, rest: string)
    requires i < |KEYS| && Dashed(Get(meta, KEYS[i])) && Unbroken(Cut(Shown(Get(meta, KEYS[i]))))
    requires forall k :: k in KEYS[..i] ==> Fits(Get(meta, k))
    ensures Parse(Render(meta, body)) == Checked(m, rest)
    ensures forall k :: Get(m, k) == if k == KEYS[i] then ReadValue(Strip(Cut(Shown(Get(meta, k)))))
                                     else if k in KEYS[..i] then Reads(Get(meta, k)) else None
  {
    hide Parse, Checked, Render, Lines, SplitLines, StripNewlines, Strip, Cut, Reads, ReadValue, Fits;
    KeysAreKeys();
    var before, key, v := KEYS[..i], KEYS[i], Shown(Get(meta, KEYS[i]));
    assert forall k :: k in before ==> k in KEYS;
    CutExactly(v);
    var a, b := Cut(v), v[|Cut(v)| + 3..];
    var l := key + ": " + a;
    var front := Lines(meta, before) + l;
    var tail := b + "\n" + Lines(meta, KEYS[i + 1..]) + "---" + ("\n\n" + Strip(body) + "\n");
    CutText(meta, body, i, a, b);
    CutHasNoDashes(meta, before, key, a);
    LinesThenLine(meta, before, l);
    LastLineRead(meta, before, key, a);
    ParseClosed(front, tail);
    m := ReadLines(map[], LineList(meta, before) + [l]).value;
    rest := StripNewlines(tail);
  }

  lemma CutText(meta: Meta, body: string, i: nat, a: string, b: string)
    requires i < |KEYS| && Shown(Get(meta, KEYS[i])) == a + "---" + b
    ensures Render(meta, body)
            == "---\n" + (Lines(meta, KEYS[..i]) + (KEYS[i] + ": " + a)) + "---"
               + (b + "\n" + Lines(meta, KEYS[i + 1..]) + "---" + ("\n\n" + Strip(body) + "\n"))
  {
    CutLines(meta, KEYS, i, a, b);
    Regroup(Lines(meta, KEYS[..i]), KEYS[i] + ": ", a, b, Lines(meta, KEYS[i + 1..]), "\n\n" + Strip(body) + "\n");
  }

  lemma CutLines(meta: Meta, keys: seq<string>, i: nat, a: string, b: string)
    requires i < |keys| && Shown(Get(meta, keys[i])) == a + "---" + b
    ensures Lines(meta, keys)
            == Lines(meta, keys[..i]) + (keys[i] + ": " + (a + "---" + b) + "\n" + Lines(meta, keys[i + 1..]))
  {
    assert keys == keys[..i] + keys[i..] && keys[i..][1..] == keys[i + 1..];
    LinesConcat(meta, keys[..i], keys[i..]);
  }

  lemma Regroup(x: string, k: string, a: string, b: string, y: string, t: string)
    ensures "---\n" + (x + (k + (a + "---" + b) + "\n" + y)) + "---" + t
            == "---\n" + (x + (k + a)) + "---" + (b + "\n" + y + "---" + t)
  {}

  /** What any printed file gives when it is read: of every key what the file keeps of it, and nothing
      else, if that passes the checks. */
  lemma KeptExactly(meta: Meta, body: string) returns (m: Meta, rest: string)
    requires OnLines(meta, KEYS)
    ensures Parse(Render(meta, body)) == Checked(m, rest)
    ensures forall k :: Get(m, k) == Kept(meta, KEYS, k)
  {
    hide Parse, Checked, Render, Cut, Reads, Kept, Fits, OnLines, FirstDashed;
    var i := FirstDashed(meta, KEYS);
    UpToDashes(meta, KEYS);
    if i == |KEYS| {
      assert KEYS[..i] == KEYS;
      m, rest := ReadsWhole(meta, body);
    } else {
      m, rest := CutAtDashes(meta, body, i);
    }
    forall k ensures Get(m, k) == Kept(meta, KEYS, k) { KeptUpToDashes(meta, KEYS, k); }
  }

  lemma {:induction false} KeptIsWord(meta: Meta, keys: seq<string>, key: string)
    ensures Kept(meta, keys, key).Some? ==> Kept(meta, keys, key).value != ""
    decreases |keys|
  {
    if keys != [] { KeptIsWord(meta, keys[1..], key); }
  }

  /** No value above place `i` has three dashes in it. */
  predicate Clear(meta: Meta, keys: seq<string>, i: nat)
    requires i <= |keys|
  {
    forall j :: 0 <= j < i ==> !Dashed(Get(meta, keys[j]))
  }

  lemma {:induction false} KeptAt(meta: Meta, keys: seq<string>, i: nat)
    requires i < |keys| && forall j :: 0 <= j < i ==> keys[j] != keys[i]
    ensures Kept(meta, keys, keys[i])
            == if Clear(meta, keys, i) then ReadValue(Strip(Cut(Shown(Get(meta, keys[i]))))) else None
    decreases |keys|
  {
    hide Cut, Shown, Get, NoDashes, ReadValue, Strip;
    if i > 0 && !Dashed(Get(meta, keys[0])) {
      KeptAt(meta, keys[1..], i - 1);
      assert keys[1..][i - 1] == keys[i];
      assert Clear(meta, keys, i) <==> Clear(meta, keys[1..], i - 1) by {
        if Clear(meta, keys[1..], i - 1) {
          forall j | 0 <= j < i ensures !Dashed(Get(meta, keys[j])) { if j > 0 { assert keys[1..][j - 1] == keys[j]; } }
        }
      }
    }
  }

  /** Lines are kept if the first value that does not fit is cut on its line. */
  lemma {:induction false} OnLinesUpTo(meta: Meta, keys: seq<string>, i: nat)
    requires i <= |keys| && forall k :: k in keys[..i] ==> Fits(Get(meta, k))
    requires i < |keys| ==> Dashed(Get(meta, keys[i])) && Unbroken(Cut(Shown(Get(meta, keys[i]))))
    ensures OnLines(meta, keys)
    decreases |keys|
  {
    hide Cut, Shown, Get, NoDashes, Unbroken;
    if i > 0 {
      CutExactly(Shown(Get(meta, keys[0])));
      assert keys[..i][0] == keys[0] && keys[1..][..i - 1] == keys[..i][1..];
      OnLinesUpTo(meta, keys[1..], i - 1);
    }
  }
}
