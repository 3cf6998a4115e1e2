/** The logical-line editing buffer against a flat string with a cursor offset. */
module TextEditor {
  import opened Collections

  // ---------------------------------------------------------------- newline conventions

  function ReplaceCrLf(s: string): string
    decreases |s|
  {
    if |s| >= 2 && s[0] == '\r' && s[1] == '\n' then "\n" + ReplaceCrLf(s[2..])
    else if s == "" then "" else [s[0]] + ReplaceCrLf(s[1..])
  }

  function ReplaceCr(s: string): string
    decreases |s|
  {
    if s == "" then "" else (if s[0] == '\r' then "\n" else [s[0]]) + ReplaceCr(s[1..])
  }

  /** `replace("\r\n", "\n").replace("\r", "\n")` */
  function Normalised(s: string): string {
    ReplaceCr(ReplaceCrLf(s))
  }

  lemma {:induction false} CrLfApart(a: string, b: string)
    requires a == "" || a[|a| - 1] != '\r' || b == "" || b[0] != '\n'
    ensures ReplaceCrLf(a + b) == ReplaceCrLf(a) + ReplaceCrLf(b)
    decreases |a|
  {
    if a == "" {
      assert a + b == b;
    } else if |a| >= 2 && a[0] == '\r' && a[1] == '\n' {
      assert (a + b)[2..] == a[2..] + b;
      CrLfApart(a[2..], b);
    } else {
      assert (a + b)[1..] == a[1..] + b;
      CrLfApart(a[1..], b);
    }
  }

  lemma {:induction false} CrApart(a: string, b: string)
    ensures ReplaceCr(a + b) == ReplaceCr(a) + ReplaceCr(b)
    decreases |a|
  {
    if a == "" {
      assert a + b == b;
    } else {
      assert (a + b)[1..] == a[1..] + b;
      CrApart(a[1..], b);
    }
  }

  lemma NormalisedApart(a: string, b: string)
    requires a == "" || a[|a| - 1] != '\r' || b == "" || b[0] != '\n'
    ensures Normalised(a + b) == Normalised(a) + Normalised(b)
  {
    CrLfApart(a, b);
    CrApart(ReplaceCrLf(a), ReplaceCrLf(b));
  }

  /** A carriage return and a line feed together become one line feed, and so does each carriage return
      that no line feed follows. */
  lemma OneLineFeedEach(a: string, b: string)
    ensures Normalised(a + ("\r\n" + b)) == Normalised(a) + ("\n" + Normalised(b))
    ensures b == "" || b[0] != '\n' ==> Normalised(a + ("\r" + b)) == Normalised(a) + ("\n" + Normalised(b))
  {
    NormalisedApart(a, "\r\n" + b);
    assert ("\r\n" + b)[2..] == b;
    CrApart("\n", ReplaceCrLf(b));
    assert ReplaceCr("\n") == "\n";
    if b == "" || b[0] != '\n' {
      NormalisedApart(a, "\r" + b);
      assert ("\r" + b)[1..] == b;
      CrApart("\r", ReplaceCrLf(b));
      assert ReplaceCr("\r") == "\n";
    }
  }

  /** No carriage return is left, and a text without any is left alone. */
  lemma {:induction false} OnlyLineFeeds(s: string)
    ensures '\r' !in Normalised(s)
    ensures '\r' !in s ==> Normalised(s) == s
    decreases |s|
  {
    if |s| >= 2 && s[0] == '\r' && s[1] == '\n' {
      OneLineFeedEach("", s[2..]);
      assert s == "" + ("\r\n" + s[2..]);
      OnlyLineFeeds(s[2..]);
    } else if s != "" {
      OnlyLineFeeds(s[1..]);
      assert ReplaceCrLf(s) == [s[0]] + ReplaceCrLf(s[1..]);
    }
  }

  /** What `str.split("\n")` returns; never empty. */
  function Split(s: string): (ls: seq<string>)
    ensures |ls| >= 1
    decreases |s|
  {
    if s == "" then [""]
    else
      var rest := Split(s[1..]);
      if s[0] == '\n' then [""] + rest else [[s[0]] + rest[0]] + rest[1..]
  }

  // ---------------------------------------------------------------- lines as one text

  /** The text of the lines before the cursor's line, newlines included. */
  function Before(ls: seq<string>): string
    decreases |ls|
  {
    if ls == [] then "" else ls[0] + "\n" + Before(ls[1..])
  }

  /** The text of the lines after the cursor's line, newlines included. */
  function After(ls: seq<string>): string
    decreases |ls|
  {
    if ls == [] then "" else "\n" + ls[0] + After(ls[1..])
  }

  /** `"\n".join(lines)` */
  function TextOf(ls: seq<string>): string
    requires |ls| >= 1
  {
    ls[0] + After(ls[1..])
  }

  predicate OneLine(s: string) {
    forall c :: c in s ==> c != '\n'
  }

  predicate Lines(ls: seq<string>) {
    |ls| >= 1 && forall l :: l in ls ==> OneLine(l)
  }

  lemma {:induction false} Around(ls: seq<string>, row: nat)
    requires row < |ls|
    ensures TextOf(ls) == Before(ls[..row]) + ls[row] + After(ls[row + 1..])
    decreases row
  {
    if row == 0 {
      assert Before(ls[..0]) == "";
    } else {
      var t := ls[1..];
      Around(t, row - 1);
      assert ls[..row][1..] == t[..row - 1] && t[row..] == ls[row + 1..];
      assert After(t) == "\n" + TextOf(t);
    }
  }

  lemma {:induction false} BeforeAppend(a: seq<string>, l: string)
    ensures Before(a + [l]) == Before(a) + l + "\n"
    decreases |a|
  {
    if a == [] {
      assert ([l])[1..] == [] && a + [l] == [l];
    } else {
      BeforeAppend(a[1..], l);
      assert (a + [l])[1..] == a[1..] + [l];
    }
  }

  lemma {:induction false} SplitOneLine(l: string, rest: string)
    requires OneLine(l)
    ensures Split(l + "\n" + rest) == [l] + Split(rest)
    ensures Split(l) == [l]
    decreases |l|
  {
    if l == "" {
      assert l + "\n" + rest == "\n" + rest && ("\n" + rest)[1..] == rest;
    } else {
      assert l[0] in l && forall c :: c in l[1..] ==> c in l;
      SplitOneLine(l[1..], rest);
      var s := l + "\n" + rest;
      assert s[1..] == l[1..] + "\n" + rest;
      assert l == [l[0]] + l[1..];
    }
  }

  /** Splitting undoes joining: the text determines the lines. */
  lemma {:induction false} SplitJoined(ls: seq<string>)
    requires Lines(ls)
    ensures Split(TextOf(ls)) == ls
    decreases |ls|
  {
    assert OneLine(ls[0]);
    if |ls| == 1 {
      assert After(ls[1..]) == "" && ls[0] + "" == ls[0];
      SplitOneLine(ls[0], "");
    } else {
      var t := ls[1..];
      SplitJoined(t);
      SplitOneLine(ls[0], TextOf(t));
      assert TextOf(ls) == ls[0] + "\n" + TextOf(t);
    }
  }

  lemma {:induction false} SplitIsLines(s: string)
    ensures Lines(Split(s)) && TextOf(Split(s)) == s
    decreases |s|
  {
    if s != "" {
      SplitIsLines(s[1..]);
      var rest := Split(s[1..]);
      assert OneLine(rest[0]);
      if s[0] == '\n' {
        assert ([""] + rest)[1..] == rest;
        assert After(rest) == "\n" + TextOf(rest);
      } else {
        LongerFirst(s[0], rest);
      }
    }
  }

  lemma LongerFirst(c: char, ls: seq<string>)
    requires Lines(ls) && c != '\n'
    ensures var longer := [[c] + ls[0]] + ls[1..]; Lines(longer) && TextOf(longer) == [c] + TextOf(ls)
  {
    var longer := [[c] + ls[0]] + ls[1..];
    assert longer[1..] == ls[1..] && OneLine(ls[0]);
    forall l | l in longer ensures OneLine(l) {
      if l != [c] + ls[0] { assert l in ls[1..]; }
    }
  }

  // ---------------------------------------------------------------- the flat model

  datatype Flat = Flat(text: string, offset: nat)

  predicate Within(f: Flat) {
    f.offset <= |f.text|
  }

  function Inserted(f: Flat, v: string): Flat
    requires Within(f)
  {
    Flat(f.text[..f.offset] + v + f.text[f.offset..], f.offset + |v|)
  }

  function Backspaced(f: Flat): Flat
    requires Within(f)
  {
    if f.offset == 0 then f else Flat(f.text[..f.offset - 1] + f.text[f.offset..], f.offset - 1)
  }

  function Deleted(f: Flat): Flat
    requires Within(f)
  {
    if f.offset == |f.text| then f else Flat(f.text[..f.offset] + f.text[f.offset + 1..], f.offset)
  }

  function LeftOf(f: Flat): Flat {
    if f.offset == 0 then f else f.(offset := f.offset - 1)
  }

  function RightOf(f: Flat): Flat {
    if f.offset >= |f.text| then f else f.(offset := f.offset + 1)
  }

  function BackspacedBy(f: Flat, n: nat): Flat
    requires Within(f)
    decreases n
  {
    if n == 0 then f else BackspacedBy(Backspaced(f), n - 1)
  }

  /** Erasing as many characters as were inserted restores text and cursor. */
  lemma {:induction false} BackspaceUndoesInsert(f: Flat, v: string)
    requires Within(f)
    ensures BackspacedBy(Inserted(f, v), |v|) == f
    decreases |v|
  {
    if v == "" {
      assert f.text[..f.offset] + v + f.text[f.offset..] == f.text;
    } else {
      var w := v[..|v| - 1];
      var g := Inserted(f, v);
      assert g.text[..g.offset - 1] == f.text[..f.offset] + w;
      assert g.text[g.offset..] == f.text[f.offset..];
      assert Backspaced(g) == Inserted(f, w);
      BackspaceUndoesInsert(f, w);
    }
  }

  // ---------------------------------------------------------------- cursor rows and columns

  datatype View = View(lines: seq<string>, row: nat, col: nat, preferred: nat)

  predicate ValidView(v: View) {
    Lines(v.lines) && v.row < |v.lines| && v.col <= |v.lines[v.row]|
  }

  function FlatOf(v: View): (f: Flat)
    requires ValidView(v)
    ensures Within(f)
  {
    Around(v.lines, v.row);
    Flat(TextOf(v.lines), |Before(v.lines[..v.row])| + v.col)
  }

  function Up(v: View, amount: int): View
    requires ValidView(v)
  {
    var row := Max(0, v.row - Max(1, amount));
    v.(row := row, col := Min(v.preferred, |v.lines[row]|))
  }

  function Down(v: View, amount: int): View
    requires ValidView(v)
  {
    var row := Min(|v.lines| - 1, v.row + Max(1, amount));
    v.(row := row, col := Min(v.preferred, |v.lines[row]|))
  }

  /** Moving up and down again by the same amount comes back to the same place, when no edge
      cut the way short and the cursor stood in its preferred column. */
  lemma DownUndoesUp(v: View, n: int)
    requires ValidView(v) && 1 <= n <= v.row && v.col == v.preferred
    ensures Down(Up(v, n), n) == v
  {}

  lemma UpUndoesDown(v: View, n: int)
    requires ValidView(v) && 1 <= n && v.row + n < |v.lines| && v.col == v.preferred
    ensures Up(Down(v, n), n) == v
  {}

  lemma {:induction false} BeforePrefix(ls: seq<string>, i: nat, j: nat)
    requires i < j <= |ls|
    ensures |Before(ls[..i])| + |ls[i]| < |Before(ls[..j])|
    decreases j
  {
    assert ls[..j] == ls[..j - 1] + [ls[j - 1]];
    BeforeAppend(ls[..j - 1], ls[j - 1]);
    if i < j - 1 { BeforePrefix(ls, i, j - 1); }
  }

  /** Text and offset determine lines, row and column, so equal flat states are equal buffers
      up to the remembered column. */
  lemma FlatDetermines(v: View, w: View)
    requires ValidView(v) && ValidView(w) && FlatOf(v) == FlatOf(w)
    ensures v.lines == w.lines && v.row == w.row && v.col == w.col
  {
    SplitJoined(v.lines);
    SplitJoined(w.lines);
    if v.row < w.row {
      BeforePrefix(v.lines, v.row, w.row);
    } else if w.row < v.row {
      BeforePrefix(w.lines, w.row, v.row);
    }
  }

  // ---------------------------------------------------------------- line edits in the flat text

  /** Replacing the cursor's line replaces exactly its stretch of the text. */
  lemma LineReplaced(ls: seq<string>, row: nat, line: string)
    requires row < |ls|
    ensures TextOf(ls[row := line]) == Before(ls[..row]) + line + After(ls[row + 1..])
  {
    Around(ls[row := line], row);
    assert ls[row := line][..row] == ls[..row] && ls[row := line][row + 1..] == ls[row + 1..];
  }

  lemma LineBroken(ls: seq<string>, row: nat, a: string, b: string)
    requires row < |ls|
    ensures var ms := ls[..row] + [a, b] + ls[row + 1..];
            && TextOf(ms) == Before(ls[..row]) + a + "\n" + b + After(ls[row + 1..])
            && Before(ms[..row + 1]) == Before(ls[..row]) + a + "\n"
  {
    var ms := ls[..row] + [a, b] + ls[row + 1..];
    Around(ms, row);
    assert ms[..row] == ls[..row] && ms[row] == a;
    assert ms[row + 1..] == [b] + ls[row + 1..];
    assert ([b] + ls[row + 1..])[1..] == ls[row + 1..];
    assert ms[..row + 1] == ls[..row] + [a];
    BeforeAppend(ls[..row], a);
  }

  /** Two neighbouring lines made one: the newline between them is gone, nothing else. */
  lemma LinesMerged(ls: seq<string>, row: nat)
    requires row + 1 < |ls|
    ensures var ms := ls[..row] + [ls[row] + ls[row + 1]] + ls[row + 2..];
            var cut := |Before(ls[..row])| + |ls[row]|;
            && cut < |TextOf(ls)| && TextOf(ls)[cut] == '\n'
            && TextOf(ms) == TextOf(ls)[..cut] + TextOf(ls)[cut + 1..]
            && ms[..row] == ls[..row]
            && |Before(ls[..row + 1])| == cut + 1
  {
    var ms := ls[..row] + [ls[row] + ls[row + 1]] + ls[row + 2..];
    var b, a := Before(ls[..row]), After(ls[row + 2..]);
    Around(ls, row);
    Around(ms, row);
    assert ms[..row] == ls[..row] && ms[row + 1..] == ls[row + 2..];
    assert ls[row + 1..][1..] == ls[row + 2..];
    assert TextOf(ls) == b + ls[row] + "\n" + ls[row + 1] + a;
    assert TextOf(ms) == b + ls[row] + ls[row + 1] + a;
    assert ls[..row + 1] == ls[..row] + [ls[row]];
    BeforeAppend(ls[..row], ls[row]);
  }

  lemma PartsAreOneLine(s: string, i: nat, j: nat)
    requires OneLine(s) && i <= j <= |s|
    ensures OneLine(s[..i]) && OneLine(s[j..])
  {
    forall c | c in s[..i] || c in s[j..] ensures c in s {}
  }

  /** Cutting a text inside the cursor's line. */
  lemma CutInLine(b: string, line: string, a: string, k: nat)
    requires k <= |line|
    ensures (b + line + a)[..|b| + k] == b + line[..k]
    ensures (b + line + a)[|b| + k..] == line[k..] + a
  {}

  lemma SplicedIsLines(ls: seq<string>, i: nat, j: nat, mid: seq<string>)
    requires Lines(ls) && i <= j <= |ls| && mid != [] && forall l :: l in mid ==> OneLine(l)
    ensures Lines(ls[..i] + mid + ls[j..])
  {
    forall l | l in ls[..i] + mid + ls[j..] ensures OneLine(l) {
      if l !in mid { assert l in ls; }
    }
  }

  /** Rewriting the cursor's line as `a + b` with the cursor between the two. */
  lemma LineEdited(v: View, a: string, b: string, p: nat)
    requires ValidView(v) && OneLine(a) && OneLine(b)
    ensures var w := View(v.lines[v.row := a + b], v.row, |a|, p);
            && ValidView(w)
            && FlatOf(w).text == Before(v.lines[..v.row]) + a + b + After(v.lines[v.row + 1..])
            && FlatOf(w).offset == |Before(v.lines[..v.row]) + a|
  {
    assert OneLine(a + b);
    LineReplaced(v.lines, v.row, a + b);
    assert v.lines[v.row := a + b][..v.row] == v.lines[..v.row];
  }

  lemma Regrouped(b: string, x: string, y: string, a: string)
    ensures b + x + y + a == (b + x) + (y + a)
  {}

  lemma CharIsInsert(v: View, c: char)
    requires ValidView(v) && c != '\n'
    ensures var line := v.lines[v.row];
            var w := View(v.lines[v.row := line[..v.col] + [c] + line[v.col..]], v.row, v.col + 1, v.col + 1);
            ValidView(w) && FlatOf(w) == Inserted(FlatOf(v), [c])
  {
    var line := v.lines[v.row];
    assert OneLine(line);
    PartsAreOneLine(line, v.col, v.col);
    Around(v.lines, v.row);
    var b, a := Before(v.lines[..v.row]), After(v.lines[v.row + 1..]);
    CutInLine(b, line, a, v.col);
    LineEdited(v, line[..v.col] + [c], line[v.col..], v.col + 1);
    Regrouped(b, line[..v.col] + [c], line[v.col..], a);
    assert b + (line[..v.col] + [c]) == (b + line[..v.col]) + [c];
  }

  lemma NewlineIsInsert(v: View)
    requires ValidView(v)
    ensures var line := v.lines[v.row];
            var w := View(v.lines[..v.row] + [line[..v.col], line[v.col..]] + v.lines[v.row + 1..], v.row + 1, 0, 0);
            ValidView(w) && FlatOf(w) == Inserted(FlatOf(v), "\n")
  {
    var line, b, a := v.lines[v.row], Before(v.lines[..v.row]), After(v.lines[v.row + 1..]);
    var ms := v.lines[..v.row] + [line[..v.col], line[v.col..]] + v.lines[v.row + 1..];
    assert OneLine(line);
    PartsAreOneLine(line, v.col, v.col);
    SplicedIsLines(v.lines, v.row, v.row + 1, [line[..v.col], line[v.col..]]);
    Around(v.lines, v.row);
    CutInLine(b, line, a, v.col);
    LineBroken(v.lines, v.row, line[..v.col], line[v.col..]);
    assert TextOf(ms) == (b + line[..v.col]) + "\n" + (line[v.col..] + a);
  }

  lemma ErasedInLine(b: string, line: string, a: string, i: nat, j: nat)
    requires i <= j <= |line|
    ensures var t := b + line + a; t[..|b| + i] + t[|b| + j..] == b + line[..i] + line[j..] + a
  {
    CutInLine(b, line, a, i);
    CutInLine(b, line, a, j);
    Regrouped(b, line[..i], line[j..], a);
  }

  /** Dropping the `j - i` characters of the cursor's line from column `i` on. */
  lemma CharIsErased(v: View, i: nat, j: nat)
    requires ValidView(v) && i <= j <= |v.lines[v.row]|
    ensures var line, f := v.lines[v.row], FlatOf(v);
            var w := View(v.lines[v.row := line[..i] + line[j..]], v.row, i, i);
            && ValidView(w)
            && i <= f.offset - v.col + i && f.offset - v.col + j <= |f.text|
            && FlatOf(w) == Flat(f.text[..f.offset - v.col + i] + f.text[f.offset - v.col + j..], f.offset - v.col + i)
  {
    var line, b, a := v.lines[v.row], Before(v.lines[..v.row]), After(v.lines[v.row + 1..]);
    assert OneLine(line);
    PartsAreOneLine(line, i, j);
    Around(v.lines, v.row);
    ErasedInLine(b, line, a, i, j);
    LineEdited(v, line[..i], line[j..], i);
  }

  /** Merging the cursor's line into the one before it is backspace at column 0, and seen from
      the end of the line before it is delete. */
  lemma MergeIsErase(v: View, p: nat)
    requires ValidView(v) && v.col == |v.lines[v.row]| && v.row + 1 < |v.lines|
    ensures var ms := v.lines[..v.row] + [v.lines[v.row] + v.lines[v.row + 1]] + v.lines[v.row + 2..];
            var w := View(ms, v.row, v.col, p);
            ValidView(w) && FlatOf(w) == Deleted(FlatOf(v))
    ensures FlatOf(View(v.lines, v.row + 1, 0, 0)) == RightOf(FlatOf(v))
    ensures FlatOf(v).offset < |FlatOf(v).text|
  {
    LinesMerged(v.lines, v.row);
    assert OneLine(v.lines[v.row]) && OneLine(v.lines[v.row + 1]);
    SplicedIsLines(v.lines, v.row, v.row + 2, [v.lines[v.row] + v.lines[v.row + 1]]);
  }

  lemma BackspaceInLine(v: View)
    requires ValidView(v) && v.col > 0
    ensures var line := v.lines[v.row];
            var w := View(v.lines[v.row := line[..v.col - 1] + line[v.col..]], v.row, v.col - 1, v.col - 1);
            ValidView(w) && FlatOf(w) == Backspaced(FlatOf(v))
  {
    CharIsErased(v, v.col - 1, v.col);
  }

  lemma BackspaceAcrossLines(v: View)
    requires ValidView(v) && v.col == 0 && v.row > 0
    ensures var left := v.lines[v.row - 1];
            var ms := v.lines[..v.row - 1] + [left + v.lines[v.row]] + v.lines[v.row + 1..];
            var w := View(ms, v.row - 1, |left|, |left|);
            ValidView(w) && FlatOf(w) == Backspaced(FlatOf(v))
    ensures FlatOf(View(v.lines, v.row - 1, |v.lines[v.row - 1]|, |v.lines[v.row - 1]|)) == LeftOf(FlatOf(v))
  {
    var u := View(v.lines, v.row - 1, |v.lines[v.row - 1]|, 0);
    MergeIsErase(u, |v.lines[v.row - 1]|);
  }

  // ---------------------------------------------------------------- the buffer

  class TextEditorBuffer {
    var lines: seq<string>
    var row: nat
    var col: nat
    var preferred: nat

    ghost function Now(): View
      reads this
    {
      View(lines, row, col, preferred)
    }

    ghost predicate Valid()
      reads this
    {
      ValidView(Now())
    }

    ghost function Contents(): Flat
      reads this
      requires Valid()
    {
      FlatOf(Now())
    }

    constructor (text: string)
      ensures Valid() && Contents() == Flat(Normalised(text), |Normalised(text)|) && preferred == col
    {
      lines := Split(Normalised(text));
      row := |Split(Normalised(text))| - 1;
      col := |Split(Normalised(text))[|Split(Normalised(text))| - 1]|;
      preferred := |Split(Normalised(text))[|Split(Normalised(text))| - 1]|;
      new;
      SplitIsLines(Normalised(text));
      Around(lines, row);
      assert After(lines[row + 1..]) == "";
    }

    method Text() returns (s: string)
      requires Valid()
      ensures s == Contents().text
    {
      s := TextOf(lines);
    }

    method SetCursor(r: int, c: int)
      requires Valid()
      modifies this
      ensures Valid() && lines == old(lines) && preferred == col
      ensures row == Max(0, Min(r, |lines| - 1)) && col == Max(0, Min(c, |lines[row]|))
    {
      row := Max(0, Min(r, |lines| - 1));
      col := Max(0, Min(c, |lines[row]|));
      preferred := col;
    }

    method Insert(value: string)
      requires Valid()
      modifies this
      ensures Valid() && Contents() == Inserted(old(Contents()), Normalised(value))
      ensures Normalised(value) != "" ==> preferred == col
    {
      var v := Normalised(value);
      ghost var f := Contents();
      assert f.text[..f.offset] + v[..0] + f.text[f.offset..] == f.text;
      for i := 0 to |v|
        invariant Valid() && Contents() == Inserted(f, v[..i])
        invariant i > 0 ==> preferred == col
      {
        if v[i] == '\n' {
          Newline();
          assert "\n" == [v[i]];
        } else {
          InsertChar(v[i]);
        }
        InsertedOneMore(f, v, i);
      }
      assert v[..|v|] == v;
    }

    method InsertChar(c: char)
      requires Valid() && c != '\n'
      modifies this
      ensures Valid() && Contents() == Inserted(old(Contents()), [c]) && preferred == col
    {
      CharIsInsert(Now(), c);
      var line := lines[row];
      lines := lines[row := line[..col] + [c] + line[col..]];
      col := col + 1;
      preferred := col;
    }

    method Newline()
      requires Valid()
      modifies this
      ensures Valid() && Contents() == Inserted(old(Contents()), "\n") && preferred == col
    {
      NewlineIsInsert(Now());
      var line := lines[row];
      lines := lines[..row] + [line[..col], line[col..]] + lines[row + 1..];
      row := row + 1;
      col := 0;
      preferred := 0;
    }

    method Backspace()
      requires Valid()
      modifies this
      ensures Valid() && Contents() == Backspaced(old(Contents())) && preferred == col
    {
      if col > 0 {
        var line := lines[row];
        BackspaceInLine(Now());
        lines := lines[row := line[..col - 1] + line[col..]];
        col := col - 1;
      } else if row > 0 {
        var previousLength := |lines[row - 1]|;
        BackspaceAcrossLines(Now());
        lines := lines[..row - 1] + [lines[row - 1] + lines[row]] + lines[row + 1..];
        row := row - 1;
        col := previousLength;
      } else {
        assert Before(lines[..0]) == "";
      }
      preferred := col;
    }

    method Delete()
      requires Valid()
      modifies this
      ensures Valid() && Contents() == Deleted(old(Contents())) && preferred == col
    {
      var line := lines[row];
      if col < |line| {
        CharIsErased(Now(), col, col + 1);
        Around(lines, row);
        lines := lines[row := line[..col] + line[col + 1..]];
      } else if row + 1 < |lines| {
        MergeIsErase(Now(), col);
        lines := lines[..row] + [lines[row] + lines[row + 1]] + lines[row + 2..];
      } else {
        Around(lines, row);
        assert After(lines[row + 1..]) == "";
      }
      preferred := col;
    }

    method MoveLeft()
      requires Valid()
      modifies this`row, this`col, this`preferred
      ensures Valid() && Contents() == LeftOf(old(Contents())) && preferred == col
    {
      if col > 0 {
        col := col - 1;
      } else if row > 0 {
        BackspaceAcrossLines(Now());
        row := row - 1;
        col := |lines[row]|;
      } else {
        assert Before(lines[..0]) == "";
      }
      preferred := col;
    }

    method MoveRight()
      requires Valid()
      modifies this`row, this`col, this`preferred
      ensures Valid() && Contents() == RightOf(old(Contents())) && preferred == col
    {
      Around(lines, row);
      if col < |lines[row]| {
        col := col + 1;
      } else if row + 1 < |lines| {
        MergeIsErase(Now(), 0);
        row := row + 1;
        col := 0;
      } else {
        assert After(lines[row + 1..]) == "";
      }
      preferred := col;
    }

    method MoveUp(amount: int)
      requires Valid()
      modifies this`row, this`col
      ensures Valid() && Now() == Up(old(Now()), amount)
    {
      row := Max(0, row - Max(1, amount));
      col := Min(preferred, |lines[row]|);
    }

    method MoveDown(amount: int)
      requires Valid()
      modifies this`row, this`col
      ensures Valid() && Now() == Down(old(Now()), amount)
    {
      row := Min(|lines| - 1, row + Max(1, amount));
      col := Min(preferred, |lines[row]|);
    }

    method MoveHome()
      requires Valid()
      modifies this`col, this`preferred
      ensures Valid() && col == preferred == 0
    {
      col := 0;
      preferred := 0;
    }

    method MoveEnd()
      requires Valid()
      modifies this`col, this`preferred
      ensures Valid() && col == preferred == |lines[row]|
    {
      col := |lines[row]|;
      preferred := col;
    }
  }

  lemma InsertedOneMore(f: Flat, v: string, i: nat)
    requires Within(f) && i < |v|
    ensures Inserted(Inserted(f, v[..i]), [v[i]]) == Inserted(f, v[..i + 1])
  {
    var g := Inserted(f, v[..i]);
    assert v[..i + 1] == v[..i] + [v[i]];
    assert g.text[..g.offset] == f.text[..f.offset] + v[..i];
    assert g.text[g.offset..] == f.text[f.offset..];
  }
}
