/** The accounting ledger: which row an accepted document earns, and writing that one row. */
module RowLedger {
  import opened Collections
  import opened Wrappers
  import opened Text
  import Order

  // ---------------------------------------------------------------- row ids named in a text

  predicate IsHex(c: char) { '0' <= c <= '9' || 'A' <= c <= 'F' }

  predicate IsWord(c: char) { '0' <= c <= '9' || 'a' <= c <= 'z' || 'A' <= c <= 'Z' || c == '_' }

  const WIDTH: nat := 13

  /** `OVL_xxxx_yyyy` or `RES_xxxx_yyyy` */
  predicate RowId(s: string) {
    && |s| == WIDTH && (s[..3] == "OVL" || s[..3] == "RES") && s[3] == '_' && s[8] == '_'
    && (forall i :: 4 <= i < WIDTH && i != 8 ==> IsHex(s[i]))
  }

  /** A whole row id stands at `i`: no word goes on before or behind it. */
  predicate Names(s: string, i: nat) {
    && i + WIDTH <= |s| && RowId(s[i..i + WIDTH])
    && (i > 0 ==> !IsWord(s[i - 1])) && (i + WIDTH < |s| ==> !IsWord(s[i + WIDTH]))
  }

  /** The ids that stand before position `n`, each once, in order of first appearance. */
  function IdsBefore(s: string, n: nat): seq<string> {
    if n == 0 then []
    else
      var ids := IdsBefore(s, n - 1);
      if Names(s, n - 1) && s[n - 1..n - 1 + WIDTH] !in ids then ids + [s[n - 1..n - 1 + WIDTH]] else ids
  }

  function RowIds(s: string): seq<string> {
    IdsBefore(s, |s|)
  }

  lemma {:induction false} IdsBeforeAreNamed(s: string, n: nat)
    ensures Distinct(IdsBefore(s, n))
    ensures forall id :: id in IdsBefore(s, n) ==> exists i :: 0 <= i < n && Names(s, i) && s[i..i + WIDTH] == id
    ensures forall i :: 0 <= i < n && Names(s, i) ==> s[i..i + WIDTH] in IdsBefore(s, n)
  {
    if n > 0 { IdsBeforeAreNamed(s, n - 1); }
  }

  // ---------------------------------------------------------------- a document's own row

  function Lowered(s: string): (r: string)
    ensures |r| == |s|
  {
    seq(|s|, i requires 0 <= i < |s| => Lower(s[i]))
  }

  function After(s: string, c: char): string
    decreases |s|
  {
    if s == "" then "" else if c in s[1..] then After(s[1..], c) else if s[0] == c then s[1..] else s
  }

  function Before(s: string, c: char): string
    decreases |s|
  {
    if s == "" || c !in s then s else if c in s[1..] then [s[0]] + Before(s[1..], c) else ""
  }

  /** The file name without its directory and its last suffix. */
  function Stem(path: string): string {
    Before(After(path, '/'), '.')
  }

  predicate PieceAt(s: string, piece: string, i: nat) {
    && OccursAt(s, piece, i) && '_' !in piece
    && (i > 0 ==> s[i - 1] == '_') && (i + |piece| < |s| ==> s[i + |piece|] == '_')
  }

  /** One of the pieces between underscores. */
  predicate Piece(s: string, piece: string) {
    exists i: nat :: i <= |s| && PieceAt(s, piece, i)
  }

  function NoZeros(s: string): string
    decreases |s|
  {
    if s != "" && s[0] == '0' then NoZeros(s[1..]) else s
  }

  /** The stem carries the row's offset, and its unit with or without the letter. */
  predicate OwnRow(id: string, stem: string)
    requires RowId(id)
  {
    var low, unit := Lowered(stem), Lowered(id[4..8]);
    && Piece(low, Lowered(id[9..13]))
    && (Piece(low, "u" + (if NoZeros(unit) != "" then NoZeros(unit) else "0")) || Piece(low, unit))
  }

  // ---------------------------------------------------------------- the rows of a ledger

  datatype Row = Row(id: string, doc: string)

  function IndexOf(s: string, c: char): (k: nat)
    ensures k <= |s| && c !in s[..k] && (k < |s| ==> s[k] == c)
    decreases |s|
  {
    if s == "" || s[0] == c then 0 else IndexOf(s[1..], c) + 1
  }

  /** What stands before the first comma. */
  function KeyOf(line: string): string {
    line[..IndexOf(line, ',')]
  }

  /** The row on a line; a blank line, or one without a comma, has none. */
  function RowOn(line: string): seq<Row> {
    var k := IndexOf(line, ',');
    if Strip(line) == "" || k == |line| then [] else [Row(Strip(line[..k]), Strip(line[k + 1..]))]
  }

  function RowsOn(lines: seq<string>): seq<Row> {
    if lines == [] then [] else RowsOn(lines[..|lines| - 1]) + RowOn(lines[|lines| - 1])
  }

  /** `ledger_rows`: the rows under the header line. */
  function LedgerRows(text: string): seq<Row> {
    var lines := SplitLines(text);
    if lines == [] then [] else RowsOn(lines[1..])
  }

  lemma RowsOnNext(lines: seq<string>)
    requires lines != []
    ensures RowsOn(lines) == RowsOn(lines[..|lines| - 1]) + RowOn(lines[|lines| - 1])
  {}

  lemma {:induction false} RowsOnConcat(a: seq<string>, b: seq<string>)
    ensures RowsOn(a + b) == RowsOn(a) + RowsOn(b)
    decreases |b|
  {
    if b == [] {
      assert a + b == a;
    } else {
      var n := |b| - 1;
      var all := a + b;
      assert all[..|all| - 1] == a + b[..n] && all[|all| - 1] == b[n];
      RowsOnConcat(a, b[..n]);
      RowsOnNext(all);
      RowsOnNext(b);
    }
  }

  // ---------------------------------------------------------------- one row more

  /** `bisect_left`, also where the keys are not sorted. */
  function Bisect(keys: seq<string>, key: string, lo: nat, hi: nat): (k: nat)
    requires lo <= hi <= |keys|
    ensures lo <= k <= hi
    decreases hi - lo
  {
    if lo == hi then lo
    else
      var mid := (lo + hi) / 2;
      if Order.Less(keys[mid], key) then Bisect(keys, key, mid + 1, hi) else Bisect(keys, key, lo, mid)
  }

  predicate SortedKeys(keys: seq<string>) {
    forall i, j :: 0 <= i < j < |keys| ==> !Order.Less(keys[j], keys[i])
  }

  lemma {:induction false} BisectSplits(keys: seq<string>, key: string, lo: nat, hi: nat)
    requires lo <= hi <= |keys| && SortedKeys(keys)
    requires forall i :: 0 <= i < lo ==> Order.Less(keys[i], key)
    requires forall i :: hi <= i < |keys| ==> !Order.Less(keys[i], key)
    ensures var k := Bisect(keys, key, lo, hi);
            && (forall i :: 0 <= i < k ==> Order.Less(keys[i], key))
            && (forall i :: k <= i < |keys| ==> !Order.Less(keys[i], key))
    decreases hi - lo
  {
    if lo < hi {
      var mid := (lo + hi) / 2;
      assert lo <= mid < hi;
      if Order.Less(keys[mid], key) {
        forall i | 0 <= i <= mid ensures Order.Less(keys[i], key) {
          if i < mid { NotAfter(keys[i], keys[mid], key); }
        }
        BisectSplits(keys, key, mid + 1, hi);
      } else {
        forall i | mid <= i < |keys| ensures !Order.Less(keys[i], key) {
          if mid < i && Order.Less(keys[i], key) { NotAfter(keys[mid], keys[i], key); }
        }
        BisectSplits(keys, key, lo, mid);
      }
    }
  }

  /** `a` at most `b`, and `b` before `c`. */
  lemma NotAfter(a: string, b: string, c: string)
    requires !Order.Less(b, a) && Order.Less(b, c)
    ensures Order.Less(a, c)
  {
    Order.LessIsTotal(a, b);
    if Order.Less(a, b) { Order.LessIsTransitive(a, b, c); }
  }

  function KeysOf(lines: seq<string>): (r: seq<string>)
    ensures |r| == |lines| && forall i :: 0 <= i < |lines| ==> r[i] == KeyOf(lines[i])
  {
    seq(|lines|, i requires 0 <= i < |lines| => KeyOf(lines[i]))
  }

  function LineEnd(text: string): string {
    if Find(text, "\r\n").Some? then "\r\n" else "\n"
  }

  function Tail(text: string): string {
    if text != "" && text[|text| - 1] in {'\n', '\r'} then LineEnd(text) else ""
  }

  function BodyKeys(lines: seq<string>): (r: seq<string>)
    ensures |r| == if lines == [] then 0 else |lines| - 1
  {
    if lines == [] then [] else KeysOf(lines[1..])
  }

  /** The line in front of which a row with this id goes; the header stays first. */
  function Place(lines: seq<string>, id: string): (p: nat)
    requires lines != []
    ensures 1 <= p <= |lines|
  {
    1 + Bisect(BodyKeys(lines), id, 0, |lines| - 1)
  }

  function InsertAt(lines: seq<string>, p: nat, line: string): seq<string>
    requires p <= |lines|
  {
    lines[..p] + [line] + lines[p..]
  }

  function Inserted(lines: seq<string>, id: string, doc: string): seq<string>
    requires lines != []
  {
    InsertAt(lines, Place(lines, id), id + "," + doc)
  }

  datatype NoHeader = NoHeader

  /** `with_row` */
  function WithRow(text: string, id: string, doc: string): Result<string, NoHeader> {
    var lines := SplitLines(text);
    if lines == [] then Err(NoHeader) else Ok(Joined(Inserted(lines, id, doc), LineEnd(text)) + Tail(text))
  }

  // ---------------------------------------------------------------- reading it back

  lemma LineThenRest(line: string, sep: string, rest: string)
    requires Unbroken(line) && (sep == "\n" || sep == "\r\n")
    ensures SplitLines(line + sep + rest) == [line] + SplitLines(rest)
  {
    assert line + sep + rest == line + (sep + rest);
    LineGathers(line, sep + rest, "");
    assert "" + line == line;
    assert (sep + rest)[|sep|..] == rest;
  }

  lemma LastLine(line: string, tail: string)
    requires Unbroken(line) && (tail == "\n" || tail == "\r\n" || (tail == "" && line != ""))
    ensures SplitLines(line + tail) == [line]
  {
    if tail == "" {
      LineGathers(line, "", "");
      assert line + "" == line && "" + line == line;
    } else {
      LineThenRest(line, tail, "");
      assert line + tail + "" == line + tail;
    }
  }

  lemma {:induction false} JoinedSplits(lines: seq<string>, sep: string, tail: string)
    requires lines != [] && (forall l :: l in lines ==> Unbroken(l))
    requires (sep == "\n" || sep == "\r\n") && (tail == sep || (tail == "" && lines[|lines| - 1] != ""))
    ensures SplitLines(Joined(lines, sep) + tail) == lines
    decreases |lines|
  {
    if |lines| == 1 {
      LastLine(lines[0], tail);
    } else {
      var rest := lines[1..];
      JoinedSplits(rest, sep, tail);
      LineThenRest(lines[0], sep, Joined(rest, sep) + tail);
      assert Joined(lines, sep) + tail == lines[0] + sep + (Joined(rest, sep) + tail);
      assert lines == [lines[0]] + rest;
    }
  }

  /** A row a ledger can carry: an id without comma or space around it, both on one line. */
  predicate Writable(id: string, doc: string) {
    id != "" && Trimmed(id) && Unbroken(id) && ',' !in id && Unbroken(doc)
  }

  /** The last line is visible: it is not empty, or a line end follows it. */
  predicate Closed(text: string) {
    var lines := SplitLines(text);
    lines != [] && (Tail(text) != "" || lines[|lines| - 1] != "")
  }

  lemma {:induction false} IndexOfIs(s: string, c: char, k: nat)
    requires k < |s| && s[k] == c && c !in s[..k]
    ensures IndexOf(s, c) == k
    decreases k
  {
    if k > 0 {
      assert s[..k][0] == s[0];
      assert s[1..][..k - 1] == s[..k][1..];
      IndexOfIs(s[1..], c, k - 1);
    }
  }

  lemma {:induction false} KeepsFirst(s: string)
    requires s != "" && !IsSpace(s[0])
    ensures StripRight(s) != ""
    decreases |s|
  {
    if IsSpace(s[|s| - 1]) {
      KeepsFirst(s[..|s| - 1]);
    }
  }

  lemma NewLineIsRow(id: string, doc: string)
    requires Writable(id, doc)
    ensures var line := id + "," + doc;
            Unbroken(line) && line != "" && KeyOf(line) == id && RowOn(line) == [Row(id, Strip(doc))]
  {
    var line := id + "," + doc;
    assert line[|id|] == ',' && line[..|id|] == id && line[|id| + 1..] == doc;
    IndexOfIs(line, ',', |id|);
    StripTrims(id);
    assert StripLeft(line) == line;
    KeepsFirst(line);
  }

  lemma InsertedIsReadable(text: string, id: string, doc: string)
    requires Closed(text) && Writable(id, doc)
    ensures SplitLines(WithRow(text, id, doc).value) == Inserted(SplitLines(text), id, doc)
    ensures Closed(WithRow(text, id, doc).value)
  {
    var before := SplitLines(text);
    LinesAreUnbroken(text, "");
    NewLineIsRow(id, doc);
    JoinedReads(before, Place(before, id), id + "," + doc, LineEnd(text), Tail(text));
  }

  lemma JoinedReads(lines: seq<string>, p: nat, line: string, sep: string, tail: string)
    requires 1 <= p <= |lines| && Unbroken(line) && line != "" && (forall l :: l in lines ==> Unbroken(l))
    requires (sep == "\n" || sep == "\r\n") && (tail == sep || (tail == "" && lines[|lines| - 1] != ""))
    ensures var all := InsertAt(lines, p, line);
            SplitLines(Joined(all, sep) + tail) == all && (tail == "" ==> all[|all| - 1] != "")
  {
    JoinedSplits(InsertAt(lines, p, line), sep, tail);
  }

  lemma InsertedRows(lines: seq<string>, p: nat, line: string)
    requires 1 <= p <= |lines|
    ensures RowsOn(lines[1..]) == RowsOn(lines[1..p]) + RowsOn(lines[p..])
    ensures RowsOn(InsertAt(lines, p, line)[1..]) == RowsOn(lines[1..p]) + RowOn(line) + RowsOn(lines[p..])
  {
    var a, b := lines[1..p], lines[p..];
    assert lines[1..] == a + b && InsertAt(lines, p, line)[1..] == (a + [line]) + b;
    RowsOnConcat(a, b);
    RowsOnConcat(a + [line], b);
    RowsOnNext(a + [line]);
    assert (a + [line])[..|a|] == a;
  }

  /** The new rows are the old ones with one more somewhere between. */
  predicate GainsRow(before: seq<Row>, after: seq<Row>, r: Row) {
    exists k :: 0 <= k <= |before| && after == before[..k] + [r] + before[k..]
  }

  /** The written ledger: the header and every old line are kept, in order, and the list of rows
      has gained exactly the new one. */
  lemma LedgerGainsOneRow(text: string, id: string, doc: string)
    requires Closed(text) && Writable(id, doc)
    ensures var (was, now) := (SplitLines(text), SplitLines(WithRow(text, id, doc).value));
            now != [] && now[0] == was[0] && exists p :: 1 <= p <= |was| && now == InsertAt(was, p, id + "," + doc)
    ensures GainsRow(LedgerRows(text), LedgerRows(WithRow(text, id, doc).value), Row(id, Strip(doc)))
  {
    var lines := SplitLines(text);
    InsertedIsReadable(text, id, doc);
    NewLineIsRow(id, doc);
    var p := Place(lines, id);
    InsertedRows(lines, p, id + "," + doc);
    assert LedgerRows(text)[..|RowsOn(lines[1..p])|] == RowsOn(lines[1..p]);
  }

  /** Sorted keys stay sorted, with the new one in its place. */
  lemma LedgerStaysSorted(text: string, id: string, doc: string)
    requires Closed(text) && Writable(id, doc) && SortedKeys(BodyKeys(SplitLines(text)))
    ensures SortedKeys(BodyKeys(SplitLines(WithRow(text, id, doc).value)))
  {
    InsertedIsReadable(text, id, doc);
    NewLineIsRow(id, doc);
    InsertedSorted(SplitLines(text), id, id + "," + doc);
  }

  lemma KeysInserted(lines: seq<string>, k: nat, line: string)
    requires k < |lines|
    ensures BodyKeys(InsertAt(lines, k + 1, line)) == BodyKeys(lines)[..k] + [KeyOf(line)] + BodyKeys(lines)[k..]
  {
    var all, keys := InsertAt(lines, k + 1, line)[1..], BodyKeys(lines);
    forall i | 0 <= i < |all| ensures KeyOf(all[i]) == (keys[..k] + [KeyOf(line)] + keys[k..])[i] {}
  }

  lemma InsertedSorted(lines: seq<string>, id: string, line: string)
    requires lines != [] && KeyOf(line) == id && SortedKeys(BodyKeys(lines))
    ensures SortedKeys(BodyKeys(InsertAt(lines, Place(lines, id), line)))
  {
    var keys := BodyKeys(lines);
    var k := Bisect(keys, id, 0, |keys|);
    assert Place(lines, id) == k + 1;
    KeysInserted(lines, k, line);
    PlaceKeepsAscending(keys, id);
  }

  lemma PlaceKeepsAscending(keys: seq<string>, id: string)
    requires SortedKeys(keys)
    ensures var k := Bisect(keys, id, 0, |keys|); SortedKeys(keys[..k] + [id] + keys[k..])
  {
    BisectSplits(keys, id, 0, |keys|);
    InsertKeepsAscending(keys, id, Bisect(keys, id, 0, |keys|));
  }

  lemma InsertKeepsAscending(keys: seq<string>, key: string, k: nat)
    requires k <= |keys| && SortedKeys(keys)
    requires forall i :: 0 <= i < k ==> Order.Less(keys[i], key)
    requires forall i :: k <= i < |keys| ==> !Order.Less(keys[i], key)
    ensures SortedKeys(keys[..k] + [key] + keys[k..])
  {
    var all := keys[..k] + [key] + keys[k..];
    forall i, j | 0 <= i < j < |all| ensures !Order.Less(all[j], all[i]) {
      if i < k { Order.LessIsTotal(keys[i], key); }
    }
  }

  // ---------------------------------------------------------------- nothing else moves

  lemma {:induction false} JoinedConcat(a: seq<string>, b: seq<string>, sep: string)
    requires a != []
    ensures Joined(a + b, sep) == Joined(a, sep) + if b == [] then "" else sep + Joined(b, sep)
    decreases |a|
  {
    if b == [] {
      assert a + b == a && Joined(a, sep) + "" == Joined(a, sep);
    } else if |a| == 1 {
      assert (a + b)[1..] == b;
    } else {
      assert (a + b)[1..] == a[1..] + b;
      JoinedConcat(a[1..], b, sep);
      assert Joined(a + b, sep) == a[0] + sep + (Joined(a[1..], sep) + (sep + Joined(b, sep)));
    }
  }

  /** `y` is `x` with `piece` inserted at one place. */
  predicate SplicedBy(x: string, y: string, piece: string) {
    exists i :: 0 <= i <= |x| && y == x[..i] + piece + x[i..]
  }

  lemma Splices(front: string, piece: string, rest: string, tail: string)
    ensures SplicedBy(front + rest + tail, front + piece + rest + tail, piece)
  {
    var x := front + rest + tail;
    assert x[..|front|] == front && x[|front|..] == rest + tail;
    assert front + piece + rest + tail == x[..|front|] + piece + x[|front|..];
  }

  lemma InsertedJoined(lines: seq<string>, p: nat, line: string, sep: string, tail: string)
    requires 1 <= p <= |lines|
    ensures SplicedBy(Joined(lines, sep) + tail, Joined(InsertAt(lines, p, line), sep) + tail, sep + line)
  {
    var a, b := lines[..p], lines[p..];
    var rest := if b == [] then "" else sep + Joined(b, sep);
    assert lines == a + b && InsertAt(lines, p, line) == (a + [line]) + b;
    JoinedConcat(a, b, sep);
    JoinedConcat(a, [line], sep);
    JoinedConcat(a + [line], b, sep);
    Splices(Joined(a, sep), sep + line, rest, tail);
  }

  /** With the same line end throughout, the new text is the old one with one line inserted. */
  lemma OneLineDiff(text: string, id: string, doc: string)
    requires SplitLines(text) != [] && text == Joined(SplitLines(text), LineEnd(text)) + Tail(text)
    ensures SplicedBy(text, WithRow(text, id, doc).value, LineEnd(text) + (id + "," + doc))
  {
    var lines := SplitLines(text);
    InsertedJoined(lines, Place(lines, id), id + "," + doc, LineEnd(text), Tail(text));
  }

  // ---------------------------------------------------------------- exactly when nothing else moves

  /** The line ends of a text, in order. */
  function BreaksOf(s: string): seq<string>
    decreases |s|
  {
    if s == "" then []
    else if |s| >= 2 && s[0] == '\r' && s[1] == '\n' then ["\r\n"] + BreaksOf(s[2..])
    else if IsBreak(s[0]) then [[s[0]]] + BreaksOf(s[1..])
    else BreaksOf(s[1..])
  }

  /** One line end throughout, the one `with_row` writes. */
  predicate OneEnd(text: string) {
    forall b :: b in BreaksOf(text) ==> b == LineEnd(text)
  }

  predicate EndsInBreak(s: string) {
    s != "" && IsBreak(s[|s| - 1])
  }

  lemma {:induction false} LastBreak(s: string)
    requires EndsInBreak(s)
    ensures var bs := BreaksOf(s); bs != [] && bs[|bs| - 1] != "" && s[|s| - 1] == bs[|bs| - 1][|bs[|bs| - 1]| - 1]
    decreases |s|
  {
    if |s| >= 2 && s[0] == '\r' && s[1] == '\n' {
      if |s| > 2 { LastBreak(s[2..]); }
    } else if |s| > 1 {
      LastBreak(s[1..]);
    }
  }

  /** The line end after the last line, if there is one. */
  function LastEnd(s: string, sep: string): string {
    if EndsInBreak(s) then sep else ""
  }

  lemma {:induction false} Rejoins(s: string, line: string, sep: string)
    requires (forall b :: b in BreaksOf(s) ==> b == sep) && LinesFrom(s, line) != []
    ensures line + s == Joined(LinesFrom(s, line), sep) + LastEnd(s, sep)
    decreases |s|
  {
    if s == "" {
      assert line + s == line + "";
    } else if IsBreak(s[0]) {
      var rest := AfterBreak(s, line, sep);
      NoLines(rest);
      if rest == "" {
        assert line + s == line + sep;
      } else {
        Rejoins(rest, "", sep);
        assert "" + rest == rest;
        JoinedFirst(line, LinesFrom(rest, ""), sep, rest, LastEnd(rest, sep));
      }
    } else {
      assert BreaksOf(s) == BreaksOf(s[1..]);
      assert line + s == (line + [s[0]]) + s[1..];
      Rejoins(s[1..], line + [s[0]], sep);
    }
  }

  /** A text that begins with a line end begins with the only one. */
  lemma AfterBreak(s: string, line: string, sep: string) returns (rest: string)
    requires s != "" && IsBreak(s[0]) && (forall b :: b in BreaksOf(s) ==> b == sep)
    ensures s == sep + rest && |rest| < |s| && forall b :: b in BreaksOf(rest) ==> b == sep
    ensures LinesFrom(s, line) == [line] + LinesFrom(rest, "")
    ensures rest != "" ==> (EndsInBreak(s) <==> EndsInBreak(rest))
    ensures rest == "" ==> EndsInBreak(s)
  {
    var b := if |s| >= 2 && s[0] == '\r' && s[1] == '\n' then "\r\n" else [s[0]];
    rest := s[|b|..];
    assert BreaksOf(s) == [b] + BreaksOf(rest);
    assert BreaksOf(s)[0] in BreaksOf(s);
    assert forall x :: x in BreaksOf(rest) ==> x in BreaksOf(s);
    assert s == b + rest;
    if rest != "" { SameEnding(s, |b|); }
  }

  lemma JoinedFirst(line: string, lines: seq<string>, sep: string, rest: string, tail: string)
    requires lines != [] && rest == Joined(lines, sep) + tail
    ensures line + (sep + rest) == Joined([line] + lines, sep) + tail
  {
    assert ([line] + lines)[1..] == lines;
    assert line + (sep + (Joined(lines, sep) + tail)) == (line + sep + Joined(lines, sep)) + tail;
  }

  lemma {:induction false} NoLines(s: string)
    ensures LinesFrom(s, "") == [] <==> s == ""
  {
    if s != "" && !IsBreak(s[0]) {
      assert "" + [s[0]] == [s[0]];
      SomeLine(s[1..], [s[0]]);
    }
  }

  lemma {:induction false} SomeLine(s: string, line: string)
    requires line != ""
    ensures LinesFrom(s, line) != []
    decreases |s|
  {
    if s != "" && !IsBreak(s[0]) { SomeLine(s[1..], line + [s[0]]); }
  }

  /** How many of the line ends hold the character. */
  function Having(bs: seq<string>, c: char): (n: nat)
    ensures n <= |bs|
    decreases |bs|
  {
    if bs == [] then 0 else (if c in bs[0] then 1 else 0) + Having(bs[1..], c)
  }

  lemma {:induction false} AllHave(bs: seq<string>, c: char)
    requires Having(bs, c) == |bs|
    ensures forall b :: b in bs ==> c in b
    decreases |bs|
  {
    if bs != [] { AllHave(bs[1..], c); }
  }

  /** Every line end of a text is the pair, or a single character at which a line ends. */
  lemma {:induction false} BreaksAre(s: string)
    ensures forall b :: b in BreaksOf(s) ==> b == "\r\n" || (|b| == 1 && IsBreak(b[0]))
    decreases |s|
  {
    if s != "" {
      BreaksAre(if |s| >= 2 && s[0] == '\r' && s[1] == '\n' then s[2..] else s[1..]);
    }
  }

  lemma {:induction false} BreaksAreIn(s: string, b: string, c: char)
    requires b in BreaksOf(s) && c in b
    ensures c in s
    decreases |s|
  {
    if |s| >= 2 && s[0] == '\r' && s[1] == '\n' {
      assert s == "\r\n" + s[2..];
      if b != "\r\n" { BreaksAreIn(s[2..], b, c); }
    } else {
      if !(IsBreak(s[0]) && b == [s[0]]) { BreaksAreIn(s[1..], b, c); }
    }
  }

  function Count(s: string, c: char): nat
    decreases |s|
  {
    if s == "" then 0 else (if s[0] == c then 1 else 0) + Count(s[1..], c)
  }

  lemma {:induction false} CountIsMultiplicity(s: string, c: char)
    ensures multiset(s)[c] == Count(s, c)
    decreases |s|
  {
    if s != "" {
      assert s == [s[0]] + s[1..];
      CountIsMultiplicity(s[1..], c);
    }
  }

  lemma {:induction false} BreaksCounted(s: string, c: char)
    requires IsBreak(c)
    ensures Count(s, c) == Having(BreaksOf(s), c)
    decreases |s|
  {
    if s != "" {
      if |s| >= 2 && s[0] == '\r' && s[1] == '\n' {
        assert s[1..][0] == '\n' && s[1..][1..] == s[2..];
        BreaksCounted(s[2..], c);
      } else {
        BreaksCounted(s[1..], c);
      }
    }
  }

  lemma BreaksCount(s: string, c: char)
    requires IsBreak(c)
    ensures multiset(s)[c] == Having(BreaksOf(s), c)
  {
    CountIsMultiplicity(s, c);
    BreaksCounted(s, c);
  }

  lemma SameEnding(s: string, k: nat)
    requires k < |s|
    ensures s[k..] != "" && (EndsInBreak(s[k..]) <==> EndsInBreak(s))
  {}

  lemma {:induction false} LinesAndBreaks(s: string, line: string)
    ensures |LinesFrom(s, line)| == |BreaksOf(s)| + if (s == "" && line == "") || EndsInBreak(s) then 0 else 1
    decreases |s|
  {
    if s != "" {
      if |s| >= 2 && s[0] == '\r' && s[1] == '\n' {
        LinesAndBreaks(s[2..], "");
        if |s| > 2 { SameEnding(s, 2); }
      } else {
        LinesAndBreaks(s[1..], if IsBreak(s[0]) then "" else line + [s[0]]);
        if |s| > 1 { SameEnding(s, 1); }
      }
    }
  }

  lemma UnbrokenCounts(l: string, c: char)
    requires Unbroken(l) && IsBreak(c)
    ensures multiset(l)[c] == 0
  {
    assert c in l ==> !IsBreak(c);
  }

  lemma CountsAdd(a: string, b: string, d: string, c: char)
    ensures multiset(a + b + d)[c] == multiset(a)[c] + multiset(b)[c] + multiset(d)[c]
  {}

  lemma {:induction false} JoinedCounts(lines: seq<string>, sep: string, c: char)
    requires lines != [] && (forall l :: l in lines ==> Unbroken(l)) && IsBreak(c)
    ensures multiset(Joined(lines, sep))[c] == (|lines| - 1) * multiset(sep)[c]
    decreases |lines|
  {
    hide Unbroken, IsBreak;
    assert lines[0] in lines;
    UnbrokenCounts(lines[0], c);
    if |lines| > 1 {
      JoinedCounts(lines[1..], sep, c);
      OneMoreTime(|lines| - 2, multiset(sep)[c]);
      CountsAdd(lines[0], sep, Joined(lines[1..], sep), c);
    }
  }

  lemma OneMoreTime(n: int, m: int)
    ensures (n + 1) * m == n * m + m
  {}

  lemma SplicedCounts(x: string, y: string, piece: string)
    requires SplicedBy(x, y, piece)
    ensures multiset(y) == multiset(x) + multiset(piece)
  {
    var i :| 0 <= i <= |x| && y == x[..i] + piece + x[i..];
    assert x == x[..i] + x[i..];
  }

  /** What `with_row` makes of the text before it inserts the line. */
  function Rejoined(text: string): string
    requires SplitLines(text) != []
  {
    Joined(SplitLines(text), LineEnd(text)) + Tail(text)
  }

  /** How many line ends the rejoined text has. */
  function Ends(text: string): nat
    requires SplitLines(text) != []
  {
    |SplitLines(text)| - 1 + if Tail(text) == "" then 0 else 1
  }

  lemma EndsAreBreaks(text: string)
    requires SplitLines(text) != []
    ensures Ends(text) == |BreaksOf(text)| - if EndsInBreak(text) && Tail(text) == "" then 1 else 0
  {
    LinesAndBreaks(text, "");
  }

  lemma RejoinedCounts(text: string, c: char)
    requires SplitLines(text) != [] && IsBreak(c)
    ensures multiset(Rejoined(text))[c] == Ends(text) * multiset(LineEnd(text))[c]
  {
    var lines, sep := SplitLines(text), LineEnd(text);
    LinesAreUnbroken(text, "");
    JoinedCounts(lines, sep, c);
    var all := multiset(Joined(lines, sep))[c];
    assert multiset(Rejoined(text))[c] == all + multiset(Tail(text))[c];
    OneMoreTime(|lines| - 1, multiset(sep)[c]);
  }

  /** No other line-end character stands in a text that has the characters of its rejoined form. */
  lemma OnlyEndChars(text: string, c: char)
    requires SplitLines(text) != [] && multiset(text) == multiset(Rejoined(text))
    requires c in text && IsBreak(c)
    ensures c in LineEnd(text)
  {
    RejoinedCounts(text, c);
    assert c in multiset(text);
    assert multiset(LineEnd(text))[c] != 0;
  }

  /** And where the pair is written, every line end has both its characters. */
  lemma OnlyPairs(text: string)
    requires SplitLines(text) != [] && multiset(text) == multiset(Rejoined(text)) && LineEnd(text) == "\r\n"
    ensures forall b :: b in BreaksOf(text) ==> '\r' in b && '\n' in b
  {
    if EndsInBreak(text) {
      var last := text[|text| - 1];
      assert last in text;
      OnlyEndChars(text, last);
      assert Tail(text) != "";
    }
    EndsAreBreaks(text);
    BreaksCount(text, '\r');
    BreaksCount(text, '\n');
    RejoinedCounts(text, '\r');
    RejoinedCounts(text, '\n');
    assert multiset("\r\n")['\r'] == 1 && multiset("\r\n")['\n'] == 1;
    AllHave(BreaksOf(text), '\r');
    AllHave(BreaksOf(text), '\n');
  }

  lemma OnlyLineFeeds(text: string)
    requires SplitLines(text) != [] && multiset(text) == multiset(Rejoined(text)) && LineEnd(text) == "\n"
    ensures OneEnd(text)
  {
    BreaksAre(text);
    var bs := BreaksOf(text);
    forall b | b in bs ensures b == "\n" {
      var c := b[0];
      BreaksAreIn(text, b, c);
      OnlyEndChars(text, c);
    }
  }

  lemma BothInOne(b: string)
    requires (b == "\r\n" || |b| == 1) && '\r' in b && '\n' in b
    ensures b == "\r\n"
  {}

  lemma SameCharsOneEnd(text: string)
    requires SplitLines(text) != [] && multiset(text) == multiset(Rejoined(text))
    ensures OneEnd(text)
  {
    if LineEnd(text) == "\n" {
      OnlyLineFeeds(text);
    } else {
      OnlyPairs(text);
      BreaksAre(text);
      forall b | b in BreaksOf(text) ensures b == "\r\n" { BothInOne(b); }
    }
  }

  lemma OneEndRejoins(text: string)
    requires SplitLines(text) != [] && OneEnd(text)
    ensures text == Rejoined(text)
  {
    Rejoins(text, "", LineEnd(text));
    assert "" + text == text;
    if EndsInBreak(text) {
      LastBreak(text);
      var bs := BreaksOf(text);
      assert bs[|bs| - 1] in bs;
    } else if text != "" && text[|text| - 1] in {'\n', '\r'} {
      assert false;
    }
  }

  /** Exactly when the change of the ledger is one inserted line: when every line end of the text is
      the one that `with_row` writes. */
  lemma OneLineDiffExactly(text: string, id: string, doc: string)
    requires SplitLines(text) != []
    ensures SplicedBy(text, WithRow(text, id, doc).value, LineEnd(text) + (id + "," + doc)) <==> OneEnd(text)
  {
    var lines, piece := SplitLines(text), LineEnd(text) + (id + "," + doc);
    var out := WithRow(text, id, doc).value;
    if OneEnd(text) {
      OneEndRejoins(text);
      OneLineDiff(text, id, doc);
    }
    if SplicedBy(text, out, piece) {
      InsertedJoined(lines, Place(lines, id), id + "," + doc, LineEnd(text), Tail(text));
      SplicedCounts(text, out, piece);
      SplicedCounts(Rejoined(text), out, piece);
      SameSummand(multiset(text), multiset(Rejoined(text)), multiset(piece));
      SameCharsOneEnd(text);
    }
  }

  lemma SameSummand<T>(a: multiset<T>, b: multiset<T>, c: multiset<T>)
    requires a + c == b + c
    ensures a == b
  {
    forall x ensures a[x] == b[x] {
      assert (a + c)[x] == a[x] + c[x] && (b + c)[x] == b[x] + c[x];
    }
  }

  lemma {:induction false} BreaksPass(l: string, rest: string)
    requires Unbroken(l)
    ensures BreaksOf(l + rest) == BreaksOf(rest)
    decreases |l|
  {
    if l == "" {
      assert l + rest == rest;
    } else {
      assert l[0] in l && forall c :: c in l[1..] ==> c in l;
      assert (l + rest)[0] == l[0] && (l + rest)[1..] == l[1..] + rest;
      BreaksPass(l[1..], rest);
    }
  }

  lemma {:induction false} JoinedBreaks(lines: seq<string>, sep: string, tail: string)
    requires lines != [] && (forall l :: l in lines ==> Unbroken(l))
    requires (sep == "\n" || sep == "\r\n") && (tail == sep || tail == "")
    ensures forall b :: b in BreaksOf(Joined(lines, sep) + tail) ==> b == sep
    decreases |lines|
  {
    if |lines| == 1 {
      BreaksPass(lines[0], tail);
      if tail != "" { assert sep[|sep|..] == "" && BreaksOf(sep) == [sep] + BreaksOf(""); }
    } else {
      var rest := Joined(lines[1..], sep) + tail;
      assert Joined(lines, sep) + tail == lines[0] + (sep + rest);
      JoinedBreaks(lines[1..], sep, tail);
      BreaksPass(lines[0], sep + rest);
      assert (sep + rest)[|sep|..] == rest && BreaksOf(sep + rest) == [sep] + BreaksOf(rest);
    }
  }

  /** Whatever line ends the old text had, the new one has only the one written. */
  lemma WrittenEnds(text: string, id: string, doc: string)
    requires SplitLines(text) != [] && Unbroken(id) && Unbroken(doc)
    ensures forall b :: b in BreaksOf(WithRow(text, id, doc).value) ==> b == LineEnd(text)
  {
    LinesAreUnbroken(text, "");
    JoinedBreaks(Inserted(SplitLines(text), id, doc), LineEnd(text), Tail(text));
  }

  /** A ledger with a carriage return on its first line only is rewritten in more than one place,
      whatever row it gains. */
  lemma MixedEndsAreRewritten(id: string, doc: string)
    ensures var text := "i,d\r\na,b\n";
            SplitLines(text) != [] && !SplicedBy(text, WithRow(text, id, doc).value, LineEnd(text) + (id + "," + doc))
  {
    var rest := "a,b\n";
    var text := "i,d" + ("\r\n" + rest);
    assert text == "i,d\r\na,b\n";
    BreaksPass("i,d", "\r\n" + rest);
    assert ("\r\n" + rest)[2..] == rest && rest == "a,b" + "\n";
    BreaksPass("a,b", "\n");
    assert BreaksOf("\n") == ["\n"] + BreaksOf("");
    assert BreaksOf(text) == ["\r\n", "\n"];
    FindIsFirst(text, "\r\n");
    assert OccursAt(text, "\r\n", 3);
    assert LineEnd(text) == "\r\n" && "\n" in BreaksOf(text);
    NoLines(text);
    OneLineDiffExactly(text, id, doc);
  }

  // ---------------------------------------------------------------- which row a document earns

  datatype Source = Source(name: string, text: string)

  datatype Refusal = Several(source: string) | NoId | Credited | NoDocument | SeveralDocuments

  /** The only id of the first source that names any. */
  function Named(sources: seq<Source>): Result<string, Refusal> {
    if sources == [] then Err(NoId)
    else
      var ids := RowIds(sources[0].text);
      if |ids| == 1 then Ok(ids[0]) else if |ids| > 1 then Err(Several(sources[0].name)) else Named(sources[1..])
  }

  predicate InLedger(rows: seq<Row>, id: string) {
    exists i :: 0 <= i < |rows| && rows[i].id == id
  }

  function Own(docs: seq<string>, id: string): seq<string>
    requires RowId(id)
  {
    if docs == [] then []
    else
      var before, last := Own(docs[..|docs| - 1], id), docs[|docs| - 1];
      if OwnRow(id, Stem(last)) then before + [last] else before
  }

  /** `choose_row` */
  function ChooseRow(sources: seq<Source>, docs: seq<string>, ledger: string): Result<Row, Refusal> {
    NamedIsRowId(sources);
    match Named(sources)
    case Err(e) => Err(e)
    case Ok(id) =>
      if InLedger(LedgerRows(ledger), id) then Err(Credited)
      else
        var own := Own(docs, id);
        if own == [] then Err(NoDocument) else if |own| > 1 then Err(SeveralDocuments) else Ok(Row(id, own[0]))
  }

  lemma {:induction false} NamedIsRowId(sources: seq<Source>)
    ensures Named(sources).Ok? ==> RowId(Named(sources).value)
    decreases |sources|
  {
    if sources != [] {
      var ids := RowIds(sources[0].text);
      IdsBeforeAreNamed(sources[0].text, |sources[0].text|);
      if ids == [] { NamedIsRowId(sources[1..]); } else { assert ids[0] in ids; }
    }
  }

  /** The text names the row and no other. */
  predicate NamesOnly(text: string, id: string) {
    && (exists i :: 0 <= i < |text| && Names(text, i) && text[i..i + WIDTH] == id)
    && (forall i :: 0 <= i < |text| && Names(text, i) ==> text[i..i + WIDTH] == id)
  }

  predicate NamesNone(text: string) {
    forall i :: 0 <= i < |text| ==> !Names(text, i)
  }

  predicate OnlyOwn(docs: seq<string>, id: string, d: nat)
    requires RowId(id) && d < |docs|
  {
    OwnRow(id, Stem(docs[d])) && forall e :: 0 <= e < |docs| && OwnRow(id, Stem(docs[e])) ==> e == d
  }

  lemma TwoDiffer<T>(s: seq<T>, x: T)
    requires Distinct(s)
    ensures |s| > 1 ==> exists k :: 0 <= k < |s| && s[k] != x
  {
    if |s| > 1 {
      assert s[0] != s[1];
    }
  }

  lemma OneIdIsOnly(text: string, id: string)
    ensures RowIds(text) == [id] <==> NamesOnly(text, id)
    ensures RowIds(text) == [] <==> NamesNone(text)
  {
    IdsBeforeAreNamed(text, |text|);
    var ids := RowIds(text);
    if ids != [] {
      assert ids[0] in ids;
    }
    if NamesOnly(text, id) {
      var i :| 0 <= i < |text| && Names(text, i) && text[i..i + WIDTH] == id;
      assert id in ids;
      forall k | 0 <= k < |ids| ensures ids[k] == id { assert ids[k] in ids; }
      TwoDiffer(ids, id);
    }
  }

  lemma {:induction false} NamedExactly(sources: seq<Source>, id: string)
    ensures Named(sources) == Ok(id) <==>
            exists j :: 0 <= j < |sources| && NamesOnly(sources[j].text, id)
                        && forall i :: 0 <= i < j ==> NamesNone(sources[i].text)
    decreases |sources|
  {
    if sources != [] {
      OneIdIsOnly(sources[0].text, id);
      var rest := sources[1..];
      NamedExactly(rest, id);
      if RowIds(sources[0].text) == [] {
        if j :| 0 <= j < |rest| && NamesOnly(rest[j].text, id) && forall i :: 0 <= i < j ==> NamesNone(rest[i].text) {
          assert sources[j + 1] == rest[j];
        }
        if j :| 0 <= j < |sources| && NamesOnly(sources[j].text, id)
                && forall i :: 0 <= i < j ==> NamesNone(sources[i].text)
        {
          assert j > 0 && rest[j - 1] == sources[j];
          forall i | 0 <= i < j - 1 ensures NamesNone(rest[i].text) { assert rest[i] == sources[i + 1]; }
        }
      }
    }
  }

  predicate NoneOwn(docs: seq<string>, id: string)
    requires RowId(id)
  {
    forall d :: 0 <= d < |docs| ==> !OwnRow(id, Stem(docs[d]))
  }

  lemma {:induction false} NoOwn(docs: seq<string>, id: string)
    requires RowId(id)
    ensures Own(docs, id) == [] <==> NoneOwn(docs, id)
    decreases |docs|
  {
    if docs != [] {
      var n := |docs| - 1;
      NoOwn(docs[..n], id);
      assert docs == docs[..n] + [docs[n]];
    }
  }

  lemma {:induction false} SingleOwn(docs: seq<string>, id: string) returns (d: nat)
    requires RowId(id) && |Own(docs, id)| == 1
    ensures d < |docs| && OnlyOwn(docs, id, d) && Own(docs, id) == [docs[d]]
    decreases |docs|
  {
    var n := |docs| - 1;
    var before := docs[..n];
    assert docs == before + [docs[n]];
    if OwnRow(id, Stem(docs[n])) {
      NoOwn(before, id);
      d := n;
    } else {
      d := SingleOwn(before, id);
    }
  }

  /** A row is chosen exactly when the first source that names any row names it alone, the ledger
      does not have it, and one added document, and no other, is its own. */
  lemma ChosenExactly(sources: seq<Source>, docs: seq<string>, ledger: string, r: Row)
    ensures ChooseRow(sources, docs, ledger) == Ok(r) <==>
            && (exists j :: 0 <= j < |sources| && NamesOnly(sources[j].text, r.id)
                            && forall i :: 0 <= i < j ==> NamesNone(sources[i].text))
            && !InLedger(LedgerRows(ledger), r.id)
            && RowId(r.id) && exists d :: 0 <= d < |docs| && OnlyOwn(docs, r.id, d) && r.doc == docs[d]
  {
    NamedExactly(sources, r.id);
    NamedIsRowId(sources);
    if Named(sources) == Ok(r.id) {
      if |Own(docs, r.id)| == 1 { var e := SingleOwn(docs, r.id); }
      if d :| 0 <= d < |docs| && OnlyOwn(docs, r.id, d) && r.doc == docs[d] {
        OneOwn(docs, r.id, d);
      }
    }
  }

  lemma {:induction false} OneOwn(docs: seq<string>, id: string, d: nat)
    requires RowId(id) && d < |docs| && OnlyOwn(docs, id, d)
    ensures Own(docs, id) == [docs[d]]
    decreases |docs|
  {
    var n := |docs| - 1;
    var before := docs[..n];
    assert forall e :: 0 <= e < n ==> before[e] == docs[e];
    if d < n {
      OneOwn(before, id, d);
    } else {
      NoOwn(before, id);
    }
  }

  // ---------------------------------------------------------------- runs of accepted documents

  /** One accepted change: the texts offered for the row, and the documents it adds. */
  datatype Accept = Accept(sources: seq<Source>, docs: seq<string>)

  function Credit(ledger: string, a: Accept): string {
    var r := ChooseRow(a.sources, a.docs, ledger);
    if r.Err? then ledger
    else
      var w := WithRow(ledger, r.value.id, r.value.doc);
      if w.Ok? then w.value else ledger
  }

  function Ledger(start: string, accepts: seq<Accept>): string
    decreases |accepts|
  {
    if accepts == [] then start
    else Credit(Ledger(start, accepts[..|accepts| - 1]), accepts[|accepts| - 1])
  }

  /** The ids credited, in order. */
  function Credits(start: string, accepts: seq<Accept>): seq<string>
    decreases |accepts|
  {
    if accepts == [] then []
    else
      var before, a := accepts[..|accepts| - 1], accepts[|accepts| - 1];
      var r := ChooseRow(a.sources, a.docs, Ledger(start, before));
      Credits(start, before) + if r.Ok? then [r.value.id] else []
  }

  predicate OneLineNames(accepts: seq<Accept>) {
    forall a, d :: a in accepts && d in a.docs ==> Unbroken(d)
  }

  lemma RowIdIsWritable(id: string, doc: string)
    requires RowId(id) && Unbroken(doc)
    ensures Writable(id, doc)
  {
    assert id[0] == id[..3][0] && id[1] == id[..3][1] && id[2] == id[..3][2];
    forall c | c in id ensures !IsBreak(c) && c != ',' && !IsSpace(c) {
      var i :| 0 <= i < |id| && id[i] == c;
      if 4 <= i < WIDTH && i != 8 { assert IsHex(id[i]); }
    }
  }

  lemma ChosenIsWritable(a: Accept, ledger: string)
    requires ChooseRow(a.sources, a.docs, ledger).Ok? && forall d :: d in a.docs ==> Unbroken(d)
    ensures var r := ChooseRow(a.sources, a.docs, ledger).value;
            Writable(r.id, r.doc) && !InLedger(LedgerRows(ledger), r.id)
  {
    var r := ChooseRow(a.sources, a.docs, ledger).value;
    ChosenExactly(a.sources, a.docs, ledger, r);
    RowIdIsWritable(r.id, r.doc);
  }

  lemma GainedRow(before: seq<Row>, after: seq<Row>, r: Row, id: string)
    requires GainsRow(before, after, r)
    ensures InLedger(after, id) <==> InLedger(before, id) || id == r.id
  {
    var k :| 0 <= k <= |before| && after == before[..k] + [r] + before[k..];
    assert after[k] == r;
    if i :| 0 <= i < |before| && before[i].id == id {
      assert after[if i < k then i else i + 1] == before[i];
    }
    if i :| 0 <= i < |after| && after[i].id == id {
      assert after[i] == if i < k then before[i] else if i == k then r else before[i - 1];
    }
  }

  /** No run of accepts credits an id twice, or one the ledger began with; every credited id is in
      the ledger afterwards, and nothing else is new. */
  lemma {:induction false} CreditedOnce(start: string, accepts: seq<Accept>)
    requires Closed(start) && OneLineNames(accepts)
    ensures Closed(Ledger(start, accepts)) && Distinct(Credits(start, accepts))
    ensures forall id :: id in Credits(start, accepts) ==> !InLedger(LedgerRows(start), id)
    ensures forall id :: InLedger(LedgerRows(Ledger(start, accepts)), id)
                         <==> InLedger(LedgerRows(start), id) || id in Credits(start, accepts)
    decreases |accepts|
  {
    if accepts != [] {
      var before, a := accepts[..|accepts| - 1], accepts[|accepts| - 1];
      assert accepts == before + [a];
      CreditedOnce(start, before);
      CreditStep(Ledger(start, before), a);
    }
  }

  lemma CreditStep(ledger: string, a: Accept)
    requires Closed(ledger) && forall d :: d in a.docs ==> Unbroken(d)
    ensures Closed(Credit(ledger, a))
    ensures var r := ChooseRow(a.sources, a.docs, ledger);
            && (r.Ok? ==> !InLedger(LedgerRows(ledger), r.value.id))
            && forall id :: InLedger(LedgerRows(Credit(ledger, a)), id)
                            <==> InLedger(LedgerRows(ledger), id) || (r.Ok? && id == r.value.id)
  {
    if ChooseRow(a.sources, a.docs, ledger).Ok? {
      var r := ChooseRow(a.sources, a.docs, ledger).value;
      ChosenIsWritable(a, ledger);
      InsertedIsReadable(ledger, r.id, r.doc);
      LedgerGainsOneRow(ledger, r.id, r.doc);
      var after := WithRow(ledger, r.id, r.doc).value;
      forall id ensures InLedger(LedgerRows(after), id) <==> InLedger(LedgerRows(ledger), id) || id == r.id {
        GainedRow(LedgerRows(ledger), LedgerRows(after), Row(r.id, Strip(r.doc)), id);
      }
    }
  }
}
