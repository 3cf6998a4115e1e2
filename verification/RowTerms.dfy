/** The accounting ledger read character by character: which document a row is, what a ledger has,
    why no row is chosen, and what is written. */
module RowTerms {
  import opened Collections
  import opened Wrappers
  import opened Text
  import opened RowLedger
  import Order

  // ---------------------------------------------------------------- a row id in a text

  predicate FourHex(w: string) {
    |w| == 4 && forall i :: 0 <= i < 4 ==> '0' <= w[i] <= '9' || 'A' <= w[i] <= 'F'
  }

  lemma IdReads(s: string)
    requires RowId(s)
    ensures FourHex(s[4..8]) && FourHex(s[9..13])
    ensures s == "OVL" + "_" + s[4..8] + "_" + s[9..13] || s == "RES" + "_" + s[4..8] + "_" + s[9..13]
  {
    assert forall i :: 4 <= i < WIDTH && i != 8 ==> IsHex(s[i]);
    assert s == s[..3] + "_" + s[4..8] + "_" + s[9..13];
  }

  lemma IdWrites(kind: string, unit: string, offset: string)
    requires (kind == "OVL" || kind == "RES") && FourHex(unit) && FourHex(offset)
    ensures RowId(kind + "_" + unit + "_" + offset)
  {
    var s := kind + "_" + unit + "_" + offset;
    assert s[..3] == kind;
    forall i | 4 <= i < WIDTH && i != 8 ensures IsHex(s[i]) {
      assert s[i] == if i < 8 then unit[i - 4] else offset[i - 9];
    }
  }

  /** A row id is its kind, its unit and its offset, four capital hexadecimal digits each. */
  lemma RowIdExactly(s: string)
    ensures RowId(s) <==>
              exists unit, offset :: FourHex(unit) && FourHex(offset)
                && (s == "OVL" + "_" + unit + "_" + offset || s == "RES" + "_" + unit + "_" + offset)
  {
    hide RowId, FourHex;
    if RowId(s) { IdReads(s); }
    if unit, offset :| FourHex(unit) && FourHex(offset)
                       && (s == "OVL" + "_" + unit + "_" + offset || s == "RES" + "_" + unit + "_" + offset)
    {
      IdWrites("OVL", unit, offset);
      IdWrites("RES", unit, offset);
    }
  }

  predicate JoinsWords(c: char) {
    c == '_' || '0' <= c <= '9' || 'a' <= c <= 'z' || 'A' <= c <= 'Z'
  }

  /** It is named where it stands alone: with no letter, digit or underscore directly before or behind. */
  lemma NamedAlone(a: string, id: string, b: string)
    requires RowId(id)
    ensures Names(a + id + b, |a|) <==> (a == "" || !JoinsWords(a[|a| - 1])) && (b == "" || !JoinsWords(b[0]))
  {
    hide RowId;
    IdIsWide(id);
    assert (a + id + b)[|a|..|a| + WIDTH] == id;
  }

  lemma IdIsWide(id: string)
    requires RowId(id)
    ensures |id| == WIDTH
  {}

  // ---------------------------------------------------------------- a document's name

  lemma {:induction false} AfterNone(s: string, c: char)
    requires c !in s
    ensures After(s, c) == s
  {}

  lemma {:induction false} AfterLast(a: string, s: string, c: char)
    requires c !in s
    ensures After(a + [c] + s, c) == s
    decreases |a|
  {
    var all := a + [c] + s;
    if a == "" {
      assert all[0] == c && all[1..] == s;
    } else {
      assert all[1..] == a[1..] + [c] + s && all[1..][|a| - 1] == c;
      AfterLast(a[1..], s, c);
    }
  }

  lemma {:induction false} BeforeNone(s: string, c: char)
    requires c !in s
    ensures Before(s, c) == s
  {}

  lemma {:induction false} BeforeLast(s: string, c: char, b: string)
    requires c !in b
    ensures Before(s + [c] + b, c) == s
    decreases |s|
  {
    var all := s + [c] + b;
    assert all[|s|] == c;
    if s == "" {
      assert all[1..] == b;
    } else {
      assert all[0] == s[0] && all[1..] == s[1..] + [c] + b && all[1..][|s| - 1] == c;
      BeforeLast(s[1..], c, b);
      assert s == [s[0]] + s[1..];
    }
  }

  /** The name a document goes by: what stands behind the last slash, up to the last dot if it has one. */
  lemma StemIs(dir: string, stem: string, suffix: string)
    requires '/' !in stem && '/' !in suffix && '.' !in suffix
    ensures Stem(dir + "/" + (stem + "." + suffix)) == stem && Stem(stem + "." + suffix) == stem
    ensures '.' !in stem ==> Stem(dir + "/" + stem) == stem && Stem(stem) == stem
  {
    var base := stem + "." + suffix;
    AfterLast(dir, base, '/');
    AfterNone(base, '/');
    BeforeLast(stem, '.', suffix);
    AfterLast(dir, stem, '/');
    AfterNone(stem, '/');
    if '.' !in stem { BeforeNone(stem, '.'); }
  }

  predicate SameLetter(c: char, d: char) {
    || c == d
    || ('a' <= c <= 'z' && d as int == c as int - 32) || ('A' <= c <= 'Z' && d as int == c as int + 32)
  }

  predicate WordAt(s: string, w: string, i: nat) {
    && i + |w| <= |s| && (i > 0 ==> s[i - 1] == '_') && (i + |w| < |s| ==> s[i + |w|] == '_')
    && forall k :: 0 <= k < |w| ==> SameLetter(s[i + k], w[k])
  }

  /** The word stands between underscores, upper and lower case alike. */
  predicate HasWord(s: string, w: string) {
    exists i: nat :: i <= |s| && WordAt(s, w, i)
  }

  lemma WordIsPiece(s: string, w: string, low: string, i: nat)
    requires low == Lowered(w) && '_' !in low && i <= |s|
    ensures PieceAt(Lowered(s), low, i) <==> WordAt(s, w, i)
  {
    var t := Lowered(s);
    if i + |w| <= |s| {
      var part := t[i..i + |w|];
      assert forall k :: 0 <= k < |w| ==> part[k] == Lower(s[i + k]) && low[k] == Lower(w[k]);
      forall k | 0 <= k < |w| ensures part[k] == low[k] <==> SameLetter(s[i + k], w[k]) {}
      assert part == low <==> forall k :: 0 <= k < |w| ==> part[k] == low[k];
    }
  }

  lemma WordsArePieces(s: string, w: string, low: string)
    requires low == Lowered(w) && '_' !in low
    ensures Piece(Lowered(s), low) <==> HasWord(s, w)
  {
    forall i: nat | i <= |s| ensures PieceAt(Lowered(s), low, i) <==> WordAt(s, w, i) { WordIsPiece(s, w, low, i); }
  }

  lemma {:induction false} ZerosGo(s: string, z: nat)
    requires z <= |s| && (forall i :: 0 <= i < z ==> s[i] == '0') && (z < |s| ==> s[z] != '0')
    ensures NoZeros(s) == s[z..]
    decreases z
  {
    if z > 0 { ZerosGo(s[1..], z - 1); }
  }

  /** A document is a row's own when its name has the row's offset as a word, and its unit either as it
      is or with a `u` in place of the leading zeros. */
  lemma OwnExactly(id: string, stem: string, z: nat)
    requires RowId(id) && z <= 4 && (forall i :: 4 <= i < 4 + z ==> id[i] == '0') && (z < 4 ==> id[4 + z] != '0')
    ensures OwnRow(id, stem) <==>
              && HasWord(stem, id[9..13])
              && (HasWord(stem, id[4..8]) || HasWord(stem, "u" + if z == 4 then "0" else id[4 + z..8]))
  {
    hide Piece, HasWord;
    var unit, offset := id[4..8], id[9..13];
    var short := "u" + if z == 4 then "0" else id[4 + z..8];
    ZerosGo(Lowered(unit), z);
    assert forall i :: 0 <= i < 4 ==> IsHex(unit[i]) && IsHex(offset[i]);
    assert Lowered(short) == "u" + if z == 4 then "0" else Lowered(unit)[z..];
    WordsArePieces(stem, offset, Lowered(offset));
    WordsArePieces(stem, unit, Lowered(unit));
    WordsArePieces(stem, short, Lowered(short));
  }

  // ---------------------------------------------------------------- what a ledger has

  /** The line is an id, a comma and a document, with anything blank around them. */
  ghost predicate Carries(line: string, r: Row) {
    exists a, b :: line == a + "," + b && ',' !in a && Strip(a) == r.id && Strip(b) == r.doc
  }

  lemma RowOnExactly(line: string, r: Row)
    ensures r in RowOn(line) <==> Strip(line) != "" && Carries(line, r)
  {
    hide Strip;
    var k := IndexOf(line, ',');
    if k < |line| { assert line == line[..k] + "," + line[k + 1..]; }
    if a, b :| line == a + "," + b && ',' !in a && Strip(a) == r.id && Strip(b) == r.doc {
      assert line[|a|] == ',' && line[..|a|] == a && line[|a| + 1..] == b;
      IndexOfIs(line, ',', |a|);
    }
  }

  lemma {:induction false} RowsOnExactly(lines: seq<string>, r: Row)
    ensures r in RowsOn(lines) <==> exists l :: l in lines && Strip(l) != "" && Carries(l, r)
  {
    hide Strip, Carries;
    if lines != [] {
      var n := |lines| - 1;
      RowsOnExactly(lines[..n], r);
      RowOnExactly(lines[n], r);
      assert lines == lines[..n] + [lines[n]];
    }
  }

  /** A ledger has a row exactly when a line under its first one carries it. */
  lemma LedgerHasExactly(text: string, r: Row)
    ensures r in LedgerRows(text) <==>
              exists i :: 1 <= i < |SplitLines(text)| && Strip(SplitLines(text)[i]) != ""
                          && Carries(SplitLines(text)[i], r)
  {
    hide Strip, Carries;
    var lines := SplitLines(text);
    if lines != [] {
      RowsOnExactly(lines[1..], r);
      forall l ensures l in lines[1..] <==> exists i :: 1 <= i < |lines| && lines[i] == l {
        if i :| 1 <= i < |lines| && lines[i] == l { assert lines[1..][i - 1] == l; }
      }
    }
  }

  // ---------------------------------------------------------------- why no row is chosen

  predicate NamesTwo(text: string) {
    exists i, j :: 0 <= i < j < |text| && Names(text, i) && Names(text, j) && text[i..i + WIDTH] != text[j..j + WIDTH]
  }

  lemma TwoIdsAreTwo(text: string)
    ensures |RowIds(text)| > 1 <==> NamesTwo(text)
  {
    IdsBeforeAreNamed(text, |text|);
    var ids := RowIds(text);
    if |ids| > 1 {
      assert ids[0] in ids && ids[1] in ids && ids[0] != ids[1];
      var i :| 0 <= i < |text| && Names(text, i) && text[i..i + WIDTH] == ids[0];
      var j :| 0 <= j < |text| && Names(text, j) && text[j..j + WIDTH] == ids[1];
      assert i < j || j < i;
    }
    if NamesTwo(text) {
      var i, j :| 0 <= i < j < |text| && Names(text, i) && Names(text, j) && text[i..i + WIDTH] != text[j..j + WIDTH];
      assert text[i..i + WIDTH] in ids && text[j..j + WIDTH] in ids;
    }
  }

  /** No row is named when no source names one, and the choice is refused by the name of the first
      source that names any if that one names two. */
  lemma {:induction false} NotNamedExactly(sources: seq<Source>)
    ensures Named(sources) == Err(NoId) <==> forall i :: 0 <= i < |sources| ==> NamesNone(sources[i].text)
    ensures forall name :: Named(sources) == Err(Several(name)) <==>
              exists j :: 0 <= j < |sources| && sources[j].name == name && NamesTwo(sources[j].text)
                          && forall i :: 0 <= i < j ==> NamesNone(sources[i].text)
    ensures Named(sources).Err? ==> Named(sources).error.NoId? || Named(sources).error.Several?
    decreases |sources|
  {
    hide NamesNone, NamesTwo, RowIds;
    if sources != [] {
      var first, rest := sources[0], sources[1..];
      OneIdIsOnly(first.text, "");
      TwoIdsAreTwo(first.text);
      NotNamedExactly(rest);
      assert forall i :: 0 <= i < |rest| ==> rest[i] == sources[i + 1];
      assert forall i :: 1 <= i < |sources| ==> sources[i] == rest[i - 1];
    }
  }

  lemma {:induction false} TwoOwn(docs: seq<string>, id: string)
    requires RowId(id)
    ensures |Own(docs, id)| > 1 <==>
              exists d, e :: 0 <= d < e < |docs| && OwnRow(id, Stem(docs[d])) && OwnRow(id, Stem(docs[e]))
    decreases |docs|
  {
    hide OwnRow, Stem;
    if docs != [] {
      var n := |docs| - 1;
      var before := docs[..n];
      assert forall d :: 0 <= d < n ==> before[d] == docs[d];
      TwoOwn(before, id);
      NoOwn(before, id);
    }
  }

  /** With a row named, it is refused as credited when the ledger has it, and otherwise by how many of
      the added documents are its own. */
  lemma RefusedExactly(sources: seq<Source>, docs: seq<string>, ledger: string)
    ensures var r := ChooseRow(sources, docs, ledger);
            match Named(sources)
            case Err(e) => r == Err(e)
            case Ok(id) =>
              && RowId(id)
              && (r == Err(Credited) <==> exists row :: row in LedgerRows(ledger) && row.id == id)
              && (r == Err(NoDocument) <==> r != Err(Credited) && forall d :: d in docs ==> !OwnRow(id, Stem(d)))
              && (r == Err(SeveralDocuments) <==>
                    && r != Err(Credited)
                    && exists d, e :: 0 <= d < e < |docs| && OwnRow(id, Stem(docs[d])) && OwnRow(id, Stem(docs[e])))
              && (r.Ok? ==> r.value.id == id && r.value.doc in docs && OwnRow(id, Stem(r.value.doc)))
  {
    hide OwnRow, Stem, Named;
    NamedIsRowId(sources);
    match Named(sources)
    case Err(_) =>
    case Ok(id) =>
      NoOwn(docs, id);
      TwoOwn(docs, id);
      if |Own(docs, id)| == 1 { var d := SingleOwn(docs, id); }
  }

  // ---------------------------------------------------------------- what is written

  /** The written ledger: the first line, and the new row in front of the first line whose key is not
      below its own where the keys ascend; ended by a carriage return and a line feed if the old text had
      that pair anywhere, by line feeds otherwise, and closed exactly when the old text was. */
  lemma WrittenExactly(text: string, id: string, doc: string, p: nat)
    requires var lines := SplitLines(text);
             && 1 <= p <= |lines| && SortedKeys(BodyKeys(lines))
             && (forall i :: 1 <= i < p ==> Order.Less(KeyOf(lines[i]), id))
             && (p < |lines| ==> !Order.Less(KeyOf(lines[p]), id))
    ensures var lines := SplitLines(text);
            var end := if exists i :: 0 <= i < |text| - 1 && text[i] == '\r' && text[i + 1] == '\n'
                       then "\r\n" else "\n";
            var closed := text[|text| - 1] == '\n' || text[|text| - 1] == '\r';
            WithRow(text, id, doc)
            == Ok(Joined(lines[..p] + [id + "," + doc] + lines[p..], end) + if closed then end else "")
  {
    hide LinesFrom, Joined, Order.Less, KeyOf, SortedKeys, BodyKeys, Place, LineEnd;
    NoLines(text);
    PlaceExactly(SplitLines(text), id, p);
    EndExactly(text);
  }

  lemma PlaceExactly(lines: seq<string>, id: string, p: nat)
    requires 1 <= p <= |lines| && SortedKeys(BodyKeys(lines))
    requires forall i :: 1 <= i < p ==> Order.Less(KeyOf(lines[i]), id)
    requires p < |lines| ==> !Order.Less(KeyOf(lines[p]), id)
    ensures Place(lines, id) == p
  {
    hide Order.Less, KeyOf;
    var keys := BodyKeys(lines);
    var k := Bisect(keys, id, 0, |keys|);
    BisectSplits(keys, id, 0, |keys|);
    assert forall i :: 0 <= i < |keys| ==> keys[i] == KeyOf(lines[i + 1]);
    assert k < |keys| ==> keys[k] == KeyOf(lines[k + 1]);
    assert p - 1 < |keys| ==> keys[p - 1] == KeyOf(lines[p]);
  }

  lemma EndExactly(text: string)
    ensures LineEnd(text) == if exists i :: 0 <= i < |text| - 1 && text[i] == '\r' && text[i + 1] == '\n'
                             then "\r\n" else "\n"
  {
    FindIsFirst(text, "\r\n");
    if Find(text, "\r\n").Some? {
      var i := Find(text, "\r\n").value;
      assert text[i..i + 2] == "\r\n";
      assert text[i] == text[i..i + 2][0] && text[i + 1] == text[i..i + 2][1];
    } else {
      forall i | 0 <= i < |text| - 1 && text[i] == '\r' && text[i + 1] == '\n' ensures OccursAt(text, "\r\n", i) {
        assert text[i..i + 2] == "\r\n";
      }
    }
  }

  lemma KeyIs(a: string, rest: string)
    requires ',' !in a
    ensures KeyOf(a + "," + rest) == a && KeyOf(a) == a
  {
    var line := a + "," + rest;
    assert line[|a|] == ',' && line[..|a|] == a;
    IndexOfIs(line, ',', |a|);
  }

  /** A ledger without a line is refused, and no other. */
  lemma HeaderExactly(text: string, id: string, doc: string)
    ensures WithRow(text, id, doc).Err? <==> text == ""
  {
    NoLines(text);
  }
}
