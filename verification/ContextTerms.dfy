/** The context store read off its files: which entry is retired, which one a name means, what the walk
    along successors comes to, and what is refused. */
module ContextTerms {
  import opened Collections
  import opened Wrappers
  import opened Text
  import opened Context
  import opened ContextDisk
  import FrontMatter
  import Order

  // ---------------------------------------------------------------- the older mark of a retirement

  predicate Digits(s: string, n: nat) {
    |s| == n && forall i :: 0 <= i < n ==> '0' <= s[i] <= '9'
  }

  function MarkOf(year: string, month: string, day: string): string {
    "**Retired " + year + "-" + month + "-" + day + "**:"
  }

  /** A line of the text begins with a retirement and its date. */
  ghost predicate SaysRetired(body: string) {
    exists a, year, month, day, b ::
      && Digits(year, 4) && Digits(month, 2) && Digits(day, 2) && (a == "" || a[|a| - 1] == '\n')
      && body == a + MarkOf(year, month, day) + b
  }

  lemma MarkReads(body: string, i: nat)
    requires MarkAt(body, i)
    ensures SaysRetired(body)
  {
    var year, month, day := body[i + 10..i + 14], body[i + 15..i + 17], body[i + 18..i + 20];
    var a, b := body[..i], body[i + 23..];
    assert body[i..i + 10] == "**Retired " && body[i + 14..i + 15] == "-" && body[i + 17..i + 18] == "-";
    assert body[i + 20..i + 23] == "**:";
    assert body[i..i + 23] == body[i..i + 10] + year + body[i + 14..i + 15] + month + body[i + 17..i + 18] + day
                              + body[i + 20..i + 23];
    assert body[i..i + 23] == MarkOf(year, month, day);
    assert body == a + MarkOf(year, month, day) + b;
    assert Digits(year, 4) && Digits(month, 2) && Digits(day, 2);
  }

  lemma MarkIs(body: string, a: string, year: string, month: string, day: string, b: string)
    requires Digits(year, 4) && Digits(month, 2) && Digits(day, 2) && (a == "" || a[|a| - 1] == '\n')
    requires body == a + MarkOf(year, month, day) + b
    ensures MarkAt(body, |a|)
  {
    var i, mark := |a|, MarkOf(year, month, day);
    assert |mark| == 23 && body[i..i + 23] == mark;
    assert mark[..10] == "**Retired " && mark[10..14] == year && mark[14..15] == "-" && mark[15..17] == month;
    assert mark[17..18] == "-" && mark[18..20] == day && mark[20..23] == "**:";
    assert body[i..i + 10] == mark[..10] && body[i + 14..i + 15] == mark[14..15];
    assert body[i + 17..i + 18] == mark[17..18] && body[i + 20..i + 23] == mark[20..23];
    assert body[i + 10..i + 14] == mark[10..14] && body[i + 15..i + 17] == mark[15..17];
    assert body[i + 18..i + 20] == mark[18..20];
    DigitsStand(body, i + 10, year);
    DigitsStand(body, i + 15, month);
    DigitsStand(body, i + 18, day);
  }

  lemma DigitsStand(body: string, i: nat, w: string)
    requires Digits(w, |w|) && i + |w| <= |body| && body[i..i + |w|] == w
    ensures DigitsAt(body, i, |w|)
  {
    assert forall k :: i <= k < i + |w| ==> body[k] == w[k - i];
  }

  /** An entry that can be read is retired by its front matter, or by a dated mark at the start of a line. */
  lemma RetiredExactly(e: Entry)
    ensures IsRetired(e) <==> e.Entry? && (e.retiredAt.Some? || SaysRetired(e.body))
  {
    hide MarkAt, MarkOf, Digits;
    if e.Entry? {
      if i :| 0 <= i < |e.body| && MarkAt(e.body, i) { MarkReads(e.body, i); }
      if a, year, month, day, b :|
        && Digits(year, 4) && Digits(month, 2) && Digits(day, 2) && (a == "" || a[|a| - 1] == '\n')
        && e.body == a + MarkOf(year, month, day) + b
      {
        MarkIs(e.body, a, year, month, day, b);
        MarkIsInside(e.body, |a|);
      }
    }
  }

  lemma MarkIsInside(body: string, i: nat)
    requires MarkAt(body, i)
    ensures i < |body|
  {}

  // ---------------------------------------------------------------- which file a name means

  /** The order in which the folders are listed. */
  function Rank(c: Class): nat {
    match c
    case GroundTruth => 0
    case Fact => 1
    case Provisional => 2
    case History => 3
  }

  /** The file with this slug in the folder listed first. */
  predicate FirstNamed(files: Files, slug: Slug, p: Path) {
    p in files && p.slug == slug && forall r :: r in files && r.slug == slug ==> Rank(p.cls) <= Rank(r.cls)
  }

  lemma LookupExactly(files: Files, slug: Slug)
    ensures forall p :: Lookup(files, slug) == Some(p) <==> FirstNamed(files, slug, p)
  {
    LookupFinds(files, slug);
    forall p ensures Lookup(files, slug) == Some(p) <==> FirstNamed(files, slug, p) {
      if FirstNamed(files, slug, p) {
        assert p == Path(p.cls, slug);
        var q := Lookup(files, slug).value;
        assert q in files && q.slug == slug;
      }
    }
  }

  predicate IsAbout(files: Files, q: string, p: Path) {
    p in files && files[p].Entry? && files[p].subject == q
  }

  /** Of the files about a subject, the first: by the folder, and by the file name within it. */
  ghost predicate FirstSubject(files: Files, q: string, p: Path) {
    IsAbout(files, q, p) && forall r :: IsAbout(files, q, r) && r != p ==> Sooner(p, r)
  }

  predicate Sooner(p: Path, r: Path) {
    Rank(p.cls) < Rank(r.cls) || (p.cls == r.cls && Order.Less(p.slug + ".md", r.slug + ".md"))
  }

  lemma SoonerOneWay(p: Path, r: Path)
    ensures !(Sooner(p, r) && Sooner(r, p))
  {
    Order.LessIsTotal(p.slug + ".md", r.slug + ".md");
  }

  lemma SubjectFound(files: Files, q: string)
    requires Lookup(files, q).None?
    ensures Located(files, q).Some? ==> FirstSubject(files, q, Located(files, q).value)
    ensures Located(files, q).None? ==> forall r :: !IsAbout(files, q, r)
  {
    hide Lookup, FirstAbout, Order.Less;
  }

  /** A name means the file with that slug, in the folder listed first; when there is none, of the files
      about that subject, those in the folder listed first, the first by file name; else nothing. */
  lemma LocatedExactly(files: Files, q: string, p: Path)
    ensures Located(files, q) == Some(p) <==>
              FirstNamed(files, q, p) || ((forall r :: r in files ==> r.slug != q) && FirstSubject(files, q, p))
  {
    LookupFinds(files, q);
    LookupExactly(files, q);
    if Lookup(files, q).None? {
      SubjectFound(files, q);
      hide Lookup, Located, Sooner;
      var w := Located(files, q);
      if w.Some? { SoonerOneWay(w.value, p); }
    }
  }

  // ---------------------------------------------------------------- the walk along successors

  /** A walk from entry to entry, each named by the one before as its successor, and no slug met twice. */
  ghost predicate Walk(files: Files, ps: seq<Path>) {
    && ps != [] && (forall i :: 0 <= i < |ps| ==> ps[i] in files)
    && (forall i, j :: 0 <= i < j < |ps| ==> ps[i].slug != ps[j].slug)
    && (forall i :: 0 < i < |ps| ==> Follows(files, ps[i - 1], ps[i]))
  }

  predicate Follows(files: Files, p: Path, q: Path)
    requires p in files
  {
    files[p].Entry? && files[p].supersededBy.Some? && FirstNamed(files, files[p].supersededBy.value, q)
  }

  function Met(ps: seq<Path>): set<Slug> {
    set p | p in ps :: p.slug
  }

  lemma {:induction false} WalkGoesOn(files: Files, ps: seq<Path>, n: nat)
    requires Walk(files, ps) && n < |ps|
    ensures End(files, ps[0], {}) == End(files, ps[n], Met(ps[..n]))
    decreases n
  {
    if n == 0 {
      assert Met(ps[..0]) == {};
    } else {
      WalkGoesOn(files, ps, n - 1);
      var p, before := ps[n - 1], Met(ps[..n - 1]);
      assert ps[..n] == ps[..n - 1] + [p];
      assert Met(ps[..n]) == before + {p.slug};
      forall x | x in ps[..n - 1] ensures x.slug != p.slug {}
      assert Follows(files, p, ps[n]);
      LookupExactly(files, files[p].supersededBy.value);
    }
  }

  /** What resolving comes to at the end of a walk: the last entry, or nothing if it is retired, when it has
      no successor; an error when it cannot be read, when its successor is nowhere, and when that has been
      met on the way. */
  lemma ResolvedExactly(files: Files, ps: seq<Path>)
    requires Walk(files, ps)
    ensures var last := ps[|ps| - 1];
            var e := files[last];
            var r := Resolved(files, ps[0]);
            && (e.Broken? ==> r == Err(Unreadable(e.error)))
            && (e.Entry? && e.supersededBy.None? ==>
                  r == Ok(if e.retiredAt.Some? || SaysRetired(e.body) then None else Some(last)))
            && (e.Entry? && e.supersededBy.Some? ==>
                  && ((forall q :: q in files ==> q.slug != e.supersededBy.value) ==> r == Err(MissingTarget))
                  && ((exists i, q :: 0 <= i < |ps| && ps[i].slug == e.supersededBy.value
                                      && FirstNamed(files, e.supersededBy.value, q)) ==> r == Err(Cycle)))
  {
    var n := |ps| - 1;
    var last := ps[n];
    WalkGoesOn(files, ps, n);
    RetiredExactly(files[last]);
    assert last.slug !in Met(ps[..n]);
    hide IsRetired, SaysRetired;
    if files[last].Entry? && files[last].supersededBy.Some? {
      var slug := files[last].supersededBy.value;
      LookupFinds(files, slug);
      LookupExactly(files, slug);
      if i, q :| 0 <= i < |ps| && ps[i].slug == slug && FirstNamed(files, slug, q) {
        assert ps == ps[..n] + [last] && ps[i] in ps;
        assert q.slug in Met(ps[..n]) + {last.slug};
      }
    }
  }

  // ---------------------------------------------------------------- what is written, recorded and refused

  /** An entry is added as the caller gave it; a provisional one is to be looked at again in seven days unless
      the caller says when. */
  lemma CompletedExactly(cls: Class, subject: string, kind: string, scope: string, authority: Authority,
                         stated: string, source: string, recheckAfter: Option<string>, supersedes: Option<Slug>,
                         body: string)
    ensures var e := Completed(cls, subject, kind, scope, authority, stated, source, recheckAfter, supersedes, body);
            && e.Entry? && e.cls == cls && e.subject == subject && e.kind == kind && e.scope == scope
            && e.authority == authority && e.stated == stated && e.source == Some(source) && e.body == body
            && e.supersedes == supersedes && e.supersededBy.None? && e.retiredAt.None? && e.retiredReason.None?
            && (recheckAfter.Some? ==> e.recheckAfter == recheckAfter)
            && (recheckAfter.None? ==> e.recheckAfter == if cls.Provisional? then Some("7d") else None)
  {}

  /** A file is as recorded when its row has this text, modified when it has another, unrecorded when there
      are rows and none for it; without any row nothing is refused. */
  lemma StatusExactly(rows: Rows, slug: Slug, text: string)
    ensures var standing := Status(rows, slug, text);
            && (standing == Bootstrap <==> forall s :: s !in rows)
            && (standing == Recorded <==> slug in rows && rows[slug] == text)
            && (standing == Modified <==> slug in rows && rows[slug] != text)
            && (standing == Unrecorded <==> slug !in rows && exists s :: s in rows)
  {}

  predicate Says(meta: FrontMatter.Meta, key: string) {
    key in meta && meta[key].Some? && meta[key].value != ""
  }

  /** Front matter is refused when one of six keys says nothing, and when class or authority are not among
      those there are. */
  lemma CheckedExactly(meta: FrontMatter.Meta, body: string)
    ensures var all := && Says(meta, "class") && Says(meta, "subject") && Says(meta, "type") && Says(meta, "scope")
                       && Says(meta, "authority") && Says(meta, "stated");
            FrontMatter.Checked(meta, body)
            == if !all then Err(FrontMatter.MissingKey)
               else if meta["class"].value !in {"ground-truth", "fact", "provisional", "history"}
               then Err(FrontMatter.BadClass)
               else if meta["authority"].value !in {"owner", "measured", "agent"} then Err(FrontMatter.BadAuthority)
               else Ok((meta, body))
  {
    var keys := FrontMatter.REQUIRED;
    assert forall i :: 0 <= i < 6 ==> keys[i] in keys;
    assert keys[0] == "class" && keys[1] == "subject" && keys[2] == "type" && keys[3] == "scope";
    assert keys[4] == "authority" && keys[5] == "stated";
    assert forall k :: Says(meta, k) <==> FrontMatter.Present(meta, k);
    assert forall c :: c in FrontMatter.CLASSES <==> c in {"ground-truth", "fact", "provisional", "history"};
    assert forall a :: a in FrontMatter.AUTHORITIES <==> a in {"owner", "measured", "agent"};
  }
}
