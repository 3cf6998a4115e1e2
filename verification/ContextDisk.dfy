/** The context store as it stands on disk: every write prints an entry and every read parses the
    file again.  A ledger keeps what the daemon wrote, by slug. */
module ContextDisk {
  import opened Collections
  import opened Wrappers
  import opened Text
  import opened Context
  import FrontMatter
  import Decimal
  import Order

  type Disk = map<Path, string>

  /** The hashes of the ledger stand for the texts. */
  type Rows = map<Slug, string>

  datatype Standing = Recorded | Modified | Unrecorded | Bootstrap

  const TYPES: seq<string> := ["principle", "decision", "reference", "lesson", "measurement", "incident", "rule",
                               "wiki"]

  // ---------------------------------------------------------------- printing and reading an entry

  function ClassName(c: Class): string {
    match c
    case GroundTruth => "ground-truth"
    case Fact => "fact"
    case Provisional => "provisional"
    case History => "history"
  }

  function ClassOf(s: string): Class {
    if s == "ground-truth" then GroundTruth else if s == "fact" then Fact
    else if s == "provisional" then Provisional else History
  }

  function AuthorityName(a: Authority): string {
    match a
    case Owner => "owner"
    case Measured => "measured"
    case Agent => "agent"
  }

  function AuthorityOf(s: string): Authority {
    if s == "owner" then Owner else if s == "measured" then Measured else Agent
  }

  function MetaOf(e: Entry): FrontMatter.Meta
    requires e.Entry?
  {
    map["class" := Some(ClassName(e.cls)), "subject" := Some(e.subject), "type" := Some(e.kind),
        "scope" := Some(e.scope),
        "authority" := Some(AuthorityName(e.authority)), "stated" := Some(e.stated), "source" := e.source,
        "recheck_after" := e.recheckAfter, "supersedes" := e.supersedes, "superseded_by" := e.supersededBy,
        "retired_at" := e.retiredAt, "retired_reason" := e.retiredReason]
  }

  function Print(e: Entry): string
    requires e.Entry?
  {
    FrontMatter.Render(MetaOf(e), e.body)
  }

  function Word(m: FrontMatter.Meta, key: string): string {
    FrontMatter.Get(m, key).GetOr("")
  }

  function EntryOf(m: FrontMatter.Meta, body: string): Entry {
    Entry(ClassOf(Word(m, "class")), Word(m, "subject"), Word(m, "type"), Word(m, "scope"),
          AuthorityOf(Word(m, "authority")),
          Word(m, "stated"), FrontMatter.Get(m, "source"), FrontMatter.Get(m, "recheck_after"),
          FrontMatter.Get(m, "supersedes"),
          FrontMatter.Get(m, "superseded_by"), FrontMatter.Get(m, "retired_at"), FrontMatter.Get(m, "retired_reason"),
          Strip(body))
  }

  /** What reading a file gives. */
  function EntryAt(text: string): Entry {
    match FrontMatter.Parse(text)
    case Err(e) => Broken(e)
    case Ok((m, body)) => EntryOf(m, body)
  }

  /** What an entry is once it has been written and read: the body is trimmed, empty values are none. */
  function Normal(e: Entry): Entry
    requires e.Entry?
  {
    e.(source := FrontMatter.AsRead(e.source), recheckAfter := FrontMatter.AsRead(e.recheckAfter),
       supersedes := FrontMatter.AsRead(e.supersedes), supersededBy := FrontMatter.AsRead(e.supersededBy),
       retiredAt := FrontMatter.AsRead(e.retiredAt), retiredReason := FrontMatter.AsRead(e.retiredReason),
       body := Strip(e.body))
  }

  /** Every value fits on its line and does not look like the end of the front matter. */
  predicate SafeEntry(e: Entry)
    requires e.Entry?
  {
    && FrontMatter.Plain(Some(e.subject)) && FrontMatter.Plain(Some(e.kind)) && FrontMatter.Plain(Some(e.scope))
    && FrontMatter.Plain(Some(e.stated)) && FrontMatter.Safe(e.source) && FrontMatter.Safe(e.recheckAfter)
    && FrontMatter.Safe(e.supersedes) && FrontMatter.Safe(e.supersededBy)
    && FrontMatter.Safe(e.retiredAt) && FrontMatter.Safe(e.retiredReason)
  }

  lemma KeysAre(k: string)
    ensures k in FrontMatter.KEYS <==>
              || k == "class" || k == "subject" || k == "type" || k == "scope" || k == "authority" || k == "stated"
              || k == "source" || k == "recheck_after" || k == "supersedes" || k == "superseded_by"
              || k == "retired_at" || k == "retired_reason"
    ensures k in FrontMatter.REQUIRED <==>
              k == "class" || k == "subject" || k == "type" || k == "scope" || k == "authority" || k == "stated"
  {
    var ks := FrontMatter.KEYS;
    assert ks[0] == "class" && ks[1] == "subject" && ks[2] == "type" && ks[3] == "scope" && ks[4] == "authority"
           && ks[5] == "stated";
    assert ks[6] == "source" && ks[7] == "recheck_after" && ks[8] == "supersedes" && ks[9] == "superseded_by";
    assert ks[10] == "retired_at" && ks[11] == "retired_reason";
    var rs := FrontMatter.REQUIRED;
    assert rs[0] == "class" && rs[1] == "subject" && rs[2] == "type" && rs[3] == "scope" && rs[4] == "authority"
           && rs[5] == "stated";
  }

  lemma NamesArePlain(e: Entry)
    requires e.Entry?
    ensures FrontMatter.Plain(Some(ClassName(e.cls))) && FrontMatter.Plain(Some(AuthorityName(e.authority)))
    ensures ClassName(e.cls) in FrontMatter.CLASSES && AuthorityName(e.authority) in FrontMatter.AUTHORITIES
    ensures ClassOf(ClassName(e.cls)) == e.cls && AuthorityOf(AuthorityName(e.authority)) == e.authority
  {
    var cs, names := FrontMatter.CLASSES, FrontMatter.AUTHORITIES;
    assert cs[0] == "ground-truth" && cs[1] == "fact" && cs[2] == "provisional" && cs[3] == "history";
    assert names[0] == "owner" && names[1] == "measured" && names[2] == "agent";
  }

  lemma SafeWords(e: Entry)
    requires e.Entry? && SafeEntry(e)
    ensures e.subject != "" && e.kind != "" && e.scope != "" && e.stated != ""
    ensures ClassName(e.cls) != "" && AuthorityName(e.authority) != ""
  {}

  lemma SafeAt(e: Entry, k: string)
    requires e.Entry? && SafeEntry(e) && k in FrontMatter.KEYS
    requires FrontMatter.Plain(Some(ClassName(e.cls))) && FrontMatter.Plain(Some(AuthorityName(e.authority)))
    ensures FrontMatter.Safe(FrontMatter.Get(MetaOf(e), k))
  {
    hide FrontMatter.Plain;
    KeysAre(k);
  }

  lemma PresentAt(e: Entry, k: string)
    requires e.Entry? && k in FrontMatter.REQUIRED && e.subject != "" && e.kind != "" && e.scope != "" && e.stated != ""
    requires ClassName(e.cls) != "" && AuthorityName(e.authority) != ""
    ensures FrontMatter.Present(MetaOf(e), k)
  {
    hide ClassName, AuthorityName;
    KeysAre(k);
  }

  lemma SafeIsComplete(e: Entry)
    requires e.Entry? && SafeEntry(e)
    ensures FrontMatter.Complete(MetaOf(e)) && FrontMatter.SafeMeta(MetaOf(e))
  {
    hide FrontMatter.Plain, MetaOf, ClassName, AuthorityName;
    NamesArePlain(e);
    MetaValues(e);
    SafeWords(e);
    forall k | k in FrontMatter.REQUIRED ensures FrontMatter.Present(MetaOf(e), k) { PresentAt(e, k); }
    forall k | k in FrontMatter.KEYS ensures FrontMatter.Safe(FrontMatter.Get(MetaOf(e), k)) { SafeAt(e, k); }
  }

  lemma SafeIsReadBack(e: Entry)
    requires e.Entry? && SafeEntry(e)
    ensures EntryAt(Print(e)) == Normal(e)
  {
    hide FrontMatter.Plain, FrontMatter.Parse, FrontMatter.Render, Strip;
    SafeIsComplete(e);
    FrontMatter.SafeParseRender(MetaOf(e), e.body);
    var (m, body) := FrontMatter.Parse(Print(e)).value;
    NamesArePlain(e);
    WordsComeBack(e, m, body);
  }

  lemma WordsComeBack(e: Entry, m: FrontMatter.Meta, body: string)
    requires e.Entry? && ClassName(e.cls) != "" && AuthorityName(e.authority) != ""
    requires ClassOf(ClassName(e.cls)) == e.cls && AuthorityOf(AuthorityName(e.authority)) == e.authority
    requires Strip(body) == Strip(e.body)
    requires forall k :: k in FrontMatter.KEYS ==> AsReadAt(m, MetaOf(e), k)
    ensures EntryOf(m, body) == Normal(e)
  {
    hide Strip, MetaOf, ClassName, AuthorityName, ClassOf, AuthorityOf;
    MetaValues(e);
    assert AsReadAt(m, MetaOf(e), "class") && AsReadAt(m, MetaOf(e), "subject") && AsReadAt(m, MetaOf(e), "type");
    assert AsReadAt(m, MetaOf(e), "scope") && AsReadAt(m, MetaOf(e), "authority") && AsReadAt(m, MetaOf(e), "stated");
    assert AsReadAt(m, MetaOf(e), "source") && AsReadAt(m, MetaOf(e), "recheck_after")
           && AsReadAt(m, MetaOf(e), "supersedes");
    assert AsReadAt(m, MetaOf(e), "superseded_by") && AsReadAt(m, MetaOf(e), "retired_at")
           && AsReadAt(m, MetaOf(e), "retired_reason");
  }

  lemma MetaValues(e: Entry)
    requires e.Entry?
    ensures var m := MetaOf(e);
            && FrontMatter.Get(m, "class") == Some(ClassName(e.cls)) && FrontMatter.Get(m, "subject") == Some(e.subject)
            && FrontMatter.Get(m, "type") == Some(e.kind) && FrontMatter.Get(m, "scope") == Some(e.scope)
            && FrontMatter.Get(m, "authority") == Some(AuthorityName(e.authority))
               && FrontMatter.Get(m, "stated") == Some(e.stated)
            && FrontMatter.Get(m, "source") == e.source && FrontMatter.Get(m, "recheck_after") == e.recheckAfter
            && FrontMatter.Get(m, "supersedes") == e.supersedes && FrontMatter.Get(m, "superseded_by") == e.supersededBy
            && FrontMatter.Get(m, "retired_at") == e.retiredAt
               && FrontMatter.Get(m, "retired_reason") == e.retiredReason
  {
    hide ClassName, AuthorityName;
  }

  predicate AsReadAt(m: FrontMatter.Meta, n: FrontMatter.Meta, k: string) {
    FrontMatter.Get(m, k) == FrontMatter.AsRead(FrontMatter.Get(n, k))
  }

  lemma ParsedIsPlain(text: string, k: string)
    requires FrontMatter.Parse(text).Ok?
    ensures FrontMatter.Plain(FrontMatter.Get(FrontMatter.Parse(text).value.0, k))
  {
    FrontMatter.ParsedValuesArePlain(text);
  }

  /** Whatever is read can be written again, and is as reading leaves it. */
  lemma ReadIsNormal(text: string)
    requires EntryAt(text).Entry?
    ensures SafeEntry(EntryAt(text)) && Normal(EntryAt(text)) == EntryAt(text)
  {
    var (m, body) := FrontMatter.Parse(text).value;
    StripTrims(body);
    StripTrims(Strip(body));
    ParsedWords(text, m, "subject");
    ParsedWords(text, m, "type");
    ParsedWords(text, m, "scope");
    ParsedWords(text, m, "stated");
    ParsedIsPlain(text, "source");
    ParsedIsPlain(text, "recheck_after");
    ParsedIsPlain(text, "supersedes");
    ParsedIsPlain(text, "superseded_by");
    ParsedIsPlain(text, "retired_at");
    ParsedIsPlain(text, "retired_reason");
  }

  lemma ParsedWords(text: string, m: FrontMatter.Meta, k: string)
    requires FrontMatter.Parse(text).Ok? && m == FrontMatter.Parse(text).value.0
    requires k == "subject" || k == "type" || k == "scope" || k == "stated"
    ensures FrontMatter.Plain(Some(Word(m, k)))
  {
    KeysAre(k);
    ParsedIsPlain(text, k);
  }

  /** The store reads back what it wrote if and only if every value is safe. */
  lemma ReadBackExactly(e: Entry)
    requires e.Entry?
    ensures EntryAt(Print(e)) == Normal(e) <==> SafeEntry(e)
  {
    if SafeEntry(e) { SafeIsReadBack(e); }
    if EntryAt(Print(e)) == Normal(e) {
      ReadIsNormal(Print(e));
    }
  }

  // ---------------------------------------------------------------- the store on disk

  /** The entries of all files. */
  function View(d: Disk): Files {
    map p | p in d :: EntryAt(d[p])
  }

  /** What a change writes: the entry as given, and the changed entry as it was read. */
  function Put(d: Disk, c: Change): Disk
    requires Can(View(d), c)
  {
    match c
    case AddNew(p, e) => d[p := Print(e)]
    case Successor(o, p, e) => d[o := Print(EntryAt(d[o]).(supersededBy := Some(p.slug)))][p := Print(e)]
    case Retire(o, at, reason, body) =>
      d[o := Print(EntryAt(d[o]).(retiredAt := Some(at), retiredReason := reason, body := body))]
  }

  /** The change as it can be read afterwards. */
  function Settled(c: Change): Change {
    match c
    case AddNew(p, e) => if e.Entry? then AddNew(p, Normal(e)) else c
    case Successor(o, p, e) => if e.Entry? then Successor(o, p, Normal(e)) else c
    case Retire(o, at, reason, body) => Retire(o, at, FrontMatter.AsRead(reason), Strip(body))
  }

  /** The values that the change writes survive. */
  predicate SafeChange(c: Change) {
    match c
    case AddNew(p, e) => e.Entry? && SafeEntry(e)
    case Successor(o, p, e) => e.Entry? && SafeEntry(e) && FrontMatter.Plain(Some(p.slug)) && o.slug != ""
    case Retire(o, at, reason, body) => FrontMatter.Plain(Some(at)) && FrontMatter.Safe(reason)
  }

  /** The entry that a change rewrites, as it is printed. */
  function Rewritten(d: Disk, c: Change): Entry
    requires Can(View(d), c) && !c.AddNew?
  {
    match c
    case Successor(o, p, _) => EntryAt(d[o]).(supersededBy := Some(p.slug))
    case Retire(o, at, reason, body) => EntryAt(d[o]).(retiredAt := Some(at), retiredReason := reason, body := body)
  }

  lemma RewrittenReadsBack(d: Disk, c: Change)
    requires Can(View(d), c) && !c.AddNew?
    ensures var e := Rewritten(d, c);
            SafeEntry(e) <==> if c.Successor? then FrontMatter.Safe(Some(c.path.slug))
                              else FrontMatter.Safe(Some(c.at)) && FrontMatter.Safe(c.reason)
    ensures EntryAt(Print(Rewritten(d, c))) == Normal(Rewritten(d, c)) <==> SafeEntry(Rewritten(d, c))
  {
    hide EntryAt, Print;
    ReadIsNormal(d[c.prior]);
    ReadBackExactly(Rewritten(d, c));
  }

  lemma RewrittenNormal(d: Disk, c: Change)
    requires Can(View(d), c) && !c.AddNew?
    ensures var e, n := Rewritten(d, c), Normal(Rewritten(d, c));
            if c.Successor? then n == EntryAt(d[c.prior]).(supersededBy := FrontMatter.AsRead(Some(c.path.slug)))
            else n == EntryAt(d[c.prior]).(retiredAt := FrontMatter.AsRead(Some(c.at)),
                                           retiredReason := FrontMatter.AsRead(c.reason),
                                           body := Strip(c.body))
  {
    hide EntryAt, Print;
    ReadIsNormal(d[c.prior]);
  }

  lemma AddReadsBack(d: Disk, c: Change)
    requires Can(View(d), c) && c.AddNew?
    ensures Can(View(d), Settled(c)) && (View(Put(d, c)) == Changed(View(d), Settled(c)) <==> SafeChange(c))
  {
    hide EntryAt, Print;
    ReadBackExactly(c.entry);
    var g, h := View(Put(d, c)), Changed(View(d), Settled(c));
    assert g[c.path] == EntryAt(Print(c.entry)) && h[c.path] == Normal(c.entry);
    assert forall p :: p in g <==> p in h;
    if SafeEntry(c.entry) { assert g == h; }
  }

  lemma RetireReadsBack(d: Disk, c: Change)
    requires Can(View(d), c) && c.Retire?
    ensures Can(View(d), Settled(c)) && (View(Put(d, c)) == Changed(View(d), Settled(c)) <==> SafeChange(c))
  {
    hide EntryAt, Print;
    RewrittenReadsBack(d, c);
    RewrittenNormal(d, c);
    var g, h := View(Put(d, c)), Changed(View(d), Settled(c));
    assert g[c.prior] == EntryAt(Print(Rewritten(d, c)));
    assert forall p :: p in g <==> p in h;
    if SafeChange(c) { assert g == h; }
    if g == h {
      ReadIsNormal(Print(Rewritten(d, c)));
    }
  }

  lemma SuccessorReadsBack(d: Disk, c: Change)
    requires Can(View(d), c) && c.Successor?
    ensures Can(View(d), Settled(c)) && View(Put(d, c)) == Changed(View(d), Settled(c)) <==> SafeChange(c)
  {
    hide EntryAt, Print;
    RewrittenReadsBack(d, c);
    RewrittenNormal(d, c);
    ReadBackExactly(c.entry);
    var g := View(Put(d, c));
    assert g[c.prior] == EntryAt(Print(Rewritten(d, c))) && g[c.path] == EntryAt(Print(c.entry));
    if Can(View(d), Settled(c)) {
      var h := Changed(View(d), Settled(c));
      assert h[c.path] == Normal(c.entry) && h[c.prior].supersededBy == Some(c.path.slug);
      assert forall p :: p in g <==> p in h;
      if SafeChange(c) { assert g == h; }
      if g == h {
        ReadIsNormal(Print(Rewritten(d, c)));
        assert FrontMatter.Plain(Some(c.path.slug));
      }
    }
  }

  /** The files read after a change are the changed files if and only if the values written are safe. */
  lemma PutReadsBackExactly(d: Disk, c: Change)
    requires Can(View(d), c)
    ensures Can(View(d), Settled(c)) && View(Put(d, c)) == Changed(View(d), Settled(c)) <==> SafeChange(c)
  {
    match c
    case AddNew(_, _) => AddReadsBack(d, c);
    case Successor(_, _, _) => SuccessorReadsBack(d, c);
    case Retire(_, _, _, _) => RetireReadsBack(d, c);
  }

  // ---------------------------------------------------------------- the ledger

  /** `Ledger.status` */
  function Status(rows: Rows, slug: Slug, text: string): Standing {
    if rows == map[] then Bootstrap
    else if slug !in rows then Unrecorded
    else if rows[slug] == text then Recorded else Modified
  }

  predicate Verified(d: Disk, rows: Rows) {
    forall p :: p in d ==> Status(rows, p.slug, d[p]) == Recorded
  }

  /** The rows after a change was written: the daemon records every file it writes. */
  function RowsAfter(d: Disk, rows: Rows, c: Change): Rows
    requires Can(View(d), c)
  {
    var t := Put(d, c);
    match c
    case AddNew(p, _) => rows[p.slug := t[p]]
    case Successor(o, p, _) => rows[o.slug := t[o]][p.slug := t[p]]
    case Retire(o, _, _, _) => rows[o.slug := t[o]]
  }

  lemma ChangeKeepsVerified(d: Disk, rows: Rows, c: Change)
    requires Verified(d, rows) && Unique(View(d)) && Can(View(d), c) && NewSlug(View(d), c)
    ensures Verified(Put(d, c), RowsAfter(d, rows, c))
  {
    hide EntryAt, Print;
    var g, after := Put(d, c), RowsAfter(d, rows, c);
    forall p | p in g ensures Status(after, p.slug, g[p]) == Recorded {
      if c.Retire? {
        assert p in View(d) && Status(rows, p.slug, d[p]) == Recorded;
        assert p != c.prior ==> p.slug != c.prior.slug && after[p.slug] == rows[p.slug];
      } else if p != c.path {
        assert p in View(d) && p.slug in Slugs(View(d)) && Status(rows, p.slug, d[p]) == Recorded;
        assert p.slug != c.path.slug;
      } else {
        assert after[p.slug] == g[p];
      }
    }
  }

  // ---------------------------------------------------------------- runs

  predicate Legal(d: Disk, cs: seq<Change>)
    decreases |cs|
  {
    cs == [] || (Can(View(d), cs[0]) && Legal(Put(d, cs[0]), cs[1..]))
  }

  function Run(d: Disk, cs: seq<Change>): Disk
    requires Legal(d, cs)
    decreases |cs|
  {
    if cs == [] then d else Run(Put(d, cs[0]), cs[1..])
  }

  function RunRows(d: Disk, rows: Rows, cs: seq<Change>): Rows
    requires Legal(d, cs)
    decreases |cs|
  {
    if cs == [] then rows else RunRows(Put(d, cs[0]), RowsAfter(d, rows, cs[0]), cs[1..])
  }

  /** Every slug is new, and every value survives. */
  predicate Careful(d: Disk, cs: seq<Change>)
    requires Legal(d, cs)
    decreases |cs|
  {
    cs == [] || (NewSlug(View(d), cs[0]) && SafeChange(cs[0]) && Careful(Put(d, cs[0]), cs[1..]))
  }

  lemma PutKeepsSound(d: Disk, age: map<Slug, nat>, now: nat, c: Change)
    requires Sound(View(d), age, now) && Can(View(d), c) && NewSlug(View(d), c) && SafeChange(c)
    ensures Sound(View(Put(d, c)), Aged(age, c, now), now + 1)
  {
    hide EntryAt, Print;
    PutReadsBackExactly(d, c);
    ChangeKeepsSound(View(d), age, Settled(c), now);
  }

  lemma {:induction false} RunKeepsVerified(d: Disk, age: map<Slug, nat>, now: nat, rows: Rows, cs: seq<Change>)
    returns (after: map<Slug, nat>)
    requires Sound(View(d), age, now) && Verified(d, rows) && Legal(d, cs) && Careful(d, cs)
    ensures Sound(View(Run(d, cs)), after, now + |cs|) && Verified(Run(d, cs), RunRows(d, rows, cs))
    decreases |cs|
  {
    hide EntryAt, Print;
    after := age;
    if cs != [] {
      ChangeKeepsVerified(d, rows, cs[0]);
      PutKeepsSound(d, age, now, cs[0]);
      after := RunKeepsVerified(Put(d, cs[0]), Aged(age, cs[0], now), now + 1, RowsAfter(d, rows, cs[0]), cs[1..]);
    }
  }

  /** The whole promise, for every run of careful writes from an empty store, through printer and
      parser: every file can be read and says its class, links answer each other, every entry resolves
      without an error, only heads are retired, every ground truth is the owner's, and every file is as
      the daemon recorded it. */
  lemma StorePromises(cs: seq<Change>)
    requires Legal(map[], cs) && Careful(map[], cs)
    ensures var files := View(Run(map[], cs));
            && Readable(files) && Unique(files) && Linked(files) && OnlyHeadsRetired(files) && TruthIsOwned(files)
            && (forall p :: p in files ==> Resolved(files, p).Ok?)
            && Verified(Run(map[], cs), RunRows(map[], map[], cs))
  {
    hide EntryAt, Print;
    var none: Disk := map[];
    assert View(none) == map[];
    var age := RunKeepsVerified(map[], map[], 0, map[], cs);
    var files := View(Run(map[], cs));
    forall p | p in files ensures Resolved(files, p).Ok? {
      ResolveNeverFails(files, age, |cs|, p);
    }
  }

  // ---------------------------------------------------------------- what an unsafe value does

  /** Every value stays on its line, as far as it is read. */
  predicate OnLines(e: Entry)
    requires e.Entry?
  {
    FrontMatter.OnLines(MetaOf(e), FrontMatter.KEYS)
  }

  /** The words that a value is read as are none. */
  predicate Blank(s: string) {
    FrontMatter.ReadValue(Strip(s)).None?
  }

  /** The required values are there, and nothing above the last of them ends the front matter. */
  predicate Legible(e: Entry)
    requires e.Entry?
  {
    && FrontMatter.NoDashes(e.subject) && FrontMatter.NoDashes(e.kind) && FrontMatter.NoDashes(e.scope)
    && !Blank(e.subject) && !Blank(e.kind) && !Blank(e.scope) && !Blank(FrontMatter.Cut(e.stated))
  }

  /** Nothing between the required values and the links ends the front matter. */
  predicate Above(e: Entry)
    requires e.Entry?
  {
    !FrontMatter.Dashed(Some(e.stated)) && !FrontMatter.Dashed(e.source) && !FrontMatter.Dashed(e.recheckAfter)
  }

  lemma KeysInOrder()
    ensures var ks := FrontMatter.KEYS;
            && |ks| == 12 && ks[..6] == FrontMatter.REQUIRED
            && ks[0] == "class" && ks[1] == "subject" && ks[2] == "type" && ks[3] == "scope" && ks[4] == "authority"
            && ks[5] == "stated" && ks[6] == "source" && ks[7] == "recheck_after" && ks[8] == "supersedes"
            && ks[9] == "superseded_by" && ks[10] == "retired_at" && ks[11] == "retired_reason"
  {}

  lemma KeysDiffer(i: nat, j: nat)
    requires j < i < |FrontMatter.KEYS|
    ensures FrontMatter.KEYS[j] != FrontMatter.KEYS[i]
  {
    var ks := FrontMatter.KEYS;
    KeysInOrder();
  }

  /** What the file keeps of the value at a place of the list. */
  lemma KeptOf(e: Entry, i: nat)
    requires e.Entry? && i < |FrontMatter.KEYS|
    ensures var m, ks := MetaOf(e), FrontMatter.KEYS;
            FrontMatter.Kept(m, ks, ks[i])
            == if !FrontMatter.Clear(m, ks, i) then None
               else FrontMatter.ReadValue(Strip(FrontMatter.Cut(FrontMatter.Shown(FrontMatter.Get(m, ks[i])))))
  {
    hide MetaOf;
    forall j | 0 <= j < i ensures FrontMatter.KEYS[j] != FrontMatter.KEYS[i] { KeysDiffer(i, j); }
    FrontMatter.KeptAt(MetaOf(e), FrontMatter.KEYS, i);
  }

  lemma ClearNext(m: FrontMatter.Meta, i: nat)
    requires i < |FrontMatter.KEYS|
    ensures FrontMatter.Clear(m, FrontMatter.KEYS, i + 1)
            <==> && FrontMatter.Clear(m, FrontMatter.KEYS, i)
                 && !FrontMatter.Dashed(FrontMatter.Get(m, FrontMatter.KEYS[i]))
  {}

  /** How far the front matter of a printed entry is clear of dashes. */
  lemma ClearOf(e: Entry)
    requires e.Entry?
    ensures var m, ks := MetaOf(e), FrontMatter.KEYS;
            && |ks| == 12 && FrontMatter.Clear(m, ks, 1)
            && (FrontMatter.Clear(m, ks, 2) <==> FrontMatter.NoDashes(e.subject))
            && (FrontMatter.Clear(m, ks, 3) <==> FrontMatter.Clear(m, ks, 2) && FrontMatter.NoDashes(e.kind))
            && (FrontMatter.Clear(m, ks, 4) <==> FrontMatter.Clear(m, ks, 3) && FrontMatter.NoDashes(e.scope))
            && (FrontMatter.Clear(m, ks, 5) <==> FrontMatter.Clear(m, ks, 4))
            && (FrontMatter.Clear(m, ks, 8) <==> FrontMatter.Clear(m, ks, 5) && Above(e))
            && (FrontMatter.Clear(m, ks, 9) <==> FrontMatter.Clear(m, ks, 8) && !FrontMatter.Dashed(e.supersedes))
            && (FrontMatter.Clear(m, ks, 10) <==> FrontMatter.Clear(m, ks, 9) && !FrontMatter.Dashed(e.supersededBy))
  {
    var m := MetaOf(e);
    KeysInOrder();
    MetaValues(e);
    NamesArePlain(e);
    assert FrontMatter.NoDashes(ClassName(e.cls)) && FrontMatter.NoDashes(AuthorityName(e.authority));
    hide MetaOf, ClassName, AuthorityName, FrontMatter.NoDashes, FrontMatter.Clear, FrontMatter.Get;
    assert FrontMatter.Clear(m, FrontMatter.KEYS, 0) by { ClearNone(m); }
    ClearNext(m, 0); ClearNext(m, 1); ClearNext(m, 2); ClearNext(m, 3); ClearNext(m, 4);
    ClearNext(m, 5); ClearNext(m, 6); ClearNext(m, 7); ClearNext(m, 8); ClearNext(m, 9);
  }

  lemma ClearNone(m: FrontMatter.Meta)
    ensures FrontMatter.Clear(m, FrontMatter.KEYS, 0)
  {}

  lemma NameIsKept(v: string)
    requires FrontMatter.Plain(Some(v))
    ensures FrontMatter.ReadValue(Strip(FrontMatter.Cut(v))) == Some(v)
  {
    FrontMatter.CutExactly(v);
    StripTrims(v);
  }

  lemma CutWhole(v: string)
    requires FrontMatter.NoDashes(v)
    ensures FrontMatter.Cut(v) == v
  {
    FrontMatter.CutExactly(v);
  }

  lemma KeptWord(e: Entry, i: nat, v: string)
    requires e.Entry? && i < |FrontMatter.KEYS| && FrontMatter.Get(MetaOf(e), FrontMatter.KEYS[i]) == Some(v)
    ensures var m, ks := MetaOf(e), FrontMatter.KEYS;
            FrontMatter.Kept(m, ks, ks[i])
            == if FrontMatter.Clear(m, ks, i) then FrontMatter.ReadValue(Strip(FrontMatter.Cut(v))) else None
  {
    hide MetaOf;
    KeptOf(e, i);
  }

  /** A word of the entry is kept if the front matter is clear above it and the word is not cut. */
  lemma WordIsKept(e: Entry, i: nat, v: string)
    requires e.Entry? && i < |FrontMatter.KEYS| && FrontMatter.Get(MetaOf(e), FrontMatter.KEYS[i]) == Some(v)
    ensures var m, ks := MetaOf(e), FrontMatter.KEYS;
            && (FrontMatter.NoDashes(v) ==>
                  (FrontMatter.Kept(m, ks, ks[i]).Some? <==> FrontMatter.Clear(m, ks, i) && !Blank(v)))
            && (FrontMatter.Plain(Some(v)) && FrontMatter.Clear(m, ks, i) ==> FrontMatter.Kept(m, ks, ks[i]) == Some(v))
  {
    KeptWord(e, i, v);
    hide MetaOf, FrontMatter.Kept, FrontMatter.Clear;
    if FrontMatter.NoDashes(v) { CutWhole(v); }
    if FrontMatter.Plain(Some(v)) { NameIsKept(v); }
  }

  /** The required values that the file keeps. */
  lemma RequiredKept(e: Entry)
    requires e.Entry?
    ensures var m, ks := MetaOf(e), FrontMatter.KEYS;
            && FrontMatter.Kept(m, ks, "class") == Some(ClassName(e.cls))
            && (Legible(e) ==> FrontMatter.Kept(m, ks, "authority") == Some(AuthorityName(e.authority)))
            && (Legible(e) <==> FrontMatter.Kept(m, ks, "subject").Some? && FrontMatter.Kept(m, ks, "type").Some?
                                && FrontMatter.Kept(m, ks, "scope").Some? && FrontMatter.Kept(m, ks, "stated").Some?)
  {
    hide MetaOf, ClassName, AuthorityName, FrontMatter.NoDashes, FrontMatter.Get, FrontMatter.Kept,
      FrontMatter.Cut, FrontMatter.Plain, Strip, FrontMatter.ReadValue;
    KeysInOrder();
    MetaValues(e);
    ClearOf(e);
    NamesArePlain(e);
    hide FrontMatter.Clear;
    assert FrontMatter.Clear(MetaOf(e), FrontMatter.KEYS, 0) by { ClearNone(MetaOf(e)); }
    WordIsKept(e, 0, ClassName(e.cls));
    WordIsKept(e, 1, e.subject);
    WordIsKept(e, 2, e.kind);
    WordIsKept(e, 3, e.scope);
    WordIsKept(e, 4, AuthorityName(e.authority));
    KeptWord(e, 5, e.stated);
  }

  /** And the links and the retirement, when they are plain. */
  lemma LinksKept(e: Entry)
    requires e.Entry? && Legible(e) && FrontMatter.Plain(e.supersedes) && FrontMatter.Plain(e.supersededBy)
             && FrontMatter.Plain(e.retiredAt)
    ensures var m, ks := MetaOf(e), FrontMatter.KEYS;
            && FrontMatter.Kept(m, ks, "supersedes") == (if Above(e) then e.supersedes else None)
            && FrontMatter.Kept(m, ks, "superseded_by") == (if Above(e) then e.supersededBy else None)
            && FrontMatter.Kept(m, ks, "retired_at") == (if Above(e) then e.retiredAt else None)
  {
    KeysInOrder();
    MetaValues(e);
    ClearOf(e);
    LinkIsKept(e.supersedes);
    LinkIsKept(e.supersededBy);
    LinkIsKept(e.retiredAt);
    KeptOf(e, 8); KeptOf(e, 9); KeptOf(e, 10);
    hide MetaOf, FrontMatter.NoDashes, FrontMatter.Clear, FrontMatter.Get, FrontMatter.Kept, FrontMatter.Shown,
      FrontMatter.Cut, FrontMatter.Plain, Strip, FrontMatter.ReadValue, FrontMatter.Dashed;
  }

  lemma LinkIsKept(v: Option<string>)
    requires FrontMatter.Plain(v)
    ensures FrontMatter.ReadValue(Strip(FrontMatter.Cut(FrontMatter.Shown(v)))) == v && !FrontMatter.Dashed(v)
  {
    FrontMatter.SafeFits(v);
    FrontMatter.CutExactly(FrontMatter.Shown(v));
  }

  /** What reading a printed file gives, if it passes the checks. */
  function Read(m: FrontMatter.Meta, body: string): Entry {
    match FrontMatter.Checked(m, body)
    case Err(why) => Broken(why)
    case Ok((n, rest)) => EntryOf(n, rest)
  }

  lemma ReadsKept(e: Entry) returns (m: FrontMatter.Meta, rest: string)
    requires e.Entry? && OnLines(e)
    ensures EntryAt(Print(e)) == Read(m, rest)
    ensures forall k :: FrontMatter.Get(m, k) == FrontMatter.Kept(MetaOf(e), FrontMatter.KEYS, k)
  {
    hide MetaOf, FrontMatter.Kept, FrontMatter.Parse, FrontMatter.Render, FrontMatter.Checked, EntryOf, OnLines;
    assert FrontMatter.OnLines(MetaOf(e), FrontMatter.KEYS) by { LinesOf(e); }
    m, rest := FrontMatter.KeptExactly(MetaOf(e), e.body);
  }

  lemma LinesOf(e: Entry)
    requires e.Entry? && OnLines(e)
    ensures FrontMatter.OnLines(MetaOf(e), FrontMatter.KEYS)
  {}

  /** Exactly when a file that was printed cannot be read: a required value is missing once the front
      matter ends at the first three dashes. */
  lemma UnreadableExactly(e: Entry)
    requires e.Entry? && OnLines(e)
    ensures EntryAt(Print(e)) == Broken(FrontMatter.MissingKey) <==> !Legible(e)
    ensures EntryAt(Print(e)).Broken? <==> !Legible(e)
  {
    hide MetaOf, FrontMatter.Kept, FrontMatter.Checked, EntryAt, Print, ClassName, AuthorityName, Legible, OnLines;
    var m, rest := ReadsKept(e);
    RequiredKept(e);
    NamesArePlain(e);
    forall k ensures FrontMatter.Get(m, k).Some? ==> FrontMatter.Get(m, k).value != "" {
      FrontMatter.KeptIsWord(MetaOf(e), FrontMatter.KEYS, k);
    }
    CheckedExactly(m, rest);
  }

  /** What the checks ask for. */
  lemma CheckedExactly(m: FrontMatter.Meta, rest: string)
    requires forall k :: FrontMatter.Get(m, k).Some? ==> FrontMatter.Get(m, k).value != ""
    requires FrontMatter.Get(m, "class").Some? && FrontMatter.Get(m, "class").value in FrontMatter.CLASSES
    requires FrontMatter.Get(m, "subject").Some? && FrontMatter.Get(m, "type").Some?
             && FrontMatter.Get(m, "scope").Some?
             && FrontMatter.Get(m, "stated").Some? ==>
               FrontMatter.Get(m, "authority").Some? && FrontMatter.Get(m, "authority").value in FrontMatter.AUTHORITIES
    ensures FrontMatter.Checked(m, rest)
            == if FrontMatter.Get(m, "subject").Some? && FrontMatter.Get(m, "type").Some?
              && FrontMatter.Get(m, "scope").Some?
                  && FrontMatter.Get(m, "stated").Some?
               then Ok((m, rest)) else Err(FrontMatter.MissingKey)
  {
    KeysAre("class"); KeysAre("subject"); KeysAre("type"); KeysAre("scope"); KeysAre("authority"); KeysAre("stated");
    forall k | k in FrontMatter.REQUIRED ensures FrontMatter.Present(m, k) <==> FrontMatter.Get(m, k).Some? {
      KeysAre(k);
    }
    if FrontMatter.Get(m, "subject").None? { assert !FrontMatter.Present(m, "subject"); }
    if FrontMatter.Get(m, "type").None? { assert !FrontMatter.Present(m, "type"); }
    if FrontMatter.Get(m, "scope").None? { assert !FrontMatter.Present(m, "scope"); }
    if FrontMatter.Get(m, "stated").None? { assert !FrontMatter.Present(m, "stated"); }
    forall k | k in FrontMatter.REQUIRED && FrontMatter.Get(m, "subject").Some? && FrontMatter.Get(m, "type").Some?
               && FrontMatter.Get(m, "scope").Some? && FrontMatter.Get(m, "stated").Some?
      ensures FrontMatter.Present(m, k)
    {
      KeysAre(k);
    }
  }

  /** Exactly when a file that can be read keeps the links and the retirement that were printed: nothing
      between them and the required values has three dashes in it. */
  lemma LinksLostExactly(e: Entry)
    requires e.Entry? && OnLines(e) && Legible(e)
    requires FrontMatter.Plain(e.supersedes) && FrontMatter.Plain(e.supersededBy) && FrontMatter.Plain(e.retiredAt)
    ensures var r := EntryAt(Print(e));
            && r.Entry?
            && (r.supersedes == e.supersedes <==> Above(e) || e.supersedes.None?)
            && (r.supersededBy == e.supersededBy <==> Above(e) || e.supersededBy.None?)
            && (r.retiredAt == e.retiredAt <==> Above(e) || e.retiredAt.None?)
            && (r.supersedes == e.supersedes || r.supersedes.None?)
               && (r.supersededBy == e.supersededBy || r.supersededBy.None?)
            && (r.retiredAt == e.retiredAt || r.retiredAt.None?)
  {
    hide MetaOf, FrontMatter.Kept, FrontMatter.Plain, EntryAt, Print, Above, Legible, OnLines, Strip;
    UnreadableExactly(e);
    LinksKept(e);
    var m, rest := ReadsKept(e);
  }

  lemma WordsFit(e: Entry, k: string)
    requires e.Entry? && k in FrontMatter.REQUIRED
    requires FrontMatter.Plain(Some(e.subject)) && FrontMatter.Plain(Some(e.kind)) && FrontMatter.Plain(Some(e.scope))
             && FrontMatter.Plain(Some(e.stated))
    ensures FrontMatter.Fits(FrontMatter.Get(MetaOf(e), k))
  {
    hide MetaOf, ClassName, AuthorityName, FrontMatter.Plain, FrontMatter.Get;
    KeysAre(k);
    MetaValues(e);
    NamesArePlain(e);
    FrontMatter.SafeFits(FrontMatter.Get(MetaOf(e), k));
  }

  /** Three dashes in the source: the file is read, without the links and the retirement below it. */
  lemma DashesLoseLinks(e: Entry)
    requires e.Entry? && FrontMatter.Dashed(e.source) && Unbroken(FrontMatter.Cut(FrontMatter.Shown(e.source)))
    requires FrontMatter.Plain(Some(e.subject)) && FrontMatter.Plain(Some(e.kind)) && FrontMatter.Plain(Some(e.scope))
             && FrontMatter.Plain(Some(e.stated))
    requires FrontMatter.Plain(e.supersedes) && FrontMatter.Plain(e.supersededBy) && FrontMatter.Plain(e.retiredAt)
    ensures var r := EntryAt(Print(e));
            r.Entry? && r.supersedes == None && r.supersededBy == None && r.retiredAt == None
  {
    hide MetaOf, FrontMatter.Plain, FrontMatter.Dashed, FrontMatter.Shown, FrontMatter.Cut, FrontMatter.Get,
         FrontMatter.Fits,
      FrontMatter.OnLines, Legible, EntryAt, Print;
    KeysInOrder();
    MetaValues(e);
    PlainIsLegible(e);
    forall k | k in FrontMatter.KEYS[..6] ensures FrontMatter.Fits(FrontMatter.Get(MetaOf(e), k)) { WordsFit(e, k); }
    FrontMatter.OnLinesUpTo(MetaOf(e), FrontMatter.KEYS, 6);
    LinksLostExactly(e);
  }

  lemma PlainIsLegible(e: Entry)
    requires e.Entry? && FrontMatter.Plain(Some(e.subject)) && FrontMatter.Plain(Some(e.kind))
             && FrontMatter.Plain(Some(e.scope))
             && FrontMatter.Plain(Some(e.stated))
    ensures Legible(e)
  {
    NameIsKept(e.subject); NameIsKept(e.kind); NameIsKept(e.scope); NameIsKept(e.stated);
    CutWhole(e.subject); CutWhole(e.kind); CutWhole(e.scope);
  }

  /** Three dashes in the subject: the file cannot be read any more. */
  lemma DashesBreakEntry(e: Entry)
    requires e.Entry? && FrontMatter.Dashed(Some(e.subject)) && Unbroken(FrontMatter.Cut(e.subject))
    ensures EntryAt(Print(e)) == Broken(FrontMatter.MissingKey)
  {
    KeysInOrder();
    MetaValues(e);
    NamesArePlain(e);
    FrontMatter.SafeFits(Some(ClassName(e.cls)));
    hide MetaOf, ClassName, FrontMatter.Plain, FrontMatter.Cut, FrontMatter.Get;
    assert FrontMatter.KEYS[..1] == ["class"];
    FrontMatter.OnLinesUpTo(MetaOf(e), FrontMatter.KEYS, 1);
    UnreadableExactly(e);
  }

  // ---------------------------------------------------------------- finding an entry

  function FileName(slug: Slug): string {
    slug + ".md"
  }

  /** The files of a class that are about the subject, by name. */
  function About(files: Files, cls: Class, q: string): set<string> {
    set p | p in files && p.cls == cls && files[p].Entry? && files[p].subject == q :: FileName(p.slug)
  }

  function FirstAbout(files: Files, cls: Class, q: string): (p: Option<Path>)
    ensures p.Some? ==> p.value in files && files[p.value].Entry? && files[p.value].subject == q && p.value.cls == cls
    ensures p.None? <==> forall r :: r in files && r.cls == cls && files[r].Entry? ==> files[r].subject != q
    ensures p.Some? ==> forall r :: r in files && r.cls == cls && files[r].Entry? && files[r].subject == q ==>
                          r == p.value || Order.Less(FileName(p.value.slug), FileName(r.slug))
  {
    var names := About(files, cls, q);
    if names == {} then
      assert forall r :: r in files && r.cls == cls && files[r].Entry? && files[r].subject == q ==>
               FileName(r.slug) in names;
      None
    else
      var n := Order.FirstName(names);
      assert forall r :: r in files && r.cls == cls && files[r].Entry? && files[r].subject == q ==>
               FileName(r.slug) in names;
      assert forall r: Path :: FileName(r.slug)[..|FileName(r.slug)| - 3] == r.slug;
      Some(Path(cls, n[..|n| - 3]))
  }

  /** `find`: the first file with that slug, else the first about that subject, class by class and by
      file name within a class. */
  function Located(files: Files, q: string): (p: Option<Path>)
    ensures p.Some? ==> p.value in files
    ensures p.None? <==> (forall r :: r in files ==> r.slug != q && (files[r].Entry? ==> files[r].subject != q))
  {
    LookupFinds(files, q);
    if Lookup(files, q).Some? then Lookup(files, q)
    else if FirstAbout(files, GroundTruth, q).Some? then FirstAbout(files, GroundTruth, q)
    else if FirstAbout(files, Fact, q).Some? then FirstAbout(files, Fact, q)
    else if FirstAbout(files, Provisional, q).Some? then FirstAbout(files, Provisional, q)
    else
      FirstAbout(files, History, q)
  }

  /** `resolve` */
  function Answer(files: Files, q: string): Result<Option<Path>, Error> {
    var p := Located(files, q);
    if p.None? then Ok(None) else Resolved(files, p.value)
  }

  /** Exactly when resolving a name fails after a careful change of a sound store. */
  lemma AnswerFailsExactly(d: Disk, age: map<Slug, nat>, now: nat, c: Change, q: string)
    requires Sound(View(d), age, now) && Can(View(d), c) && SafeChange(c)
    ensures Can(View(d), Settled(c))
    ensures var g := View(Put(d, c));
            && g == Changed(View(d), Settled(c))
            && (Answer(g, q).Err? <==>
                  Located(g, q).Some? && Breaks(View(d), age, now, Settled(c), Located(g, q).value))
  {
    hide EntryAt, Print;
    PutReadsBackExactly(d, c);
    var g := View(Put(d, c));
    var p := Located(g, q);
    if p.Some? { ChangeBreaksExactly(View(d), age, now, Settled(c), p.value); }
  }

  // ---------------------------------------------------------------- the store

  /** The entry `add` writes for what the caller gave. */
  function Completed(cls: Class, subject: string, kind: string, scope: string, authority: Authority, stated: string,
                     source: string, recheckAfter: Option<string>, supersedes: Option<Slug>, body: string): Entry
  {
    Entry(cls, subject, kind, scope, authority, stated, Some(source),
          if recheckAfter.Some? then recheckAfter else if cls == Provisional then Some("7d") else None,
          supersedes, None, None, None, body)
  }

  /** The change adds an entry in the class and on the subject of `o`, as its successor. */
  predicate Continues(files: Files, o: Path, c: Change, body: string) {
    && o in files && files[o].Entry? && !c.Retire? && c.path.cls == o.cls
    && c.entry.Entry? && c.entry.subject == files[o].subject && c.entry.body == body
    && (o.slug != "" ==> c.Successor? && c.prior == o)
  }

  class Store {
    const scope: string
    var disk: Disk
    var rows: Rows
    ghost var age: map<Slug, nat>
    ghost var writes: nat

    function Entries(): Files
      reads this
    {
      View(disk)
    }

    ghost predicate Good()
      reads this
    {
      Sound(Entries(), age, writes) && Verified(disk, rows)
    }

    constructor (scope: string)
      ensures disk == map[] && rows == map[] && this.scope == scope && Good()
    {
      this.scope := scope;
      disk, rows, age, writes := map[], map[], map[], 0;
      new;
      assert Entries() == map[];
    }

    method Find(q: string) returns (p: Option<Path>)
      ensures p == Located(Entries(), q)
    {
      var files := Entries();
      p := Lookup(files, q);
      if p.None? {
        p := FirstAbout(files, GroundTruth, q);
      }
      if p.None? {
        p := FirstAbout(files, Fact, q);
      }
      if p.None? {
        p := FirstAbout(files, Provisional, q);
      }
      if p.None? {
        p := FirstAbout(files, History, q);
      }
    }

    method ResolveFrom(start: Path) returns (r: Result<Option<Path>, Error>)
      requires start in disk
      ensures r == Resolved(Entries(), start)
    {
      ghost var files := Entries();
      var p := start;
      var visited: set<Slug> := {};
      while true
        invariant p in disk
        invariant End(files, p, visited) == End(files, start, {})
        decreases |Slugs(files) - visited|
      {
        EndIsInside(files, p, visited);
        if p.slug in visited {
          return Err(Cycle);
        }
        var entry := EntryAt(disk[p]);
        if entry.Broken? {
          return Err(Unreadable(entry.error));
        }
        if entry.supersededBy.None? {
          return Ok(if IsRetired(entry) then None else Some(p));
        }
        var q := Lookup(Entries(), entry.supersededBy.value);
        LookupFinds(files, entry.supersededBy.value);
        if q.None? {
          return Err(MissingTarget);
        }
        assert p.slug in Slugs(files) - visited;
        ProperSubsetIsSmaller(Slugs(files) - (visited + {p.slug}), Slugs(files) - visited);
        visited := visited + {p.slug};
        p := q.value;
      }
    }

    /** `resolve`: the unretired head of the chain of the entry found, or why there is none. */
    method Resolve(q: string) returns (r: Result<Option<Path>, Error>)
      ensures r == Answer(Entries(), q)
      ensures r.Ok? && r.value.Some? ==> IsHead(Entries(), r.value.value)
      ensures r.Err? ==> r.error == Cycle || r.error == MissingTarget || r.error.Unreadable?
      ensures Good() ==> r.Ok?
    {
      var p := Find(q);
      if p.None? {
        return Ok(None);
      }
      EndIsInside(Entries(), p.value, {});
      if Sound(Entries(), age, writes) {
        ResolveNeverFails(Entries(), age, writes, p.value);
      }
      r := ResolveFrom(p.value);
    }

    /** The slug a new file takes: its own, or for a superseding one the first numbered variant
        that the class does not hold yet. */
    method FreshSlug(cls: Class, slug: Slug) returns (s: Slug)
      ensures Path(cls, s) !in disk
      ensures Path(cls, slug) !in disk ==> s == slug
      ensures Path(cls, slug) in disk ==>
                exists k :: k >= 2 && s == Decimal.Suffixed(slug, k)
                            && forall j :: 2 <= j < k ==> Path(cls, Decimal.Suffixed(slug, j)) in disk
    {
      if Path(cls, slug) !in disk {
        return slug;
      }
      var counter := 2;
      ghost var left := disk.Keys;
      while Path(cls, Decimal.Suffixed(slug, counter)) in disk
        invariant counter >= 2
        invariant forall j :: 2 <= j < counter ==> Path(cls, Decimal.Suffixed(slug, j)) in disk
        invariant left <= disk.Keys
        invariant forall j :: j >= counter && Path(cls, Decimal.Suffixed(slug, j)) in disk ==>
                    Path(cls, Decimal.Suffixed(slug, j)) in left
        decreases left
      {
        forall j | j > counter ensures Decimal.Suffixed(slug, j) != Decimal.Suffixed(slug, counter) {
          Decimal.SuffixedIsInjective(slug, j, counter);
        }
        left := left - {Path(cls, Decimal.Suffixed(slug, counter))};
        counter := counter + 1;
      }
      s := Decimal.Suffixed(slug, counter);
    }

    /** One change written to disk and recorded in the ledger. */
    ghost predicate Wrote(before: Disk, rowsBefore: Rows, c: Change)
      reads this
    {
      Can(View(before), c) && disk == Put(before, c) && rows == RowsAfter(before, rowsBefore, c)
    }

    ghost method Note(before: Disk, rowsBefore: Rows, c: Change)
      requires Wrote(before, rowsBefore, c)
      modifies this`age, this`writes
      ensures Sound(View(before), old(age), old(writes)) && Verified(before, rowsBefore) && NewSlug(View(before), c)
              && SafeChange(c)
              ==> Good()
    {
      hide EntryAt, Print, Put, RowsAfter, Verified, NewSlug, SafeChange, Aged, Can;
      if Sound(View(before), age, writes) && Verified(before, rowsBefore) && NewSlug(View(before), c) && SafeChange(c) {
        PutKeepsSound(before, age, writes, c);
        ChangeKeepsVerified(before, rowsBefore, c);
      }
      age, writes := Aged(age, c, writes), writes + 1;
    }

    method WriteNew(path: Path, entry: Entry)
      requires Can(Entries(), AddNew(path, entry))
      modifies this
      ensures Wrote(old(disk), old(rows), AddNew(path, entry))
      ensures old(Good()) && NewSlug(old(Entries()), AddNew(path, entry)) && SafeChange(AddNew(path, entry)) ==> Good()
    {
      hide EntryAt, Print;
      ghost var before, rowsBefore := disk, rows;
      disk := disk[path := Print(entry)];
      rows := rows[path.slug := disk[path]];
      Note(before, rowsBefore, AddNew(path, entry));
    }

    /** The superseded entry is rewritten with its successor first, then the new one is written. */
    method WriteSuperseding(o: Path, path: Path, entry: Entry)
      requires Can(Entries(), Successor(o, path, entry))
      modifies this
      ensures Wrote(old(disk), old(rows), Successor(o, path, entry))
      ensures var c := Successor(o, path, entry);
              old(Good()) && NewSlug(old(Entries()), c) && SafeChange(c) ==> Good()
    {
      hide EntryAt, Print;
      ghost var before, rowsBefore := disk, rows;
      var prior := EntryAt(disk[o]).(supersededBy := Some(path.slug));
      disk := disk[o := Print(prior)];
      rows := rows[o.slug := disk[o]];
      disk := disk[path := Print(entry)];
      rows := rows[path.slug := disk[path]];
      Note(before, rowsBefore, Successor(o, path, entry));
    }

    /** `add`: refused for an unknown type, for a ground truth that is not the owner's, for a taken slug,
        and for a superseded entry that does not resolve; otherwise exactly one change is written.  An
        empty `supersedes` is none. */
    method Add(cls: Class, slug: Slug, subject: string, kind: string, authority: Authority, stated: string,
               source: string, recheckAfter: Option<string>, supersedes: string, body: string)
      returns (r: Result<Slug, Error>, ghost c: Change)
      modifies this
      ensures r.Err? ==> disk == old(disk) && rows == old(rows)
      ensures r == Err(BadType) <==> kind !in TYPES
      ensures r == Err(NotOwner) <==> kind in TYPES && cls == GroundTruth && authority != Owner
      ensures r == Err(Exists) <==> kind in TYPES && !(cls == GroundTruth && authority != Owner)
                                    && Path(cls, slug) in old(disk) && supersedes == ""
      ensures r.Err? && supersedes == "" ==> r.error == BadType || r.error == NotOwner || r.error == Exists
      ensures r.Err? && supersedes != "" && r.error != NotOwner && r.error != BadType ==>
                Answer(old(Entries()), supersedes) == if r.error == NotFound then Ok(None) else Err(r.error)
      ensures r.Ok? ==> Wrote(old(disk), old(rows), c) && !c.Retire? && c.path == Path(cls, r.value)
      ensures r.Ok? && supersedes == "" ==> c.AddNew? && r.value == slug
      ensures r.Ok? && Path(cls, slug) !in old(disk) ==> r.value == slug
      ensures r.Ok? && supersedes != "" ==> c.Successor? && Answer(old(Entries()), supersedes) == Ok(Some(c.prior))
      ensures r.Ok? ==> c.entry == Completed(cls, subject, kind, scope, authority, stated, source, recheckAfter,
                                             if c.Successor? then Some(c.prior.slug) else None, body)
      ensures old(Good()) && (r.Ok? ==> NewSlug(old(Entries()), c) && SafeChange(c)) ==> Good()
    {
      hide EntryAt, Print, Put, RowsAfter, Verified, Sound, Answer, NewSlug, SafeChange;
      c := Retire(Path(cls, slug), "", None, "");
      if kind !in TYPES {
        return Err(BadType), c;
      }
      if cls == GroundTruth && authority != Owner {
        return Err(NotOwner), c;
      }
      if Path(cls, slug) in disk && supersedes == "" {
        return Err(Exists), c;
      }
      var s := FreshSlug(cls, slug);
      if supersedes == "" {
        var entry := Completed(cls, subject, kind, scope, authority, stated, source, recheckAfter, None, body);
        c := AddNew(Path(cls, s), entry);
        WriteNew(Path(cls, s), entry);
        return Ok(s), c;
      }
      var found := Resolve(supersedes);
      if found.Err? {
        return Err(found.error), c;
      }
      if found.value.None? {
        return Err(NotFound), c;
      }
      var o := found.value.value;
      var entry := Completed(cls, subject, kind, scope, authority, stated, source, recheckAfter, Some(o.slug), body);
      c := Successor(o, Path(cls, s), entry);
      WriteSuperseding(o, Path(cls, s), entry);
      r := Ok(s);
    }

    /** `supersede`: the end of the named chain gets a successor of its own class and subject. */
    method SupersedeEntry(q: string, slugOf: string -> Slug, authority: Option<Authority>, source: string,
                          recheckAfter: Option<string>, stated: string, body: string)
      returns (r: Result<Slug, Error>, ghost c: Change)
      modifies this
      ensures r.Err? ==> disk == old(disk) && rows == old(rows)
      ensures r.Ok? ==> Wrote(old(disk), old(rows), c) && !c.Retire?
      ensures r.Ok? ==> Answer(old(Entries()), q).Ok? && Answer(old(Entries()), q).value.Some?
      ensures r.Ok? && old(Good()) ==> Continues(old(Entries()), Answer(old(Entries()), q).value.value, c, body)
      ensures old(Good()) && (r.Ok? ==> NewSlug(old(Entries()), c) && SafeChange(c)) ==> Good()
    {
      hide EntryAt, Print, Put, RowsAfter, Verified, Located, Resolved, Can, SafeChange, NewSlug;
      c := Retire(Path(Fact, q), "", None, "");
      var found := Resolve(q);
      if found.Err? {
        return Err(found.error), c;
      }
      if found.value.None? {
        return Err(NotFound), c;
      }
      var o := found.value.value;
      var e := EntryAt(disk[o]);
      if Good() {
        HeadIsFound(Entries(), age, writes, o);
      }
      r, c := Add(e.cls, slugOf(e.subject), e.subject, e.kind,
                  if authority.Some? then authority.value else e.authority, stated,
                  if source != "" then source else e.source.GetOr(""),
                  if recheckAfter.Some? then recheckAfter else e.recheckAfter, o.slug, body);
    }

    /** `retire`: the end of the chain gets the dated marker, whatever member was named. */
    method RetireEntry(q: string, today: string, reason: string, note: string)
      returns (r: Result<Slug, Error>, ghost c: Change)
      modifies this
      ensures r.Err? ==> disk == old(disk) && rows == old(rows)
                         && Answer(old(Entries()), q) == if r.error == NotFound then Ok(None) else Err(r.error)
      ensures r.Ok? ==> Wrote(old(disk), old(rows), c) && c.Retire? && c.prior.slug == r.value
                        && Answer(old(Entries()), q) == Ok(Some(c.prior))
                        && c == Retire(c.prior, today, Some(WithoutFeeds(reason)), old(Entries())[c.prior].body + note)
      ensures old(Good()) && (r.Ok? ==> SafeChange(c)) ==> Good()
    {
      hide EntryAt, Print;
      ghost var before, rowsBefore := disk, rows;
      c := Retire(Path(Fact, q), today, None, "");
      var found := Resolve(q);
      if found.Err? {
        return Err(found.error), c;
      }
      if found.value.None? {
        return Err(NotFound), c;
      }
      var p := found.value.value;
      var e := EntryAt(disk[p]);
      c := Retire(p, today, Some(WithoutFeeds(reason)), e.body + note);
      disk := disk[p := Print(e.(retiredAt := Some(today), retiredReason := Some(WithoutFeeds(reason)),
                                 body := e.body + note))];
      rows := rows[p.slug := disk[p]];
      Note(before, rowsBefore, c);
      r := Ok(p.slug);
    }
  }

  /** Line feeds become blanks. */
  function WithoutFeeds(s: string): (r: string)
    ensures |r| == |s| && forall i :: 0 <= i < |s| ==> r[i] == if s[i] == '\n' then ' ' else s[i]
  {
    seq(|s|, i requires 0 <= i < |s| => if s[i] == '\n' then ' ' else s[i])
  }

  /** In a sound store with safe slugs, the head's own slug finds it again. */
  lemma HeadIsFound(files: Files, age: map<Slug, nat>, now: nat, o: Path)
    requires Sound(files, age, now) && IsHead(files, o)
    ensures Answer(files, o.slug) == Ok(Some(o)) && files[o].cls == o.cls
  {
    LookupFinds(files, o.slug);
    assert Lookup(files, o.slug) == Some(o);
    assert End(files, o, {}) == Ok(o);
  }

  // ---------------------------------------------------------------- runs that break a promise

  /** Words that are written and read back as themselves. */
  predicate GoodWords(subject: string, kind: string, scope: string, stated: string) {
    && kind in TYPES && FrontMatter.Plain(Some(subject)) && FrontMatter.Plain(Some(kind))
    && FrontMatter.Plain(Some(scope)) && FrontMatter.Plain(Some(stated))
  }

  lemma FirstWrite(p: Path, e: Entry)
    requires IsNew(e, p, None) && SafeEntry(e)
    ensures var none: Disk := map[];
            Can(View(none), AddNew(p, e)) && View(Put(none, AddNew(p, e))) == map[p := Normal(e)]
  {
    hide EntryAt, Print;
    var none: Disk := map[];
    assert View(none) == map[];
    PutReadsBackExactly(none, AddNew(p, e));
    assert Changed(map[], AddNew(p, Normal(e))) == map[p := Normal(e)];
  }

  /** One entry, alone in the store, answers to its slug. */
  lemma AloneIsFound(p: Path, e: Entry)
    requires e.Entry? && e.supersededBy.None? && !IsRetired(e) && e.cls == p.cls
    ensures Answer(map[p := e], p.slug) == Ok(Some(p))
  {
    var f: Files := map[p := e];
    match p.cls case GroundTruth => case Fact => case Provisional => case History =>
    assert Lookup(f, p.slug) == Some(p);
  }

  lemma CompletedIsSafe(cls: Class, subject: string, kind: string, scope: string, stated: string,
                        supersedes: Option<Slug>, body: string)
    requires GoodWords(subject, kind, scope, stated) && FrontMatter.Safe(supersedes)
    ensures SafeEntry(Completed(cls, subject, kind, scope, Agent, stated, "", None, supersedes, body))
  {
    assert FrontMatter.Plain(Some("7d"));
  }

  /** A slug used again in a class that is looked up later: its predecessor leads to itself. */
  lemma SecondWriteLoops(slug: Slug, d: Entry, e: Entry)
    requires var fact, other := Path(Fact, slug), Path(Provisional, slug);
             IsNew(d, fact, None) && !IsRetired(d) && IsNew(e, other, Some(slug))
    ensures var f: Files := map[Path(Fact, slug) := d];
            var c := Successor(Path(Fact, slug), Path(Provisional, slug), e);
            Can(f, c) && Answer(Changed(f, c), slug) == Err(Cycle)
  {
    var fact := Path(Fact, slug);
    var f: Files := map[fact := d];
    var g := Changed(f, Successor(fact, Path(Provisional, slug), e));
    assert Lookup(g, slug) == Some(fact) && Next(g[fact]) == Some(slug);
    assert End(g, fact, {} + {slug}) == Err(Cycle);
    assert End(g, fact, {}) == Err(Cycle);
  }

  /** Two writes of one slug, the second superseding the first: resolving it meets a cycle. */
  method CycleInTwoWrites(scope: string, slug: Slug, subject: string, kind: string, stated: string, body: string)
    returns (s: Store, r: Result<Option<Path>, Error>)
    requires GoodWords(subject, kind, scope, stated) && FrontMatter.Plain(Some(slug)) && !Marked(Strip(body))
    ensures fresh(s) && r == Err(Cycle)
  {
    hide EntryAt, Print, FrontMatter.Plain, Marked, Strip, Located, Resolved, RowsAfter, Verified, Sound;
    ghost var fact, other := Path(Fact, slug), Path(Provisional, slug);
    ghost var d := Completed(Fact, subject, kind, scope, Agent, stated, "", None, None, body);
    ghost var e := Completed(Provisional, subject, kind, scope, Agent, stated, "", None, Some(slug), body);
    s := new Store(scope);
    NothingIsSafe();
    CompletedIsSafe(Fact, subject, kind, scope, stated, None, body);
    CompletedIsSafe(Provisional, subject, kind, scope, stated, Some(slug), body);
    SlugIsWord(slug);
    var first, c1 := s.Add(Fact, slug, subject, kind, Agent, stated, "", None, "", body);
    FirstWrite(fact, d);
    AloneIsFound(fact, Normal(d));
    ghost var before := s.disk;
    SecondWriteLoops(slug, Normal(d), Normal(e));
    var second, c2 := s.Add(Provisional, slug, subject, kind, Agent, stated, "", None, slug, body);
    assert c2 == Successor(fact, other, e);
    PutReadsBackExactly(before, c2);
    assert s.Entries() == Changed(map[fact := Normal(d)], Successor(fact, other, Normal(e)));
    r := s.Resolve(slug);
  }

  lemma NothingIsSafe()
    ensures FrontMatter.Safe(None)
  {}

  lemma SlugIsWord(slug: Slug)
    requires FrontMatter.Plain(Some(slug))
    ensures slug != ""
  {}

  /** The superseded entry after the second write. */
  lemma PriorReadsBack(d: Disk, c: Change)
    requires Can(View(d), c) && c.Successor? && FrontMatter.Plain(Some(c.path.slug))
    ensures c.prior in View(Put(d, c)) && Next(View(Put(d, c))[c.prior]) == Some(c.path.slug)
  {
    hide EntryAt, Print;
    SlugIsWord(c.path.slug);
    RewrittenReadsBack(d, c);
    RewrittenNormal(d, c);
    assert View(Put(d, c))[c.prior] == EntryAt(Print(Rewritten(d, c)));
  }

  lemma LinkIsLost(files: Files, p: Path, q: Path)
    requires files.Keys == {p, q} && p.slug != q.slug && Next(files[p]) == Some(q.slug) && Prev(files[q]) == None
    ensures !Linked(files)
  {
    assert !AnsweredAhead(files, p);
  }

  /** A source with three dashes in it: the new entry is read without the link to what it supersedes. */
  method LostLink(scope: string, first: Slug, second: Slug, subject: string, kind: string, stated: string,
                  source: string, body: string)
    returns (s: Store)
    requires GoodWords(subject, kind, scope, stated) && !Marked(Strip(body)) && first != second
    requires FrontMatter.Plain(Some(first)) && FrontMatter.Plain(Some(second))
    requires FrontMatter.Dashed(Some(source)) && Unbroken(FrontMatter.Cut(source))
    ensures fresh(s) && s.Entries().Keys == {Path(Fact, first), Path(Fact, second)} && !Linked(s.Entries())
    ensures Next(s.Entries()[Path(Fact, first)]) == Some(second)
    ensures s.Entries()[Path(Fact, second)].Entry? && Prev(s.Entries()[Path(Fact, second)]) == None
  {
    hide EntryAt, Print, FrontMatter.Plain, Marked, Strip, Located, Resolved, RowsAfter, Verified, Sound, Linked;
    ghost var p, q := Path(Fact, first), Path(Fact, second);
    ghost var d := Completed(Fact, subject, kind, scope, Agent, stated, "", None, None, body);
    ghost var e := Completed(Fact, subject, kind, scope, Agent, stated, source, None, Some(first), body);
    s := new Store(scope);
    NothingIsSafe();
    CompletedIsSafe(Fact, subject, kind, scope, stated, None, body);
    SlugIsWord(first);
    var one, c1 := s.Add(Fact, first, subject, kind, Agent, stated, "", None, "", body);
    FirstWrite(p, d);
    AloneIsFound(p, Normal(d));
    ghost var before := s.disk;
    var two, c2 := s.Add(Fact, second, subject, kind, Agent, stated, source, None, first, body);
    assert c2 == Successor(p, q, e);
    PriorReadsBack(before, c2);
    DashesLoseLinks(e);
    assert s.Entries()[q] == EntryAt(Print(e));
    LinkIsLost(s.Entries(), p, q);
  }

  lemma BrokenIsMet(p: Path, why: FrontMatter.Error)
    ensures Answer(map[p := Broken(why)], p.slug) == Err(Unreadable(why))
  {
    var f: Files := map[p := Broken(why)];
    match p.cls case GroundTruth => case Fact => case Provisional => case History =>
    assert Lookup(f, p.slug) == Some(p);
  }

  /** A subject with three dashes in it: the file just written cannot be read, and resolving it raises. */
  method UnreadableSubject(scope: string, slug: Slug, subject: string, kind: string, stated: string, body: string)
    returns (s: Store, r: Result<Option<Path>, Error>)
    requires kind in TYPES && FrontMatter.Dashed(Some(subject)) && Unbroken(FrontMatter.Cut(subject))
    ensures fresh(s) && r == Err(Unreadable(FrontMatter.MissingKey))
  {
    hide EntryAt, Print, FrontMatter.Plain, Located, Resolved, RowsAfter, Verified, Sound;
    ghost var p := Path(Fact, slug);
    ghost var e := Completed(Fact, subject, kind, scope, Agent, stated, "", None, None, body);
    s := new Store(scope);
    var one, c := s.Add(Fact, slug, subject, kind, Agent, stated, "", None, "", body);
    assert c == AddNew(p, e);
    DashesBreakEntry(e);
    assert s.Entries() == map[p := EntryAt(Print(e))];
    BrokenIsMet(p, FrontMatter.MissingKey);
    r := s.Resolve(slug);
  }
}
