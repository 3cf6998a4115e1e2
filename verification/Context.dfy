/** The context store: entries that change only by supersession.  A file lives at (class, slug); a
    slug alone is looked up class by class.  Here a file is what reading it gives: an entry, or the
    reason why it cannot be read. */
module Context {
  import opened Collections
  import opened Wrappers
  import opened Text
  import FrontMatter

  type Slug = string
  datatype Class = GroundTruth | Fact | Provisional | History
  datatype Authority = Owner | Measured | Agent
  datatype Path = Path(cls: Class, slug: Slug)

  datatype Entry =
    | Entry(cls: Class, subject: string, kind: string, scope: string, authority: Authority, stated: string,
            source: Option<string>, recheckAfter: Option<string>, supersedes: Option<Slug>, supersededBy: Option<Slug>,
            retiredAt: Option<string>, retiredReason: Option<string>, body: string)
    | Broken(error: FrontMatter.Error)

  type Files = map<Path, Entry>

  datatype Error = NotOwner | BadType | Exists | NotFound | Cycle | MissingTarget | Unreadable(why: FrontMatter.Error)

  function Next(e: Entry): Option<Slug> {
    if e.Entry? then e.supersededBy else None
  }

  function Prev(e: Entry): Option<Slug> {
    if e.Entry? then e.supersedes else None
  }

  predicate DigitsAt(s: string, i: nat, n: nat) {
    i + n <= |s| && forall k :: i <= k < i + n ==> '0' <= s[k] <= '9'
  }

  /** `**Retired yyyy-mm-dd**:` at the start of a line, which older commands wrote in the body. */
  predicate MarkAt(s: string, i: nat) {
    && (i == 0 || (i <= |s| && s[i - 1] == '\n'))
    && OccursAt(s, "**Retired ", i) && DigitsAt(s, i + 10, 4) && OccursAt(s, "-", i + 14) && DigitsAt(s, i + 15, 2)
    && OccursAt(s, "-", i + 17) && DigitsAt(s, i + 18, 2) && OccursAt(s, "**:", i + 20)
  }

  predicate Marked(body: string) {
    exists i :: 0 <= i < |body| && MarkAt(body, i)
  }

  /** `is_retired` */
  predicate IsRetired(e: Entry) {
    e.Entry? && (e.retiredAt.Some? || Marked(e.body))
  }

  // ---------------------------------------------------------------- looking things up

  /** The first entry with this slug, in the order the classes are listed. */
  function Lookup(files: Files, slug: Slug): Option<Path> {
    if Path(GroundTruth, slug) in files then Some(Path(GroundTruth, slug))
    else if Path(Fact, slug) in files then Some(Path(Fact, slug))
    else if Path(Provisional, slug) in files then Some(Path(Provisional, slug))
    else if Path(History, slug) in files then Some(Path(History, slug))
    else None
  }

  lemma LookupFinds(files: Files, slug: Slug)
    ensures Lookup(files, slug).Some? ==> Lookup(files, slug).value in files && Lookup(files, slug).value.slug == slug
    ensures Lookup(files, slug).None? <==> forall p :: p in files ==> p.slug != slug
  {
    forall p | p in files && p.slug == slug ensures Lookup(files, slug).Some? {
      assert p == Path(p.cls, slug);
      match p.cls case GroundTruth => case Fact => case Provisional => case History =>
    }
  }

  function Slugs(files: Files): set<Slug> {
    set p | p in files :: p.slug
  }

  /** The end of the chain from a found entry: follow the successors, refusing a cycle or a
      successor that does not exist. */
  function End(files: Files, p: Path, visited: set<Slug>): Result<Path, Error>
    requires p in files
    decreases |Slugs(files) - visited|
  {
    if p.slug in visited then Err(Cycle)
    else if files[p].Broken? then Err(Unreadable(files[p].error))
    else if Next(files[p]).None? then Ok(p)
    else
      var q := Lookup(files, Next(files[p]).value);
      LookupFinds(files, Next(files[p]).value);
      if q.None? then Err(MissingTarget)
      else
        assert p.slug in Slugs(files) - visited;
        ProperSubsetIsSmaller(Slugs(files) - (visited + {p.slug}), Slugs(files) - visited);
        End(files, q.value, visited + {p.slug})
  }

  /** `resolve`: the end of the chain, or nothing when it is retired. */
  function Resolved(files: Files, p: Path): Result<Option<Path>, Error>
    requires p in files
  {
    match End(files, p, {})
    case Err(e) => Err(e)
    case Ok(h) => EndIsInside(files, p, {}); Ok(if IsRetired(files[h]) then None else Some(h))
  }

  lemma {:induction false} EndIsInside(files: Files, p: Path, visited: set<Slug>)
    requires p in files
    ensures End(files, p, visited).Ok? ==>
              var h := End(files, p, visited).value; h in files && files[h].Entry? && Next(files[h]).None?
    ensures End(files, p, visited).Err? ==>
              var e := End(files, p, visited).error; e == Cycle || e == MissingTarget || e.Unreadable?
    decreases |Slugs(files) - visited|
  {
    if p.slug !in visited && files[p].Entry? && Next(files[p]).Some? {
      var q := Lookup(files, Next(files[p]).value);
      LookupFinds(files, Next(files[p]).value);
      if q.Some? {
        assert p.slug in Slugs(files) - visited;
        ProperSubsetIsSmaller(Slugs(files) - (visited + {p.slug}), Slugs(files) - visited);
        EndIsInside(files, q.value, visited + {p.slug});
      }
    }
  }

  // ---------------------------------------------------------------- what must hold

  /** Every file can be read, and says the class of its folder. */
  predicate Readable(files: Files) {
    forall p :: p in files ==> files[p].Entry? && files[p].cls == p.cls
  }

  /** No slug is used in two classes. */
  predicate Unique(files: Files) {
    forall p, q :: p in files && q in files && p.slug == q.slug ==> p == q
  }

  predicate AnsweredAhead(files: Files, p: Path)
    requires p in files && Next(files[p]).Some?
  {
    exists q :: q in files && q.slug == Next(files[p]).value && Prev(files[q]) == Some(p.slug)
  }

  predicate AnsweredBehind(files: Files, p: Path)
    requires p in files && Prev(files[p]).Some?
  {
    exists q :: q in files && q.slug == Prev(files[p]).value && Next(files[q]) == Some(p.slug)
  }

  /** Successor and predecessor links name existing entries and answer each other. */
  predicate Linked(files: Files) {
    && (forall p :: p in files && Next(files[p]).Some? ==> AnsweredAhead(files, p))
    && (forall p :: p in files && Prev(files[p]).Some? ==> AnsweredBehind(files, p))
  }

  /** A successor was written later than what it supersedes. */
  predicate Ordered(files: Files, age: map<Slug, nat>, now: nat) {
    && (forall s :: s in age ==> age[s] < now)
    && (forall p :: p in files ==> p.slug in age)
    && (forall p :: p in files && Next(files[p]).Some? && Next(files[p]).value in age ==>
          age[p.slug] < age[Next(files[p]).value])
  }

  predicate OnlyHeadsRetired(files: Files) {
    forall p :: p in files && IsRetired(files[p]) ==> Next(files[p]).None?
  }

  predicate TruthIsOwned(files: Files) {
    forall p :: p in files && p.cls == GroundTruth ==> files[p].Entry? && files[p].authority == Owner
  }

  predicate Sound(files: Files, age: map<Slug, nat>, now: nat) {
    && Readable(files) && Unique(files) && Linked(files) && Ordered(files, age, now)
    && OnlyHeadsRetired(files) && TruthIsOwned(files)
  }

  // ---------------------------------------------------------------- changes

  datatype Change =
    | AddNew(path: Path, entry: Entry)
    | Successor(prior: Path, path: Path, entry: Entry)
    | Retire(prior: Path, at: string, reason: Option<string>, body: string)

  /** The class-wide uniqueness of slugs, which nothing in the store checks. */
  predicate NewSlug(files: Files, c: Change) {
    c.Retire? || c.path.slug !in Slugs(files)
  }

  /** What a new entry says: nothing has superseded or retired it. */
  predicate IsNew(e: Entry, p: Path, supersedes: Option<Slug>) {
    && e.Entry? && e.cls == p.cls && e.supersedes == supersedes && e.supersededBy.None?
    && e.retiredAt.None? && e.retiredReason.None? && (p.cls == GroundTruth ==> e.authority == Owner)
  }

  /** What `resolve` returns: readable, not superseded and not retired. */
  predicate IsHead(files: Files, o: Path) {
    o in files && files[o].Entry? && files[o].supersededBy.None? && !IsRetired(files[o])
  }

  predicate Can(files: Files, c: Change) {
    match c
    case AddNew(p, e) => p !in files && IsNew(e, p, None)
    case Successor(o, p, e) => IsHead(files, o) && p !in files && IsNew(e, p, Some(o.slug))
    case Retire(o, _, _, _) => IsHead(files, o)
  }

  function Changed(files: Files, c: Change): Files
    requires Can(files, c)
  {
    match c
    case AddNew(p, e) => files[p := e]
    case Successor(o, p, e) => files[o := files[o].(supersededBy := Some(p.slug))][p := e]
    case Retire(o, at, reason, body) =>
      files[o := files[o].(retiredAt := Some(at), retiredReason := reason, body := body)]
  }

  function Aged(age: map<Slug, nat>, c: Change, now: nat): map<Slug, nat> {
    if c.Retire? then age else age[c.path.slug := now]
  }

  /** Links that answered each other go on doing so where nothing of them changes. */
  lemma StillAnswersAhead(files: Files, g: Files, p: Path)
    requires p in files && p in g && Next(g[p]) == Next(files[p]) && Next(files[p]).Some? && AnsweredAhead(files, p)
    requires forall q :: q in files ==> q in g && Prev(g[q]) == Prev(files[q])
    ensures AnsweredAhead(g, p)
  {
    var q :| q in files && q.slug == Next(files[p]).value && Prev(files[q]) == Some(p.slug);
    assert q in g && Prev(g[q]) == Some(p.slug);
  }

  lemma StillAnswersBehind(files: Files, g: Files, p: Path)
    requires p in files && p in g && Prev(g[p]) == Prev(files[p]) && Prev(files[p]).Some? && AnsweredBehind(files, p)
    requires forall q :: q in files && Next(files[q]).Some? ==> q in g && Next(g[q]) == Next(files[q])
    ensures AnsweredBehind(g, p)
  {
    var q :| q in files && q.slug == Prev(files[p]).value && Next(files[q]) == Some(p.slug);
    assert q in g && Next(g[q]) == Some(p.slug);
  }

  lemma AddKeepsLinks(files: Files, c: Change)
    requires Linked(files) && Can(files, c) && NewSlug(files, c) && c.AddNew?
    ensures Linked(Changed(files, c))
  {
    var g := Changed(files, c);
    forall p | p in g && Next(g[p]).Some? ensures AnsweredAhead(g, p) { StillAnswersAhead(files, g, p); }
    forall p | p in g && Prev(g[p]).Some? ensures AnsweredBehind(g, p) { StillAnswersBehind(files, g, p); }
  }

  lemma AddKeepsSound(files: Files, age: map<Slug, nat>, c: Change, now: nat)
    requires Sound(files, age, now) && Can(files, c) && NewSlug(files, c) && c.AddNew?
    ensures Sound(Changed(files, c), Aged(age, c, now), now + 1)
  {
    AddKeepsLinks(files, c);
    LinksStayInside(files, c.path.slug);
  }

  /** No entry points at a slug that does not exist. */
  lemma LinksStayInside(files: Files, s: Slug)
    requires Linked(files) && s !in Slugs(files)
    ensures forall p :: p in files ==> Next(files[p]) != Some(s) && Prev(files[p]) != Some(s)
  {}

  lemma SuccessorAnswers(files: Files, c: Change, p: Path)
    requires Unique(files) && Linked(files) && Can(files, c) && NewSlug(files, c) && c.Successor?
    requires var g := Changed(files, c); p in g && Next(g[p]).Some?
    ensures AnsweredAhead(Changed(files, c), p)
  {
    var g, o, n := Changed(files, c), c.prior, c.path;
    if p == o {
      assert n in g && Prev(g[n]) == Some(o.slug);
    } else {
      assert p in files && g[p] == files[p];
      StillAnswersAhead(files, g, p);
    }
  }

  lemma PredecessorAnswers(files: Files, c: Change, p: Path)
    requires Unique(files) && Linked(files) && Can(files, c) && NewSlug(files, c) && c.Successor?
    requires var g := Changed(files, c); p in g && Prev(g[p]).Some?
    ensures AnsweredBehind(Changed(files, c), p)
  {
    var g, o, n := Changed(files, c), c.prior, c.path;
    if p == n {
      assert o in g && Next(g[o]) == Some(n.slug);
    } else {
      StillAnswersBehind(files, g, p);
    }
  }

  lemma SupersedeKeepsLinks(files: Files, c: Change)
    requires Unique(files) && Linked(files) && Can(files, c) && NewSlug(files, c) && c.Successor?
    ensures Linked(Changed(files, c))
  {
    var g := Changed(files, c);
    forall p | p in g && Next(g[p]).Some? ensures AnsweredAhead(g, p) { SuccessorAnswers(files, c, p); }
    forall p | p in g && Prev(g[p]).Some? ensures AnsweredBehind(g, p) { PredecessorAnswers(files, c, p); }
  }

  lemma SupersedeKeepsEntries(files: Files, c: Change)
    requires Readable(files) && Unique(files) && OnlyHeadsRetired(files) && TruthIsOwned(files)
    requires Can(files, c) && NewSlug(files, c) && c.Successor?
    ensures var g := Changed(files, c); Readable(g) && Unique(g) && OnlyHeadsRetired(g) && TruthIsOwned(g)
  {
    var g := Changed(files, c);
    forall p, q | p in g && q in g && p.slug == q.slug ensures p == q {
      if p != c.path { assert p in files && p.slug in Slugs(files); }
      if q != c.path { assert q in files && q.slug in Slugs(files); }
    }
  }

  lemma SupersedeKeepsSound(files: Files, age: map<Slug, nat>, c: Change, now: nat)
    requires Sound(files, age, now) && Can(files, c) && NewSlug(files, c) && c.Successor?
    ensures Sound(Changed(files, c), Aged(age, c, now), now + 1)
  {
    SupersedeKeepsLinks(files, c);
    SupersedeKeepsEntries(files, c);
  }

  lemma RetireKeepsLinks(files: Files, c: Change)
    requires Linked(files) && Can(files, c) && c.Retire?
    ensures Linked(Changed(files, c)) && Changed(files, c).Keys == files.Keys
    ensures forall p :: p in files ==>
              Next(Changed(files, c)[p]) == Next(files[p]) && Prev(Changed(files, c)[p]) == Prev(files[p])
  {
    var g := Changed(files, c);
    forall p | p in g && Next(g[p]).Some? ensures AnsweredAhead(g, p) { StillAnswersAhead(files, g, p); }
    forall p | p in g && Prev(g[p]).Some? ensures AnsweredBehind(g, p) { StillAnswersBehind(files, g, p); }
  }

  lemma RetireKeepsSound(files: Files, age: map<Slug, nat>, c: Change, now: nat)
    requires Sound(files, age, now) && Can(files, c) && c.Retire?
    ensures Sound(Changed(files, c), age, now + 1)
  {
    RetireKeepsLinks(files, c);
  }

  /** Every change of a store whose slugs stay distinct keeps the store sound. */
  lemma ChangeKeepsSound(files: Files, age: map<Slug, nat>, c: Change, now: nat)
    requires Sound(files, age, now) && Can(files, c) && NewSlug(files, c)
    ensures Sound(Changed(files, c), Aged(age, c, now), now + 1)
  {
    match c
    case AddNew(_, _) => AddKeepsSound(files, age, c, now);
    case Successor(_, _, _) => SupersedeKeepsSound(files, age, c, now);
    case Retire(_, _, _, _) => RetireKeepsSound(files, age, c, now);
  }

  /** The condition is exact: a slug stays unique to one class if and only if the added file
      takes a slug no other class uses. */
  lemma UniqueExactly(files: Files, c: Change)
    requires Unique(files) && Can(files, c)
    ensures Unique(Changed(files, c)) <==> NewSlug(files, c)
  {
    var g := Changed(files, c);
    if c.Retire? {
      assert forall p :: p in g ==> p in files;
    } else if c.path.slug in Slugs(files) {
      var p :| p in files && p.slug == c.path.slug;
      assert p in g && c.path in g && p != c.path;
    } else {
      forall p, q | p in g && q in g && p.slug == q.slug ensures p == q {
        if p != c.path { assert p in files && p.slug in Slugs(files); }
        if q != c.path { assert q in files && q.slug in Slugs(files); }
      }
    }
  }

  // ---------------------------------------------------------------- runs

  predicate Legal(files: Files, cs: seq<Change>)
    decreases |cs|
  {
    cs == [] || (Can(files, cs[0]) && Legal(Changed(files, cs[0]), cs[1..]))
  }

  function Run(files: Files, cs: seq<Change>): Files
    requires Legal(files, cs)
    decreases |cs|
  {
    if cs == [] then files else Run(Changed(files, cs[0]), cs[1..])
  }

  predicate NewSlugRun(files: Files, cs: seq<Change>)
    requires Legal(files, cs)
    decreases |cs|
  {
    cs == [] || (NewSlug(files, cs[0]) && NewSlugRun(Changed(files, cs[0]), cs[1..]))
  }

  lemma {:induction false} RunKeepsSound(files: Files, age: map<Slug, nat>, now: nat, cs: seq<Change>)
    returns (after: map<Slug, nat>)
    requires Sound(files, age, now) && Legal(files, cs) && NewSlugRun(files, cs)
    ensures Sound(Run(files, cs), after, now + |cs|)
    decreases |cs|
  {
    after := age;
    if cs != [] {
      ChangeKeepsSound(files, age, cs[0], now);
      after := RunKeepsSound(Changed(files, cs[0]), Aged(age, cs[0], now), now + 1, cs[1..]);
    }
  }

  // ---------------------------------------------------------------- chains

  lemma {:induction false} EndExists(files: Files, age: map<Slug, nat>, now: nat, p: Path, visited: set<Slug>)
    requires Sound(files, age, now) && p in files
    requires forall v :: v in visited ==> v in age && age[v] < age[p.slug]
    ensures End(files, p, visited).Ok? && End(files, p, visited) == End(files, p, {})
    decreases now - age[p.slug]
  {
    if Next(files[p]).Some? {
      var t := Next(files[p]).value;
      var q :| q in files && q.slug == t && Prev(files[q]) == Some(p.slug);
      LookupFinds(files, t);
      assert Lookup(files, t) == Some(q);
      EndExists(files, age, now, q, visited + {p.slug});
      EndExists(files, age, now, q, {} + {p.slug});
    }
  }

  /** `resolve` never meets a cycle or a missing successor, ends at an entry nothing has
      superseded, and every entry resolves like its successor. */
  lemma ResolveNeverFails(files: Files, age: map<Slug, nat>, now: nat, p: Path)
    requires Sound(files, age, now) && p in files
    ensures Resolved(files, p).Ok?
    ensures End(files, p, {}).Ok? && End(files, p, {}).value in files
            && Next(files[End(files, p, {}).value]).None?
    ensures Next(files[p]).Some? ==>
              exists q :: q in files && Lookup(files, Next(files[p]).value) == Some(q)
                          && End(files, q, {}) == End(files, p, {})
  {
    EndExists(files, age, now, p, {});
    EndIsInside(files, p, {});
    if Next(files[p]).Some? {
      var t := Next(files[p]).value;
      var q :| q in files && q.slug == t && Prev(files[q]) == Some(p.slug);
      LookupFinds(files, t);
      assert Lookup(files, t) == Some(q);
      EndExists(files, age, now, q, {} + {p.slug});
    }
  }

  /** Two entries joined by a supersession link, read either way. */
  predicate Joined(files: Files, p: Path, q: Path) {
    p in files && q in files && (Next(files[p]) == Some(q.slug) || Prev(files[p]) == Some(q.slug))
  }

  /** A walk along supersession links, forwards and backwards. */
  predicate Chain(files: Files, ps: seq<Path>) {
    (forall p :: p in ps ==> p in files) && forall i :: 0 < i < |ps| ==> Joined(files, ps[i - 1], ps[i])
  }

  lemma JoinedResolveAlike(files: Files, age: map<Slug, nat>, now: nat, p: Path, q: Path)
    requires Sound(files, age, now) && Joined(files, p, q)
    ensures End(files, p, {}) == End(files, q, {})
  {
    if Next(files[p]) == Some(q.slug) {
      LookupFinds(files, q.slug);
      ResolveNeverFails(files, age, now, p);
    } else {
      var r :| r in files && r.slug == q.slug && Next(files[r]) == Some(p.slug);
      LookupFinds(files, p.slug);
      ResolveNeverFails(files, age, now, q);
    }
  }

  /** All members of a chain resolve to one head. */
  lemma {:induction false} OneHeadPerChain(files: Files, age: map<Slug, nat>, now: nat, ps: seq<Path>, i: nat)
    requires Sound(files, age, now) && Chain(files, ps) && i < |ps|
    ensures End(files, ps[i], {}) == End(files, ps[0], {})
  {
    if i > 0 {
      OneHeadPerChain(files, age, now, ps, i - 1);
      assert Joined(files, ps[i - 1], ps[i]);
      JoinedResolveAlike(files, age, now, ps[i - 1], ps[i]);
    }
  }

  /** `live_entries`: the heads that are not retired. */
  function Live(files: Files): set<Path> {
    set p | p in files && Next(files[p]).None? && !IsRetired(files[p])
  }

  /** An unretired chain has exactly one live entry, a retired one has none; and what is
      retired is always the head. */
  lemma LiveIsOnePerChain(files: Files, age: map<Slug, nat>, now: nat, p: Path)
    requires Sound(files, age, now) && p in files
    ensures End(files, p, {}).Ok? && End(files, p, {}).value in files
    ensures var h := End(files, p, {}).value;
            && (!IsRetired(files[h]) ==> h in Live(files))
            && (forall l :: l in Live(files) && End(files, l, {}) == End(files, p, {}) ==>
                  l == h && !IsRetired(files[h]))
    ensures IsRetired(files[p]) ==> End(files, p, {}) == Ok(p)
  {
    ResolveNeverFails(files, age, now, p);
    forall l | l in Live(files) && End(files, l, {}) == End(files, p, {})
      ensures l == End(files, p, {}).value
    {
      assert End(files, l, {}) == Ok(l);
    }
  }

  // ---------------------------------------------------------------- exactly when resolving fails

  /** The successor of an entry. */
  ghost function Follow(files: Files, age: map<Slug, nat>, now: nat, p: Path): (q: Path)
    requires Sound(files, age, now) && p in files && Next(files[p]).Some?
    ensures q in files && q.slug == Next(files[p]).value && Lookup(files, q.slug) == Some(q)
            && age[p.slug] < age[q.slug]
  {
    LookupFinds(files, Next(files[p]).value);
    assert AnsweredAhead(files, p);
    Lookup(files, Next(files[p]).value).value
  }

  /** The slugs of an entry and of everything that supersedes it. */
  ghost function ChainSlugs(files: Files, age: map<Slug, nat>, now: nat, p: Path): (s: set<Slug>)
    requires Sound(files, age, now) && p in files
    ensures p.slug in s && forall t :: t in s ==> t in age && age[t] >= age[p.slug]
    decreases now - age[p.slug]
  {
    if Next(files[p]).None? then {p.slug} else {p.slug} + ChainSlugs(files, age, now, Follow(files, age, now, p))
  }

  /** The end of the chain in a sound store. */
  ghost function Head(files: Files, age: map<Slug, nat>, now: nat, p: Path): (h: Path)
    requires Sound(files, age, now) && p in files
    ensures h in files && Next(files[h]).None? && End(files, p, {}) == Ok(h)
  {
    ResolveNeverFails(files, age, now, p);
    End(files, p, {}).value
  }

  lemma HeadFollows(files: Files, age: map<Slug, nat>, now: nat, p: Path)
    requires Sound(files, age, now) && p in files && Next(files[p]).Some?
    ensures Head(files, age, now, p) == Head(files, age, now, Follow(files, age, now, p))
  {
    ResolveNeverFails(files, age, now, p);
  }

  /** Whoever stands on a chain has its head. */
  lemma {:induction false} OnChainSameHead(files: Files, age: map<Slug, nat>, now: nat, p: Path, x: Path)
    requires Sound(files, age, now) && p in files && x in files && x.slug in ChainSlugs(files, age, now, p)
    ensures Head(files, age, now, x) == Head(files, age, now, p)
    decreases now - age[p.slug]
  {
    if x.slug != p.slug {
      HeadFollows(files, age, now, p);
      OnChainSameHead(files, age, now, Follow(files, age, now, p), x);
    }
  }

  lemma {:induction false} HeadIsOnChain(files: Files, age: map<Slug, nat>, now: nat, p: Path)
    requires Sound(files, age, now) && p in files
    ensures Head(files, age, now, p).slug in ChainSlugs(files, age, now, p)
    decreases now - age[p.slug]
  {
    if Next(files[p]).Some? {
      HeadFollows(files, age, now, p);
      HeadIsOnChain(files, age, now, Follow(files, age, now, p));
    }
  }

  /** Chains with different heads share no slug. */
  lemma ChainsApart(files: Files, age: map<Slug, nat>, now: nat, p: Path, x: Path)
    requires Sound(files, age, now) && p in files && x in files && Head(files, age, now, p) != Head(files, age, now, x)
    ensures ChainSlugs(files, age, now, p) !! ChainSlugs(files, age, now, x)
  {
    forall s | s in ChainSlugs(files, age, now, p) && s in ChainSlugs(files, age, now, x) ensures false {
      SlugIsThere(files, age, now, p, s);
      var y :| y in files && y.slug == s;
      OnChainSameHead(files, age, now, p, y);
      OnChainSameHead(files, age, now, x, y);
    }
  }

  lemma {:induction false} SlugIsThere(files: Files, age: map<Slug, nat>, now: nat, p: Path, s: Slug)
    requires Sound(files, age, now) && p in files && s in ChainSlugs(files, age, now, p)
    ensures exists y :: y in files && y.slug == s
    decreases now - age[p.slug]
  {
    if s != p.slug { SlugIsThere(files, age, now, Follow(files, age, now, p), s); }
  }

  /** `g` holds what `files` does but for the links of `o`, and `n` besides; looking up a slug finds what
      it found before, or `n` under its own slug. */
  ghost predicate Grown(files: Files, g: Files, o: Path, n: Path) {
    && n !in files && n in g && g[n].Entry? && Next(g[n]).None?
    && (forall p :: p in files ==> p in g && g[p].Entry? && (p != o ==> Next(g[p]) == Next(files[p])))
    && (forall s :: s != n.slug ==> Lookup(g, s) == Lookup(files, s))
    && (Lookup(g, n.slug) == Some(n) || Lookup(g, n.slug) == Lookup(files, n.slug))
    && Lookup(g, n.slug).Some?
  }

  lemma SuccessorGrows(files: Files, age: map<Slug, nat>, now: nat, c: Change)
    requires Sound(files, age, now) && Can(files, c) && c.Successor?
    ensures Grown(files, Changed(files, c), c.prior, c.path) && Next(Changed(files, c)[c.prior]) == Some(c.path.slug)
  {
    var g := Changed(files, c);
    assert forall p :: p in g <==> p in files || p == c.path;
  }

  /** Walking the old chain when the new entry is not in the way. */
  lemma {:induction false} WalksOn(files: Files, age: map<Slug, nat>, now: nat, g: Files, o: Path, n: Path, r: Path,
                                   seen: set<Slug>)
    requires Sound(files, age, now) && Grown(files, g, o, n) && r in files && o in files && Next(files[o]).None?
    requires ChainSlugs(files, age, now, r) !! seen
    requires Lookup(g, n.slug) == Some(n) ==>
               forall s :: s in ChainSlugs(files, age, now, r) && s != r.slug ==> s != n.slug
    ensures var h := Head(files, age, now, r);
            if h != o then End(g, r, seen) == Ok(h)
            else h.slug !in seen && End(g, r, seen) == End(g, o, seen + (ChainSlugs(files, age, now, r) - {o.slug}))
    decreases now - age[r.slug]
  {
    if Next(files[r]).None? {
      assert seen + ({r.slug} - {r.slug}) == seen;
    } else {
      var q := Follow(files, age, now, r);
      HeadFollows(files, age, now, r);
      HeadIsOnChain(files, age, now, q);
      assert r != o;
      WalksOn(files, age, now, g, o, n, q, seen + {r.slug});
      var rest := ChainSlugs(files, age, now, q);
      assert r.slug != o.slug ==> seen + {r.slug} + (rest - {o.slug}) == seen + (({r.slug} + rest) - {o.slug});
      if Head(files, age, now, r) == o { assert r.slug != o.slug; }
    }
  }

  /** A chain that meets a slug seen before ends in a cycle. */
  lemma {:induction false} MeetsSeen(files: Files, age: map<Slug, nat>, now: nat, g: Files, o: Path, n: Path, r: Path,
                                     seen: set<Slug>)
    requires Sound(files, age, now) && Grown(files, g, o, n) && r in files && o in files && Next(files[o]).None?
    requires Lookup(g, n.slug) == Lookup(files, n.slug)
    requires ChainSlugs(files, age, now, r) * seen != {}
    ensures End(g, r, seen) == Err(Cycle)
    decreases now - age[r.slug]
  {
    if r.slug !in seen {
      var s := SomeMember(ChainSlugs(files, age, now, r) * seen);
      assert Next(files[r]).Some?;
      var q := Follow(files, age, now, r);
      assert s in ChainSlugs(files, age, now, q) * (seen + {r.slug});
      MeetsSeen(files, age, now, g, o, n, q, seen + {r.slug});
    }
  }

  /** A chain on which somebody else has the new slug is led to the new entry. */
  lemma {:induction false} LedToNew(files: Files, age: map<Slug, nat>, now: nat, g: Files, o: Path, n: Path, r: Path,
                                    seen: set<Slug>)
    requires Sound(files, age, now) && Grown(files, g, o, n) && r in files && o in files && Next(files[o]).None?
    requires Lookup(g, n.slug) == Some(n) && ChainSlugs(files, age, now, r) !! seen && n.slug !in seen
    requires r.slug != n.slug && n.slug in ChainSlugs(files, age, now, r)
    ensures End(g, r, seen) == Ok(n)
    decreases now - age[r.slug]
  {
    var q := Follow(files, age, now, r);
    if q.slug != n.slug {
      LedToNew(files, age, now, g, o, n, q, seen + {r.slug});
    }
  }

  /** Which resolutions a supersession breaks: those of the chain it extends, when an older entry of
      that chain has the new slug in another class and is found in place of the new entry, or is itself
      what is resolved. */
  ghost predicate Breaks(files: Files, age: map<Slug, nat>, now: nat, c: Change, r: Path)
    requires Sound(files, age, now) && Can(files, c) && r in Changed(files, c)
  {
    c.Successor? && r != c.path && Head(files, age, now, r) == c.prior
    && exists x :: Shadows(files, age, now, c, x) && (Lookup(Changed(files, c), c.path.slug) != Some(c.path) || r == x)
  }

  ghost predicate Shadows(files: Files, age: map<Slug, nat>, now: nat, c: Change, x: Path)
    requires Sound(files, age, now) && Can(files, c) && c.Successor?
  {
    x in files && x.slug == c.path.slug && Head(files, age, now, x) == c.prior
  }

  /** At the head of the extended chain. */
  lemma FromHead(files: Files, age: map<Slug, nat>, now: nat, c: Change, r: Path)
    requires Sound(files, age, now) && Can(files, c) && c.Successor? && r in files
             && Head(files, age, now, r) == c.prior
    requires var g, n := Changed(files, c), c.path;
             Lookup(g, n.slug) == Some(n) ==>
               forall s :: s in ChainSlugs(files, age, now, r) && s != r.slug ==> s != n.slug
    ensures var g := Changed(files, c);
            Lookup(g, c.path.slug).Some? && Lookup(g, c.path.slug).value in g
            && End(g, r, {}) == End(g, Lookup(g, c.path.slug).value, ChainSlugs(files, age, now, r))
  {
    var g, o, n := Changed(files, c), c.prior, c.path;
    SuccessorGrows(files, age, now, c);
    LookupFinds(g, n.slug);
    WalksOn(files, age, now, g, o, n, r, {});
    HeadIsOnChain(files, age, now, r);
    var all := ChainSlugs(files, age, now, r);
    assert {} + (all - {o.slug}) + {o.slug} == all;
  }

  /** The old chain is found first: it loops if it is the one extended. */
  lemma FoundBehind(files: Files, age: map<Slug, nat>, now: nat, c: Change, r: Path, x: Path)
    requires Sound(files, age, now) && Can(files, c) && c.Successor? && r in files
    requires x in files && x.slug == c.path.slug && Lookup(Changed(files, c), c.path.slug) != Some(c.path)
    ensures var g := Changed(files, c);
            if Head(files, age, now, r) == c.prior && Head(files, age, now, x) == c.prior
            then End(g, r, {}) == Err(Cycle) else End(g, r, {}).Ok?
  {
    var g, o, n := Changed(files, c), c.prior, c.path;
    SuccessorGrows(files, age, now, c);
    LookupFinds(files, n.slug);
    assert Lookup(files, n.slug) == Some(x);
    if Head(files, age, now, r) != o {
      WalksOn(files, age, now, g, o, n, r, {});
    } else {
      FromHead(files, age, now, c, r);
      var all := ChainSlugs(files, age, now, r);
      if Head(files, age, now, x) == o {
        HeadIsOnChain(files, age, now, x);
        HeadIsOnChain(files, age, now, r);
        assert o.slug in ChainSlugs(files, age, now, x) * all;
        MeetsSeen(files, age, now, g, o, n, x, all);
      } else {
        ChainsApart(files, age, now, r, x);
        WalksOn(files, age, now, g, o, n, x, all);
      }
    }
  }

  /** The new entry is found first: only the older one of its slug can loop. */
  lemma FoundAhead(files: Files, age: map<Slug, nat>, now: nat, c: Change, r: Path)
    requires Sound(files, age, now) && Can(files, c) && c.Successor? && r in files
    requires Lookup(Changed(files, c), c.path.slug) == Some(c.path)
    ensures var g := Changed(files, c);
            if r.slug == c.path.slug && Head(files, age, now, r) == c.prior
            then End(g, r, {}) == Err(Cycle) else End(g, r, {}).Ok?
  {
    var g, o, n := Changed(files, c), c.prior, c.path;
    SuccessorGrows(files, age, now, c);
    if r.slug != n.slug && n.slug in ChainSlugs(files, age, now, r) {
      LedToNew(files, age, now, g, o, n, r, {});
    } else if Head(files, age, now, r) != o {
      ApartFromSlug(files, age, now, r, n.slug);
      WalksOn(files, age, now, g, o, n, r, {});
    } else {
      ApartFromSlug(files, age, now, r, n.slug);
      FromHead(files, age, now, c, r);
    }
  }

  lemma ApartFromSlug(files: Files, age: map<Slug, nat>, now: nat, r: Path, s: Slug)
    requires Sound(files, age, now) && r in files && (r.slug == s || s !in ChainSlugs(files, age, now, r))
    ensures forall t :: t in ChainSlugs(files, age, now, r) && t != r.slug ==> t != s
  {}

  /** Exactly when resolving fails after a supersession; every failure is a cycle. */
  lemma ResolveFailsExactly(files: Files, age: map<Slug, nat>, now: nat, c: Change, r: Path)
    requires Sound(files, age, now) && Can(files, c) && c.Successor? && r in Changed(files, c)
    ensures Breaks(files, age, now, c, r) ==> End(Changed(files, c), r, {}) == Err(Cycle)
    ensures End(Changed(files, c), r, {}).Err? <==> Breaks(files, age, now, c, r)
  {
    var g, n := Changed(files, c), c.path;
    if r != n {
      if Lookup(g, n.slug) == Some(n) {
        FoundAhead(files, age, now, c, r);
        if r.slug == n.slug && Head(files, age, now, r) == c.prior { assert Shadows(files, age, now, c, r); }
      } else {
        LookupFinds(files, n.slug);
        var x := Lookup(files, n.slug).value;
        FoundBehind(files, age, now, c, r, x);
        if Head(files, age, now, x) == c.prior { assert Shadows(files, age, now, c, x); }
      }
    }
  }

  lemma AddGrows(files: Files, age: map<Slug, nat>, now: nat, c: Change, o: Path)
    requires Sound(files, age, now) && Can(files, c) && c.AddNew?
    ensures Grown(files, Changed(files, c), o, c.path)
  {
    assert forall p :: p in Changed(files, c) <==> p in files || p == c.path;
  }

  /** Writing an entry that supersedes nothing breaks no resolution, whatever slug it takes. */
  lemma AddNeverBreaks(files: Files, age: map<Slug, nat>, now: nat, c: Change, r: Path)
    requires Sound(files, age, now) && Can(files, c) && c.AddNew? && r in Changed(files, c)
    ensures End(Changed(files, c), r, {}).Ok?
  {
    var g, n := Changed(files, c), c.path;
    if r != n {
      var o := Head(files, age, now, r);
      AddGrows(files, age, now, c, o);
      if Lookup(g, n.slug) == Some(n) && r.slug != n.slug && n.slug in ChainSlugs(files, age, now, r) {
        LedToNew(files, age, now, g, o, n, r, {});
      } else {
        if Lookup(g, n.slug) == Some(n) { ApartFromSlug(files, age, now, r, n.slug); }
        WalksOn(files, age, now, g, o, n, r, {});
      }
    }
  }

  lemma {:induction false} SameLinksSameEnd(files: Files, g: Files, r: Path, seen: set<Slug>)
    requires g.Keys == files.Keys && r in files
    requires forall p :: p in files ==> files[p].Entry? && g[p].Entry? && Next(g[p]) == Next(files[p])
    ensures End(g, r, seen) == End(files, r, seen)
    decreases |Slugs(files) - seen|
  {
    assert forall s :: Lookup(g, s) == Lookup(files, s);
    if r.slug !in seen && Next(files[r]).Some? && Lookup(files, Next(files[r]).value).Some? {
      LookupFinds(files, Next(files[r]).value);
      assert r.slug in Slugs(files) - seen;
      ProperSubsetIsSmaller(Slugs(files) - (seen + {r.slug}), Slugs(files) - seen);
      SameLinksSameEnd(files, g, Lookup(files, Next(files[r]).value).value, seen + {r.slug});
    }
  }

  /** Exactly when a change of a sound store makes an entry unresolvable. */
  lemma ChangeBreaksExactly(files: Files, age: map<Slug, nat>, now: nat, c: Change, r: Path)
    requires Sound(files, age, now) && Can(files, c) && r in Changed(files, c)
    ensures End(Changed(files, c), r, {}).Err? <==> Breaks(files, age, now, c, r)
  {
    match c
    case AddNew(_, _) => AddNeverBreaks(files, age, now, c, r);
    case Successor(_, _, _) => ResolveFailsExactly(files, age, now, c, r);
    case Retire(_, _, _, _) =>
      RetireKeepsLinks(files, c);
      SameLinksSameEnd(files, Changed(files, c), r, {});
      ResolveNeverFails(files, age, now, r);
  }

  /** Slugs shared between classes break the chains: four legal writes, and resolving ends in
      a supersession cycle. */
  lemma SharedSlugMakesCycle(e: Entry)
    requires e.Entry? && e.supersedes.None? && e.supersededBy.None? && e.retiredAt.None? && e.retiredReason.None?
    requires !Marked(e.body)
    ensures exists cs :: Legal(map[], cs) && Path(Fact, "a") in Run(map[], cs)
                         && Resolved(Run(map[], cs), Path(Fact, "a")) == Err(Cycle)
  {
    var fa, pb, fb, ha := Path(Fact, "a"), Path(Provisional, "b"), Path(Fact, "b"), Path(History, "a");
    var c1 := AddNew(fa, e.(cls := Fact));
    var c2 := Successor(fa, pb, e.(cls := Provisional, supersedes := Some("a")));
    var c3 := AddNew(fb, e.(cls := Fact));
    var c4 := Successor(fb, ha, e.(cls := History, supersedes := Some("b")));
    var f1 := Changed(map[], c1);
    var f2 := Changed(f1, c2);
    var f3 := Changed(f2, c3);
    var f4 := Changed(f3, c4);
    var cs := [c1, c2, c3, c4];
    assert cs[1..] == [c2, c3, c4] && cs[1..][1..] == [c3, c4] && cs[1..][1..][1..] == [c4] && [c4][1..] == [];
    assert Legal(f4, []) && Run(f4, []) == f4;
    assert Legal(f3, [c4]) && Run(f3, [c4]) == f4;
    assert Legal(f2, [c3, c4]) && Run(f2, [c3, c4]) == f4;
    assert Legal(f1, [c2, c3, c4]) && Run(f1, [c2, c3, c4]) == f4;
    assert Legal(map[], cs) && Run(map[], cs) == f4;
    assert Lookup(f4, "b") == Some(fb) && Lookup(f4, "a") == Some(fa);
    assert End(f4, fa, {} + {"a"} + {"b"}) == Err(Cycle);
    assert End(f4, fb, {} + {"a"}) == Err(Cycle);
    assert End(f4, fa, {}) == Err(Cycle);
  }
}
