/** The review timer and the verdict handler for one head of one pull request.  Verdicts may land
    between any two readings of the store; GitHub may refuse any call.  Each pass is a function
    from what the daemon has to what it has afterwards; the class does what the functions say. */
module ReviewSync {
  import opened Collections
  import opened Wrappers
  import opened Quorum
  import Order

  /** The verdicts of a head in the order in which they land, and the number of lanes it needs. */
  datatype Case = Case(story: seq<Verdict>, required: nat)

  /** A review task that is not finished: for this head, or for one the branch has left.  It is in
      progress while at most `until` verdicts of the head have landed; the next one is its own. */
  datatype Live = Live(id: nat, here: bool, author: Option<Lane>, until: nat)

  /** GitHub's answers: whether the head conflicts, whether it is still the open one, whether the
      status can be read and posted, whether a review is taken, be it an approval or a request for
      changes, and a merge goes through. */
  datatype Answers = Answers(conflict: bool, current: bool, readable: bool, posts: bool, approves: bool, merges: bool)

  /** A merge that was asked for: how many verdicts its decision had read, the lane it counted in,
      and how many had landed when GitHub was called. */
  datatype Merge = Merge(seen: nat, decider: Option<Lane>, late: nat)

  /** A task to fix the head, filed for the needs-fix of one review. */
  datatype Fix = Fix(task: nat, review: nat)

  /** What there is of the head: how many verdicts have landed, the review in progress, the commit
      status, what was posted, approved, asked to be changed and filed so far, and the merges asked for.
      Reviews and fixes take their numbers from one counter, `tasks`. */
  datatype Head = Head(landed: nat, live: Option<Live>, status: Option<Status>, posts: seq<Status>,
                       approvals: nat, requests: nat, tasks: nat, fixes: seq<Fix>, merges: seq<Merge>)

  /** The readings and looks of one pass, each by when so many verdicts have landed: which heads are
      judged, the verdicts again when a review is in progress, whether that one still is, the verdicts
      before the status, the cancelling, the verdicts before settling, those before filing, and the
      filing itself; `until` is for a review filed in this pass. */
  datatype Readings = Readings(done: nat, duplicate: nat, looked: nat, judged: nat, cancel: nat,
                               again: nat, second: nat, filing: nat, until: nat)

  predicate Ordered(c: Case, from: nat, r: Readings) {
    && from <= r.done <= r.duplicate <= r.looked <= r.judged <= r.cancel <= r.again <= r.second <= r.filing
    && r.filing <= |c.story| && r.filing <= r.until
  }

  /** Nothing lands during the pass. */
  function Still(n: nat, until: nat): Readings {
    Readings(n, n, n, n, n, n, n, n, until)
  }

  /** What the first `n` verdicts want the status to be, and whether they make the head final. */
  function Wants(c: Case, n: nat): Status
    requires n <= |c.story|
  {
    Desired(c.story[..n], c.required)
  }

  predicate IsFinal(c: Case, n: nat, decider: Option<Lane>)
    requires n <= |c.story|
  {
    Judge(c.story[..n], c.required, decider).final
  }

  predicate Veto(v: Verdict) {
    !v.accept && LaneOf(v.lane) != {}
  }

  /** One of the verdicts from `m` to `n` is a veto. */
  predicate VetoBetween(c: Case, m: nat, n: nat)
    requires n <= |c.story|
  {
    exists k :: m <= k < n && Veto(c.story[k])
  }

  // ---------------------------------------------------------------- the guard of a filing

  predicate DistinctIds(rows: seq<Verdict>) {
    forall i, j :: 0 <= i < j < |rows| ==> rows[i].id != rows[j].id
  }

  function Ids(rows: seq<Verdict>): set<nat> {
    set r | r in rows :: r.id
  }

  lemma NewIdIsNew(story: seq<Verdict>, m: nat, k: nat)
    requires DistinctIds(story) && m <= k < |story|
    ensures story[k].id !in Ids(story[..m])
  {
    forall b | b in story[..m] ensures b.id != story[k].id {
      var i :| 0 <= i < m && story[..m][i] == b;
      assert story[i] == b;
    }
  }

  /** When the ids are the ones read before, nothing has landed since. */
  lemma SameIdsSameRows(story: seq<Verdict>, m: nat, n: nat)
    requires DistinctIds(story) && m <= n <= |story| && Ids(story[..n]) == Ids(story[..m])
    ensures m == n
  {
    if m < n {
      assert story[..n][m] == story[m];
      assert story[m] in story[..n];
      NewIdIsNew(story, m, m);
    }
  }

  // ---------------------------------------------------------------- what the calls do

  predicate Here(l: Option<Live>) {
    l.Some? && l.value.here
  }

  predicate IsLive(h: Head, snapshot: Live) {
    h.live.Some? && h.live.value.id == snapshot.id
  }

  /** The store once `n` verdicts have landed: a review whose own verdict is among them is finished. */
  function Landed(h: Head, n: nat): Head {
    h.(landed := n, live := if h.live.Some? && h.live.value.until < n then None else h.live)
  }

  function Posted(h: Head, s: Status, sent: bool): Head {
    if sent then h.(status := Some(s), posts := h.posts + [s]) else h
  }

  /** `_reconcile_terminal_status`: the status is made what the verdicts want, and nothing is posted
      when it already is; the second part says whether that succeeded. */
  function Reconciled(c: Case, h: Head, a: Answers, upTo: nat): (Head, bool)
    requires upTo <= |c.story|
  {
    if !a.current || !a.readable then (h, false)
    else
      var g := Landed(h, upTo);
      if h.status == Some(Wants(c, upTo)) then (g, true) else (Posted(g, Wants(c, upTo), a.posts), a.posts)
  }

  /** `_cancel_review_if_live`, when `n` verdicts have landed: a review that has finished meanwhile is
      left alone. */
  function Cancelled(h: Head, snapshot: Live, n: nat): Head {
    var g := Landed(h, n);
    if IsLive(g, snapshot) then g.(live := None) else g
  }

  /** Files a review task, unless a verdict landed since `expected` were read or a live review of
      the head exists. */
  function Filed(h: Head, expected: nat, author: Option<Lane>, filing: nat, until: nat): Head {
    var g := Landed(h, filing);
    if expected == filing && !Here(g.live)
    then g.(tasks := h.tasks + 1, live := Some(Live(h.tasks + 1, true, author, until))) else g
  }

  /** `_second_review`: only for a head without a veto and short of lanes; the lane that accepted
      first is its author, which keeps it off. */
  function SecondOf(c: Case, h: Head, first: Option<Lane>, upTo: nat, filing: nat, until: nat): Head
    requires upTo <= |c.story|
  {
    if Wants(c, upTo) != Pending then Landed(h, upTo) else Filed(h, upTo, first, filing, until)
  }

  /** A head with verdicts and no review in progress: set the status right; then merge a final head,
      or queue another reviewer for one that is short of lanes. */
  function SettleOf(c: Case, h: Head, a: Answers, r: Readings): Head
    requires Ordered(c, 0, r)
  {
    var (g, ok) := Reconciled(c, h, a, r.again);
    if !ok then g
    else if IsFinal(c, r.again, None) then Landed(g, r.second).(merges := g.merges + [Merge(r.again, None, r.second)])
    else if Short(c, r.again) then SecondOf(c, g, Some(Elder(c, r.again)), r.second, r.filing, r.until)
    else g
  }

  /** A lane has accepted the head and none has vetoed it. */
  predicate Short(c: Case, n: nat)
    requires n <= |c.story|
  {
    Lanes(c.story[..n], true) != {} && Lanes(c.story[..n], false) == {}
  }

  /** The first by name of the lanes that accepted. */
  function Elder(c: Case, n: nat): Lane
    requires n <= |c.story| && Short(c, n)
  {
    Order.FirstName(Lanes(c.story[..n], true))
  }

  /** A head that nobody has judged: filed unless a verdict has landed by now. */
  function FirstOf(h: Head, a: Answers, judged: nat, filing: nat, until: nat): Head {
    if judged > 0 then Landed(h, judged)
    else
      var g := Filed(h, 0, None, filing, until);
      Posted(g, Pending, a.posts && g.tasks != h.tasks)
  }

  function FinishOf(c: Case, h: Head, a: Answers, done: bool, r: Readings): Head
    requires Ordered(c, 0, r)
  {
    if done then SettleOf(c, h, a, r) else FirstOf(h, a, r.again, r.filing, r.until)
  }

  /** The review in progress is the additional one that the head still needs. */
  predicate Needed(c: Case, h: Head, last: Verdict, current: Live, r: Readings)
    requires Ordered(c, 0, r)
  {
    last.accept && Wants(c, r.duplicate) == Pending && IsLive(Landed(h, r.looked), current)
  }

  /** A judged head that had a review in progress: left alone while that one is needed, with the
      status put right; cancelled otherwise, unless it has finished by then. */
  function ContestedOf(c: Case, h: Head, a: Answers, last: Verdict, current: Live, r: Readings): Head
    requires Ordered(c, 0, r)
  {
    var g := Landed(h, r.duplicate);
    if !Needed(c, g, last, current, r) then FinishOf(c, Cancelled(g, current, r.cancel), a, true, r)
    else
      var (k, ok) := Reconciled(c, Landed(g, r.looked), a, r.judged);
      if !ok || Wants(c, r.judged) == Pending then k else FinishOf(c, Cancelled(k, current, r.cancel), a, true, r)
  }

  /** The pass of `run` over one open pull request that is not a draft; `snapshot` is its live review
      as the run read it before asking GitHub anything, and `which` the finished review of the head
      that sorts last. */
  function TickOf(c: Case, h: Head, a: Answers, snapshot: Option<Live>, which: nat, r: Readings): Head
    requires Ordered(c, h.landed, r) && (r.done > 0 ==> which < r.done)
  {
    if a.conflict then h
    else
      var g := Landed(h, r.done);
      if snapshot.None? then FinishOf(c, g, a, r.done > 0, r)
      else if !snapshot.value.here then FinishOf(c, Cancelled(g, snapshot.value, r.cancel), a, r.done > 0, r)
      else if r.done > 0 then ContestedOf(c, g, a, c.story[which], snapshot.value, r)
      else g
  }

  /** `on_verdict` for an accept: a veto keeps the status failing, a head short of lanes is held and
      gets a second review, and only a final head is approved and merged. */
  function AcceptOf(c: Case, h: Head, a: Answers, decider: Option<Lane>, judged: nat, second: nat, filing: nat,
                    until: nat): Head
    requires h.landed <= judged <= second <= filing <= |c.story|
  {
    var o := Judge(c.story[..judged], c.required, decider);
    var g := Landed(h, judged);
    if o.vetoes != {} then Posted(g, Failure, a.posts)
    else if !o.final then SecondOf(c, Posted(g, Pending, a.posts), decider, second, filing, until)
    else ApplyOf(g, a, decider, second)
  }

  /** A final head: success, the approval, the merge, with `late` verdicts landed by the last. */
  function ApplyOf(h: Head, a: Answers, decider: Option<Lane>, late: nat): Head {
    var g := Landed(Posted(h, Success, a.posts), late);
    g.(approvals := g.approvals + if a.approves then 1 else 0, merges := g.merges + [Merge(h.landed, decider, late)])
  }

  /** Another finished review of the head, among those listed, accepted it, bound to a lane or not. */
  predicate StandingAccept(id: nat, rows: seq<Verdict>, listed: set<nat>) {
    exists i :: 0 <= i < |rows| && rows[i].accept && rows[i].id != id && rows[i].id in listed
  }

  /** `on_verdict` for a needs-fix: never merges; the failure is posted unless another review has
      accepted the head, whose status it then leaves to the timer.  It looks among the `listed`
      reviews, a capped listing of all there are. */
  function NeedsFixOf(c: Case, h: Head, a: Answers, id: nat, listed: set<nat>, judged: nat): Head
    requires h.landed <= judged <= |c.story|
  {
    var g := Posted(Landed(h, judged), Failure, a.posts && !StandingAccept(id, c.story[..judged], listed));
    g.(requests := g.requests + if a.approves then 1 else 0, tasks := g.tasks + 1,
       fixes := g.fixes + [Fix(g.tasks + 1, id)])
  }

  // ---------------------------------------------------------------- what the status becomes

  /** GitHub can be asked, and the status is or becomes `want`. */
  predicate Answered(a: Answers, status: Option<Status>, want: Status) {
    a.current && a.readable && (a.posts || status == Some(want))
  }

  lemma ReconcileFacts(c: Case, h: Head, a: Answers, upTo: nat)
    requires upTo <= |c.story|
    ensures var (g, ok) := Reconciled(c, h, a, upTo);
            && (ok <==> Answered(a, h.status, Wants(c, upTo)))
            && (ok ==> g.status == Some(Wants(c, upTo)) && g.landed == upTo)
            && (!ok ==> g.status == h.status && g.posts == h.posts)
            && (h.status == Some(Wants(c, upTo)) ==> g.posts == h.posts)
            && ((g.landed == h.landed && g.live == h.live) || (g.landed == upTo && g.live == Landed(h, upTo).live))
            && g.tasks == h.tasks && g.merges == h.merges && g.approvals == h.approvals
  {}

  lemma HeldFacts(c: Case, h: Head, decider: Option<Lane>, second: nat, filing: nat, until: nat)
    requires h.landed <= second <= filing <= |c.story|
    ensures var g := SecondOf(c, h, decider, second, filing, until);
            && g.merges == h.merges && g.approvals == h.approvals && g.status == h.status
            && (h.status == g.status && h.posts == g.posts) && second <= g.landed <= filing
            && (if second == filing && Wants(c, second) == Pending && !Here(Landed(h, filing).live)
                then g.tasks == h.tasks + 1 && g.live == Some(Live(g.tasks, true, decider, until)) && g.landed == filing
                else g.tasks == h.tasks && g.live == Landed(h, g.landed).live)
  {}

  lemma PendingIsShort(c: Case, n: nat)
    requires n <= |c.story|
    ensures Wants(c, n) == Pending ==> !IsFinal(c, n, None)
    ensures !IsFinal(c, n, None) && Short(c, n) ==> Wants(c, n) == Pending
  {}

  /** The status can be set right, one lane has accepted and no lane vetoed, it is still so when read
      again, and nothing has landed since by the time of filing. */
  predicate Refiles(c: Case, h: Head, a: Answers, r: Readings)
    requires Ordered(c, 0, r)
  {
    && Answered(a, h.status, Wants(c, r.again)) && Wants(c, r.again) == Pending && Short(c, r.again)
    && Wants(c, r.second) == Pending && r.second == r.filing
  }

  /** Settling merges exactly on a final reading, once the status is right. */
  lemma SettleFacts(c: Case, h: Head, a: Answers, r: Readings)
    requires Ordered(c, 0, r) && h.landed <= r.again
    ensures var g := SettleOf(c, h, a, r);
            && g.status == (if Answered(a, h.status, Wants(c, r.again)) then Some(Wants(c, r.again)) else h.status)
            && g.merges == (if Answered(a, h.status, Wants(c, r.again)) && IsFinal(c, r.again, None)
                            then h.merges + [Merge(r.again, None, r.second)] else h.merges)
            && (h.status == Some(Wants(c, r.again)) ==> g.posts == h.posts)
            && (g.landed == h.landed || r.again <= g.landed <= r.filing)
  {
    ReconcileFacts(c, h, a, r.again);
    var g := Reconciled(c, h, a, r.again).0;
    hide Reconciled, Wants, IsFinal, SecondOf, Short, Elder;
    if Short(c, r.again) { HeldFacts(c, g, Some(Elder(c, r.again)), r.second, r.filing, r.until); }
  }

  /** And it files exactly for a head short of lanes that nobody is reviewing at that moment. */
  lemma SettleFiles(c: Case, h: Head, a: Answers, r: Readings)
    requires Ordered(c, 0, r) && h.landed <= r.again
    ensures var g := SettleOf(c, h, a, r);
            if Refiles(c, h, a, r) && !Here(Landed(h, r.filing).live)
            then g.tasks == h.tasks + 1 && g.landed == r.filing
                 && g.live == Some(Live(h.tasks + 1, true, Some(Elder(c, r.again)), r.until))
            else g.tasks == h.tasks
  {
    ReconcileFacts(c, h, a, r.again);
    PendingIsShort(c, r.again);
    var g := Reconciled(c, h, a, r.again).0;
    hide Reconciled, Wants, IsFinal, SecondOf, Short, Elder;
    if Short(c, r.again) { HeldFacts(c, g, Some(Elder(c, r.again)), r.second, r.filing, r.until); }
  }

  /** The review in progress stays and the pass stops. */
  predicate Stops(c: Case, h: Head, a: Answers, snapshot: Option<Live>, which: nat, r: Readings)
    requires Ordered(c, 0, r) && (r.done > 0 ==> which < r.done)
  {
    && r.done > 0 && Here(snapshot) && Needed(c, h, c.story[which], snapshot.value, r)
    && (!Answered(a, h.status, Wants(c, r.judged)) || Wants(c, r.judged) == Pending)
  }

  /** What is in progress when the pass comes to file: not what it has cancelled, nor what has finished. */
  function Standing(h: Head, snapshot: Option<Live>, r: Readings): Option<Live> {
    if snapshot.Some? && IsLive(Landed(h, r.cancel), snapshot.value) then None else Landed(h, r.filing).live
  }

  /** The pass over a judged head ends in settling it, in whatever state the earlier part left it. */
  lemma TickSettles(c: Case, h: Head, a: Answers, snapshot: Option<Live>, which: nat, r: Readings) returns (g: Head)
    requires Ordered(c, h.landed, r) && r.done > 0 && which < r.done && !a.conflict
    requires !Stops(c, h, a, snapshot, which, r)
    ensures TickOf(c, h, a, snapshot, which, r) == SettleOf(c, g, a, r)
    ensures g.merges == h.merges && g.tasks == h.tasks
    ensures Answered(a, g.status, Wants(c, r.again)) <==> Answered(a, h.status, Wants(c, r.again))
    ensures h.status == Some(Wants(c, r.judged)) ==> g.posts == h.posts && g.status == h.status
    ensures Landed(g, r.filing).live == Standing(h, snapshot, r)
    ensures h.landed <= g.landed <= r.cancel
  {
    g := Landed(h, r.done);
    if snapshot.Some? {
      if snapshot.value.here {
        g := Landed(g, r.duplicate);
        if Needed(c, g, c.story[which], snapshot.value, r) {
          ReconcileFacts(c, Landed(g, r.looked), a, r.judged);
          g := Reconciled(c, Landed(g, r.looked), a, r.judged).0;
        }
      }
      g := Cancelled(g, snapshot.value, r.cancel);
    }
  }

  lemma TickStops(c: Case, h: Head, a: Answers, snapshot: Option<Live>, which: nat, r: Readings)
    requires Ordered(c, h.landed, r) && r.done > 0 && which < r.done && !a.conflict
    requires Stops(c, h, a, snapshot, which, r)
    ensures TickOf(c, h, a, snapshot, which, r) == Reconciled(c, Landed(h, r.looked), a, r.judged).0
  {
    ReconcileFacts(c, Landed(h, r.looked), a, r.judged);
  }

  /** A pass over a judged head, with GitHub answering, leaves the status that its last reading
      wants: `judged` if a needed review is in progress, `again` otherwise. */
  lemma TickSetsStatus(c: Case, h: Head, a: Answers, snapshot: Option<Live>, which: nat, r: Readings)
    requires Ordered(c, h.landed, r) && r.done > 0 && which < r.done
    requires !a.conflict && a.current && a.readable && a.posts
    ensures TickOf(c, h, a, snapshot, which, r).status
            == Some(Wants(c, if Stops(c, h, a, snapshot, which, r) then r.judged else r.again))
  {
    if Stops(c, h, a, snapshot, which, r) {
      TickStops(c, h, a, snapshot, which, r);
      ReconcileFacts(c, Landed(h, r.looked), a, r.judged);
    } else {
      var g := TickSettles(c, h, a, snapshot, which, r);
      SettleFacts(c, g, a, r);
    }
  }

  /** Nothing is posted over a judged head whose status is already what its readings want, whatever
      review is in progress and whatever GitHub answers. */
  lemma TickPostsNothing(c: Case, h: Head, a: Answers, snapshot: Option<Live>, which: nat, r: Readings)
    requires Ordered(c, h.landed, r) && r.done > 0 && which < r.done
    requires h.status == Some(Wants(c, r.judged)) && Wants(c, r.again) == Wants(c, r.judged)
    ensures TickOf(c, h, a, snapshot, which, r).posts == h.posts
            && TickOf(c, h, a, snapshot, which, r).status == h.status
  {
    if !a.conflict {
      if Stops(c, h, a, snapshot, which, r) {
        TickStops(c, h, a, snapshot, which, r);
        ReconcileFacts(c, Landed(h, r.looked), a, r.judged);
      } else {
        var g := TickSettles(c, h, a, snapshot, which, r);
        SettleFacts(c, g, a, r);
      }
    }
  }

  /** A review is filed: the first one, for a head that nobody has judged or is reviewing; or one more,
      for a judged head short of lanes, once the one in progress has finished or been cancelled. */
  predicate Files(c: Case, h: Head, a: Answers, snapshot: Option<Live>, which: nat, r: Readings)
    requires Ordered(c, 0, r) && (r.done > 0 ==> which < r.done)
  {
    && !a.conflict && !Here(Standing(h, snapshot, r))
    && if r.done == 0 then !Here(snapshot) && r.filing == 0
       else !Stops(c, h, a, snapshot, which, r) && Refiles(c, h, a, r)
  }

  /** The review that such a pass files: without an author, or by the first lane that accepted. */
  function NewReview(c: Case, h: Head, r: Readings): Live
    requires Ordered(c, 0, r) && (r.done > 0 ==> Short(c, r.again))
  {
    Live(h.tasks + 1, true, if r.done == 0 then None else Some(Elder(c, r.again)), r.until)
  }

  lemma UnjudgedFiles(c: Case, h: Head, a: Answers, snapshot: Option<Live>, which: nat, r: Readings)
    requires Ordered(c, h.landed, r) && r.done == 0
    ensures var g := TickOf(c, h, a, snapshot, which, r);
            if Files(c, h, a, snapshot, which, r)
            then g.tasks == h.tasks + 1 && g.landed == 0 && g.live == Some(NewReview(c, h, r))
              && (a.posts ==> g.status == Some(Pending))
            else g.tasks == h.tasks
  {
    hide SettleOf;
  }

  lemma JudgedFiles(c: Case, h: Head, a: Answers, snapshot: Option<Live>, which: nat, r: Readings)
    requires Ordered(c, h.landed, r) && r.done > 0 && which < r.done
    ensures var g := TickOf(c, h, a, snapshot, which, r);
            if Files(c, h, a, snapshot, which, r)
            then g.tasks == h.tasks + 1 && g.landed == r.filing && g.live == Some(NewReview(c, h, r))
            else g.tasks == h.tasks
  {
    hide SettleOf, Wants, Short, Elder, Stops;
    if !a.conflict {
      hide TickOf;
      if Stops(c, h, a, snapshot, which, r) {
        TickStops(c, h, a, snapshot, which, r);
        ReconcileFacts(c, Landed(h, r.looked), a, r.judged);
      } else {
        var g := TickSettles(c, h, a, snapshot, which, r);
        SettleFiles(c, g, a, r);
      }
    }
  }

  /** Exactly when a pass files a review, and which: at most one, for a head that at the moment of filing
      is unjudged, or has no veto and too few lanes. */
  lemma TickFilesExactly(c: Case, h: Head, a: Answers, snapshot: Option<Live>, which: nat, r: Readings)
    requires Ordered(c, h.landed, r) && (r.done > 0 ==> which < r.done)
    ensures var g := TickOf(c, h, a, snapshot, which, r);
            if Files(c, h, a, snapshot, which, r)
            then && g.tasks == h.tasks + 1 && g.landed == r.filing && g.live == Some(NewReview(c, h, r))
                 && (if r.done == 0 then g.landed == 0 && (a.posts ==> g.status == Some(Pending))
                     else Wants(c, g.landed) == Pending)
            else g.tasks == h.tasks
  {
    if r.done == 0 {
      UnjudgedFiles(c, h, a, snapshot, which, r);
    } else {
      JudgedFiles(c, h, a, snapshot, which, r);
    }
  }

  /** Two passes with no new verdict, the first with GitHub answering: the second posts nothing and
      changes no status, whatever review was or is in progress, for a judged and an unjudged head. */
  lemma RepeatedTickPostsNothing(c: Case, h: Head, a: Answers, b: Answers, which: nat, other: nat, n: nat, u: nat,
                                 v: nat)
    requires h.landed <= n <= |c.story| && (n > 0 ==> which < n && other < n) && n <= u && n <= v
    requires !a.conflict && a.current && a.readable && a.posts
    ensures var h1 := TickOf(c, h, a, h.live, which, Still(n, u));
            h1.landed <= n && var h2 := TickOf(c, h1, b, h1.live, other, Still(n, v));
            h2.posts == h1.posts && h2.status == h1.status
  {
    var h1 := TickOf(c, h, a, h.live, which, Still(n, u));
    LandedWithin(c, h, a, h.live, which, Still(n, u));
    if n > 0 {
      TickSetsStatus(c, h, a, h.live, which, Still(n, u));
      TickPostsNothing(c, h1, b, h1.live, other, Still(n, v));
    } else {
      assert Here(h1.live);
    }
  }

  /** What a pass has read never exceeds its last reading, and never goes back. */
  lemma LandedWithin(c: Case, h: Head, a: Answers, snapshot: Option<Live>, which: nat, r: Readings)
    requires Ordered(c, h.landed, r) && (r.done > 0 ==> which < r.done)
    ensures h.landed <= TickOf(c, h, a, snapshot, which, r).landed <= r.filing
  {
    if !a.conflict && r.done > 0 {
      if Stops(c, h, a, snapshot, which, r) {
        TickStops(c, h, a, snapshot, which, r);
      } else {
        var g := TickSettles(c, h, a, snapshot, which, r);
        SettleFacts(c, g, a, r);
      }
    }
  }

  /** But a repeated pass is not always idle: it cancels the additional review and files it again
      exactly when the head waits for more lanes, one has accepted, and the review that sorts last is
      a needs-fix of nobody's lane. */
  lemma RepeatedTickRefiles(c: Case, h: Head, a: Answers, b: Answers, which: nat, other: nat, n: nat, u: nat, v: nat)
    requires h.landed <= n <= |c.story| && 0 < n && which < n && other < n && n <= u && n <= v
    requires !a.conflict && a.current && a.readable && a.posts && !b.conflict && b.current && b.readable
    ensures var h1 := TickOf(c, h, a, h.live, which, Still(n, u));
            h1.landed <= n && var h2 := TickOf(c, h1, b, h1.live, other, Still(n, v));
            && (h2.tasks != h1.tasks <==>
                  Wants(c, n) == Pending && Lanes(c.story[..n], true) != {} && !c.story[other].accept)
            && (h2.tasks != h1.tasks ==> LaneOf(c.story[other].lane) == {})
  {
    var h1 := TickOf(c, h, a, h.live, which, Still(n, u));
    LandedWithin(c, h, a, h.live, which, Still(n, u));
    TickSetsStatus(c, h, a, h.live, which, Still(n, u));
    if Wants(c, n) == Pending && Lanes(c.story[..n], true) != {} { ReviewedAfterwards(c, h, a, which, n, u); }
    TickFilesExactly(c, h1, b, h1.live, other, Still(n, v));
    if Wants(c, n) == Pending && !c.story[other].accept {
      LanesAreVoices(c.story[..n]);
      assert c.story[..n][other] == c.story[other];
      if LaneOf(c.story[other].lane) != {} { assert Vetoed(c.story[..n], c.story[other].lane.value); }
    }
  }

  /** After a pass with GitHub answering, a head short of lanes that one has accepted is under review. */
  lemma ReviewedAfterwards(c: Case, h: Head, a: Answers, which: nat, n: nat, u: nat)
    requires h.landed <= n <= |c.story| && 0 < n && which < n && n <= u
    requires !a.conflict && a.current && a.readable && a.posts
    requires Wants(c, n) == Pending && Lanes(c.story[..n], true) != {}
    ensures var g := TickOf(c, h, a, h.live, which, Still(n, u)); Here(g.live) && g.live.value.until >= n
  {
    if Stops(c, h, a, h.live, which, Still(n, u)) {
      TickStops(c, h, a, h.live, which, Still(n, u));
      ReconcileFacts(c, Landed(h, n), a, n);
    } else {
      TickFilesExactly(c, h, a, h.live, which, Still(n, u));
    }
  }

  /** A needs-fix sets the status to failure exactly when it can be posted and no other review listed
      stands accepted; otherwise the status stays as it was, with the verdict already counted.  The
      next pass of the timer then puts it right. */
  lemma NeedsFixIsPutRight(c: Case, h: Head, a: Answers, id: nat, listed: set<nat>, n: nat, b: Answers, which: nat,
                           u: nat)
    requires h.landed <= n <= |c.story| && which < n <= u
    requires !b.conflict && b.current && b.readable && b.posts
    ensures var g := NeedsFixOf(c, h, a, id, listed, n);
            && g.status == (if a.posts && !StandingAccept(id, c.story[..n], listed) then Some(Failure) else h.status)
            && g.merges == h.merges && g.landed == n
            && TickOf(c, g, b, g.live, which, Still(n, u)).status == Some(Wants(c, n))
  {
    var g := NeedsFixOf(c, h, a, id, listed, n);
    TickSetsStatus(c, g, b, g.live, which, Still(n, u));
  }

  // ---------------------------------------------------------------- which merges are asked for

  /** Every merge was decided on a reading that found the head final. */
  predicate Decided(story: seq<Verdict>, required: nat, landed: nat, merges: seq<Merge>) {
    landed <= |story| && forall i :: 0 <= i < |merges| ==>
      merges[i].seen <= merges[i].late <= landed && Judge(story[..merges[i].seen], required, merges[i].decider).final
  }

  /** So every merge that was ever asked for had been decided before the first veto landed. */
  lemma NoMergeDecidedAfterVeto(story: seq<Verdict>, required: nat, landed: nat, merges: seq<Merge>, k: nat, i: nat)
    requires Decided(story, required, landed, merges) && i < |merges|
    requires k < |story| && !story[k].accept && LaneOf(story[k].lane) != {}
    ensures merges[i].seen <= k
  {
    if k < merges[i].seen {
      VetoStands(story, k, merges[i].seen, required, merges[i].decider);
    }
  }

  /** Exactly when a pass asks for a merge, and which. */
  lemma TickMergesExactly(c: Case, h: Head, a: Answers, snapshot: Option<Live>, which: nat, r: Readings)
    requires Ordered(c, h.landed, r) && (r.done > 0 ==> which < r.done)
    ensures TickOf(c, h, a, snapshot, which, r).merges
            == h.merges + if && !a.conflict && r.done > 0 && !Stops(c, h, a, snapshot, which, r)
                             && Answered(a, h.status, Wants(c, r.again)) && IsFinal(c, r.again, None)
                          then [Merge(r.again, None, r.second)] else []
  {
    if !a.conflict && r.done > 0 {
      if Stops(c, h, a, snapshot, which, r) {
        TickStops(c, h, a, snapshot, which, r);
      } else {
        var g := TickSettles(c, h, a, snapshot, which, r);
        SettleFacts(c, g, a, r);
      }
    }
    assert h.merges + [] == h.merges;
  }

  lemma MergeIsDecided(c: Case, h: Head, m: Merge, landed: nat)
    requires Decided(c.story, c.required, h.landed, h.merges) && h.landed <= landed <= |c.story|
    requires m.seen <= m.late <= landed && IsFinal(c, m.seen, m.decider)
    ensures Decided(c.story, c.required, landed, h.merges + [m])
  {}

  /** Whatever the pass reads and GitHub answers, merges stay decided on final readings. */
  lemma TickKeepsDecided(c: Case, h: Head, a: Answers, snapshot: Option<Live>, which: nat, r: Readings)
    requires Ordered(c, h.landed, r) && (r.done > 0 ==> which < r.done)
    requires Decided(c.story, c.required, h.landed, h.merges)
    ensures var g := TickOf(c, h, a, snapshot, which, r); Decided(c.story, c.required, g.landed, g.merges)
  {
    TickMergesExactly(c, h, a, snapshot, which, r);
    LandedWithin(c, h, a, snapshot, which, r);
    var g := TickOf(c, h, a, snapshot, which, r);
    if g.merges != h.merges + [] {
      MergeLanded(c, h, a, snapshot, which, r);
      MergeIsDecided(c, h, Merge(r.again, None, r.second), g.landed);
    }
  }

  lemma MergeLanded(c: Case, h: Head, a: Answers, snapshot: Option<Live>, which: nat, r: Readings)
    requires Ordered(c, h.landed, r) && (r.done > 0 ==> which < r.done)
    requires TickOf(c, h, a, snapshot, which, r).merges != h.merges + []
    ensures TickOf(c, h, a, snapshot, which, r).landed == r.second
  {
    TickMergesExactly(c, h, a, snapshot, which, r);
    var g := TickSettles(c, h, a, snapshot, which, r);
    ReconcileFacts(c, g, a, r.again);
  }

  /** Exactly when a pass asks for a merge although a veto has landed: its deciding reading is final
      and the veto lands after that reading and before the call. */
  lemma LateVetoInTick(c: Case, h: Head, a: Answers, snapshot: Option<Live>, which: nat, r: Readings)
    requires Ordered(c, h.landed, r) && (r.done > 0 ==> which < r.done)
    ensures var g := TickOf(c, h, a, snapshot, which, r);
            (g.merges != h.merges + [] && VetoBetween(c, 0, r.second)) <==>
              && !a.conflict && r.done > 0 && !Stops(c, h, a, snapshot, which, r)
              && Answered(a, h.status, Wants(c, r.again)) && IsFinal(c, r.again, None)
              && VetoBetween(c, r.again, r.second)
  {
    TickMergesExactly(c, h, a, snapshot, which, r);
    if IsFinal(c, r.again, None) { LateIsBetween(c, r.again, r.second, None); }
  }

  lemma LateIsBetween(c: Case, seen: nat, late: nat, decider: Option<Lane>)
    requires seen <= late <= |c.story| && IsFinal(c, seen, decider)
    ensures VetoBetween(c, 0, late) <==> VetoBetween(c, seen, late)
  {
    if k :| 0 <= k < late && Veto(c.story[k]) {
      if k < seen { VetoStands(c.story, k, seen, c.required, decider); }
    }
  }

  /** The handler of an accept approves and asks for a merge exactly on a final reading; a veto is
      answered with a failure, and a head short of lanes is held. */
  lemma AcceptFacts(c: Case, h: Head, a: Answers, decider: Option<Lane>, judged: nat, second: nat, filing: nat,
                    until: nat)
    requires h.landed <= judged <= second <= filing <= |c.story|
    ensures var o := Judge(c.story[..judged], c.required, decider);
            var g := AcceptOf(c, h, a, decider, judged, second, filing, until);
            && g.merges == (if o.final then h.merges + [Merge(judged, decider, second)] else h.merges)
            && g.approvals == (if o.final && a.approves then h.approvals + 1 else h.approvals)
            && g.status == (if !a.posts then h.status
                            else Some(if o.vetoes != {} then Failure else if o.final then Success else Pending))
            && (g.tasks != h.tasks ==> o.vetoes == {} && !o.final && Wants(c, filing) == Pending)
            && (o.vetoes == {} && !o.final && judged == filing ==>
                  Here(Landed(h, judged).live)
                  || g.live == Some(Live(h.tasks + 1, true, decider, until)))
            && judged <= g.landed <= filing
  {
    if Judge(c.story[..judged], c.required, decider).vetoes == {} && !IsFinal(c, judged, decider) {
      ShortWithoutDecider(c, judged, decider);
      HeldFacts(c, Posted(Landed(h, judged), Pending, a.posts), decider, second, filing, until);
    }
  }

  /** A reading that is short of lanes with the deciding one is short without it. */
  lemma ShortWithoutDecider(c: Case, n: nat, decider: Option<Lane>)
    requires n <= |c.story| && !IsFinal(c, n, decider) && Lanes(c.story[..n], false) == {}
    ensures Wants(c, n) == Pending
  {
    var accepts := Lanes(c.story[..n], true);
    SubsetIsSmaller(accepts + LaneOf(None), accepts + LaneOf(decider));
  }

  lemma AcceptKeepsDecided(c: Case, h: Head, a: Answers, decider: Option<Lane>, judged: nat, second: nat, filing: nat,
                           until: nat)
    requires h.landed <= judged <= second <= filing <= |c.story|
    requires Decided(c.story, c.required, h.landed, h.merges)
    ensures var g := AcceptOf(c, h, a, decider, judged, second, filing, until);
            Decided(c.story, c.required, g.landed, g.merges)
  {
    AcceptFacts(c, h, a, decider, judged, second, filing, until);
    if IsFinal(c, judged, decider) { MergeIsDecided(c, h, Merge(judged, decider, second), second); }
  }

  /** Exactly when the handler asks for a merge although a veto has landed. */
  lemma LateVetoInAccept(c: Case, h: Head, a: Answers, decider: Option<Lane>, judged: nat, second: nat, filing: nat,
                         until: nat)
    requires h.landed <= judged <= second <= filing <= |c.story|
    ensures var g := AcceptOf(c, h, a, decider, judged, second, filing, until);
            (g.merges != h.merges && VetoBetween(c, 0, second)) <==>
              IsFinal(c, judged, decider) && VetoBetween(c, judged, second)
  {
    AcceptFacts(c, h, a, decider, judged, second, filing, until);
    if IsFinal(c, judged, decider) { LateIsBetween(c, judged, second, decider); }
  }

  lemma OneVoice(v: Verdict, accept: bool)
    ensures Lanes([v], accept) == if v.accept == accept then LaneOf(v.lane) else {}
  {
    assert [v][..0] == [] && Lanes([v][..0], accept) == {};
  }

  /** A veto that lands between the decision and the call does not stop the merge: here it is the
      second verdict, and the merge decided on the first is asked for when both have landed. */
  lemma VetoCanComeTooLate(story: seq<Verdict>)
    requires story == [Verdict(1, Some("a"), true), Verdict(2, Some("b"), false)]
    ensures Judge(story[..1], 1, None).final && !Judge(story[..2], 1, None).final
    ensures Decided(story, 1, 2, [Merge(1, None, 2)]) && VetoBetween(Case(story, 1), 1, 2)
  {
    assert story[..1] == [story[0]];
    OneVoice(story[0], true);
    OneVoice(story[0], false);
    assert LaneOf(story[0].lane) == {"a"} && LaneOf(None) == {};
    VetoStands(story, 1, 2, 1, None);
    assert Veto(story[1]);
  }

  /** That run, through the handler of the first accept: the second verdict lands while the approval
      is being posted. */
  method MergeOverVeto(a: Answers) returns (sync: Sync, asked: bool)
    ensures fresh(sync) && sync.Valid() && VetoBetween(sync.Of(), 0, sync.landed)
    ensures sync.merges == [Merge(1, None, 2)] && asked == a.merges
  {
    var story := [Verdict(1, Some("a"), true), Verdict(2, Some("b"), false)];
    VetoCanComeTooLate(story);
    sync := new Sync(1, story);
    AcceptFacts(sync.Of(), sync.Now(), a, None, 1, 2, 2, 2);
    asked := sync.OnAccept(a, None, 1, 2, 2, 2);
  }

  // ---------------------------------------------------------------- the timer and the handler

  class Sync {
    const required: nat
    /** The verdicts of this head in the order in which they land, whatever that is. */
    const story: seq<Verdict>
    /** How many of them have landed; the finished reviews in the store. */
    var landed: nat
    var live: Option<Live>
    var status: Option<Status>
    var posts: seq<Status>
    var approvals: nat
    var requests: nat
    var tasks: nat
    var fixes: seq<Fix>
    ghost var merges: seq<Merge>

    ghost predicate Valid()
      reads this
    {
      Decided(story, required, landed, merges) && DistinctIds(story)
    }

    function Of(): Case {
      Case(story, required)
    }

    ghost function Now(): Head
      reads this
    {
      Head(landed, live, status, posts, approvals, requests, tasks, fixes, merges)
    }

    constructor (required: nat, story: seq<Verdict>)
      requires DistinctIds(story)
      ensures Valid() && Now() == Head(0, None, None, [], 0, 0, 0, [], [])
      ensures this.story == story && this.required == if required < 1 then 1 else required
    {
      this.required := if required < 1 then 1 else required;
      this.story := story;
      landed, live, status, posts, approvals, requests, tasks, fixes := 0, None, None, [], 0, 0, 0, [];
      merges := [];
    }

    /** Meanwhile verdicts land, and the review in progress may be finished by its own. */
    method Land(upTo: nat)
      requires Valid() && landed <= upTo <= |story|
      modifies this`landed, this`live
      ensures Valid() && Now() == Landed(old(Now()), upTo)
    {
      landed := upTo;
      if live.Some? && live.value.until < upTo {
        live := None;
      }
    }

    /** A reading of the store, by when `upTo` verdicts have landed. */
    method Read(upTo: nat) returns (rows: seq<Verdict>)
      requires Valid() && landed <= upTo <= |story|
      modifies this`landed, this`live
      ensures Valid() && Now() == Landed(old(Now()), upTo) && rows == story[..upTo]
    {
      Land(upTo);
      rows := story[..upTo];
    }

    method Post(s: Status, accepted: bool) returns (sent: bool)
      modifies this`status, this`posts
      ensures sent == accepted && Now() == Posted(old(Now()), s, accepted)
    {
      if accepted {
        status, posts := Some(s), posts + [s];
      }
      sent := accepted;
    }

    /** Asks GitHub for the merge, on a decision that read `seen` verdicts, when `late` have landed. */
    method MergePull(ghost seen: nat, ghost decider: Option<Lane>, late: nat, accepted: bool) returns (merged: bool)
      requires Valid() && seen <= landed <= late <= |story| && IsFinal(Of(), seen, decider)
      modifies this`landed, this`live, this`merges
      ensures Valid() && merged == accepted
      ensures Now() == Landed(old(Now()), late).(merges := old(merges) + [Merge(seen, decider, late)])
    {
      Land(late);
      merges := merges + [Merge(seen, decider, late)];
      merged := accepted;
    }

    method Reconcile(a: Answers, upTo: nat) returns (out: Option<Outcome>)
      requires Valid() && landed <= upTo <= |story|
      modifies this`landed, this`live, this`status, this`posts
      ensures Valid() && (Now(), out.Some?) == Reconciled(Of(), old(Now()), a, upTo)
      ensures out.Some? ==> out.value == Judge(story[..upTo], required, None) && landed == upTo
    {
      if !a.current || !a.readable {
        return None;
      }
      var before := status;
      var rows := Read(upTo);
      var o := Judge(rows, required, None);
      var desired := if o.vetoes != {} then Failure else if o.final then Success else Pending;
      if before != Some(desired) {
        var sent := Post(desired, a.posts);
        if !sent {
          return None;
        }
      }
      out := Some(o);
    }

    method CancelIfLive(snapshot: Live, upTo: nat) returns (cancelled: bool)
      requires Valid() && landed <= upTo <= |story|
      modifies this`landed, this`live
      ensures Valid() && Now() == Cancelled(old(Now()), snapshot, upTo)
      ensures cancelled == IsLive(Landed(old(Now()), upTo), snapshot)
    {
      Land(upTo);
      cancelled := live.Some? && live.value.id == snapshot.id;
      if cancelled {
        live := None;
      }
    }

    /** Files a review task, unless a verdict landed since `expected` was read or a live review of
        the head exists. */
    method File(ghost read: nat, expected: set<nat>, author: Option<Lane>, upTo: nat, until: nat)
      returns (filed: Option<nat>)
      requires Valid() && landed <= upTo <= |story| && read <= upTo && expected == Ids(story[..read])
      modifies this`landed, this`live, this`tasks
      ensures Valid() && landed == upTo && Now() == Filed(old(Now()), read, author, upTo, until)
      ensures filed.Some? <==> read == upTo && !Here(Landed(old(Now()), upTo).live)
    {
      var rows := Read(upTo);
      if Ids(rows) == expected {
        SameIdsSameRows(story, read, upTo);
      }
      if Ids(rows) != expected || (live.Some? && live.value.here) {
        return None;
      }
      tasks := tasks + 1;
      live := Some(Live(tasks, true, author, until));
      filed := Some(tasks);
    }

    method SecondReview(first: Option<Lane>, upTo: nat, filing: nat, until: nat)
      requires Valid() && landed <= upTo <= filing <= |story|
      modifies this`landed, this`live, this`tasks
      ensures Valid() && Now() == SecondOf(Of(), old(Now()), first, upTo, filing, until)
    {
      var rows := Read(upTo);
      var o := Judge(rows, required, None);
      if o.vetoes != {} || |o.accepts| >= required {
        return;
      }
      var filed := File(upTo, Ids(rows), first, filing, until);
    }

    method Settle(a: Answers, r: Readings)
      requires Valid() && Ordered(Of(), 0, r) && landed <= r.again
      modifies this`landed, this`live, this`status, this`posts, this`tasks, this`merges
      ensures Valid() && Now() == SettleOf(Of(), old(Now()), a, r)
    {
      var outcome := Reconcile(a, r.again);
      if outcome.None? {
        return;
      }
      var o := outcome.value;
      assert o.accepts == Lanes(story[..r.again], true);
      if o.final {
        var merged := MergePull(r.again, None, r.second, a.merges);
      } else if o.accepts != {} && o.vetoes == {} {
        SecondReview(Some(Order.FirstName(o.accepts)), r.second, r.filing, r.until);
      }
    }

    method FirstReview(a: Answers, judged: nat, filing: nat, until: nat)
      requires Valid() && landed <= judged <= filing <= |story|
      modifies this`landed, this`live, this`status, this`posts, this`tasks
      ensures Valid() && Now() == FirstOf(old(Now()), a, judged, filing, until)
    {
      var rows := Read(judged);
      if rows != [] {
        return;
      }
      assert Ids(story[..0]) == {};
      var filed := File(0, {}, None, filing, until);
      if filed.Some? {
        var sent := Post(Pending, a.posts);
      }
    }

    /** Nobody is reviewing the head. */
    method Finish(a: Answers, done: bool, r: Readings)
      requires Valid() && Ordered(Of(), 0, r) && landed <= r.again
      modifies this`landed, this`live, this`status, this`posts, this`tasks, this`merges
      ensures Valid() && Now() == FinishOf(Of(), old(Now()), a, done, r)
    {
      if done {
        Settle(a, r);
      } else {
        FirstReview(a, r.again, r.filing, r.until);
      }
    }

    /** The verdicts are read; only if they ask for another lane is the review in progress looked at. */
    method StillNeeded(last: Verdict, current: Live, r: Readings) returns (needed: bool)
      requires Valid() && Ordered(Of(), landed, r)
      modifies this`landed, this`live
      ensures Valid() && needed == Needed(Of(), Landed(old(Now()), r.duplicate), last, current, r)
      ensures r.duplicate <= landed <= r.looked && Now() == Landed(old(Now()), landed)
              && (needed ==> landed == r.looked)
    {
      var rows := Read(r.duplicate);
      var o := Judge(rows, required, None);
      needed := last.accept && !o.final && o.vetoes == {};
      if needed {
        Land(r.looked);
        needed := live.Some? && live.value.id == current.id;
      }
    }

    /** A judged head that had a review in progress. */
    method Contested(a: Answers, last: Verdict, current: Live, r: Readings)
      requires Valid() && Ordered(Of(), landed, r)
      modifies this`landed, this`live, this`status, this`posts, this`tasks, this`merges
      ensures Valid() && Now() == ContestedOf(Of(), old(Now()), a, last, current, r)
    {
      var needed := StillNeeded(last, current, r);
      if needed {
        var outcome := Reconcile(a, r.judged);
        if outcome.None? || (!outcome.value.final && outcome.value.vetoes == {}) {
          return;
        }
      }
      var cancelled := CancelIfLive(current, r.cancel);
      Finish(a, true, r);
    }

    method Tick(a: Answers, snapshot: Option<Live>, which: nat, r: Readings)
      requires Valid() && Ordered(Of(), landed, r) && (r.done > 0 ==> which < r.done)
      modifies this
      ensures Valid() && Now() == TickOf(Of(), old(Now()), a, snapshot, which, r)
    {
      if a.conflict {
        return;
      }
      var rows := Read(r.done);
      var current := snapshot;
      if current.Some? && !current.value.here {
        var moved := CancelIfLive(current.value, r.cancel);
        current := None;
      }
      if current.None? {
        Finish(a, rows != [], r);
      } else if rows != [] {
        Contested(a, rows[which], current.value, r);
      }
    }

    method OnAccept(a: Answers, decider: Option<Lane>, judged: nat, second: nat, filing: nat, until: nat)
      returns (merged: bool)
      requires Valid() && landed <= judged <= second <= filing <= |story|
      modifies this
      ensures Valid() && Now() == AcceptOf(Of(), old(Now()), a, decider, judged, second, filing, until)
      ensures merged == (IsFinal(Of(), judged, decider) && a.merges)
    {
      merged := false;
      var rows := Read(judged);
      var o := Judge(rows, required, decider);
      if o.vetoes != {} && !o.final {
        var sent := Post(Failure, a.posts);
      } else if !o.final {
        var sent := Post(Pending, a.posts);
        SecondReview(decider, second, filing, until);
      } else {
        merged := Apply(a, decider, second);
      }
    }

    method Apply(a: Answers, decider: Option<Lane>, late: nat) returns (merged: bool)
      requires Valid() && landed <= late <= |story| && IsFinal(Of(), landed, decider)
      modifies this`landed, this`live, this`status, this`posts, this`approvals, this`merges
      ensures Valid() && Now() == ApplyOf(old(Now()), a, decider, late) && merged == a.merges
    {
      var sent := Post(Success, a.posts);
      if a.approves {
        approvals := approvals + 1;
      }
      merged := MergePull(landed, decider, late, a.merges);
    }

    method OnNeedsFix(a: Answers, id: nat, listed: set<nat>, judged: nat)
      requires Valid() && landed <= judged <= |story|
      modifies this`landed, this`live, this`status, this`posts, this`requests, this`tasks, this`fixes
      ensures Valid() && Now() == NeedsFixOf(Of(), old(Now()), a, id, listed, judged)
    {
      var rows := Read(judged);
      if !StandingAccept(id, rows, listed) {
        var sent := Post(Failure, a.posts);
      }
      if a.approves {
        requests := requests + 1;
      }
      tasks := tasks + 1;
      fixes := fixes + [Fix(tasks, id)];
    }
  }
}
