/** The tables of the allocator: what an offer, a review submission and an allocation pass make of
    them, and who may never be handed a review. */
module Allocation {
  import opened Collections
  import opened Wrappers
  import opened Text
  import Decimal
  import Matching
  import Order

  type Pane = string
  type TaskId = string
  type Tag = string

  datatype Status = Open | InProgress | Blocked | Done | Cancelled

  /** `waits` is whether a dependency is outstanding, `held` whether there is a block reason. */
  datatype Task = Task(
    shared: bool, body: string, status: Status, rank: nat, created: int, assignees: set<Pane>, multi: bool,
    waits: bool, held: bool, attempts: nat, parent: Option<TaskId>, createdBy: Option<Pane>, completedBy: Option<Pane>)

  datatype Lease = Lease(task: TaskId, pane: Pane, expires: int)

  datatype Handoff = Handoff(task: TaskId, pane: Pane, cancelled: bool)

  datatype Worker = Worker(pools: set<Tag>, roles: set<Tag>, skills: set<Tag>, enabled: bool, lastAssigned: int)

  datatype Offer = Offer(pool: Tag, role: Tag, needs: set<Tag>, excluded: set<Pane>, owners: set<Pane>, ready: bool)

  datatype Review = Review(task: TaskId, revision: string, author: Pane)

  datatype Book = Book(
    tasks: map<TaskId, Task>, counter: nat, leases: set<Lease>, handoffs: seq<Handoff>,
    workers: map<Pane, Worker>, offers: map<TaskId, Offer>, reviews: map<TaskId, Review>)

  datatype Error =
    | BadTag | NeedsTag | BadRole | NeedsParty | NoTask | NotOffered | NotExclusive | InFlight
    | IsReview | BadRevision | NotOwner | AuthorChanged | Unfinished

  const LEASE: nat := 1800

  // ---------------------------------------------------------------- names

  predicate ValidTag(t: Tag) {
    1 <= |t| <= 80
    && forall c :: c in t ==> 'a' <= c <= 'z' || 'A' <= c <= 'Z' || '0' <= c <= '9' || c in "_.:-"
  }

  function TagError(tags: seq<Tag>, required: bool): Option<Error> {
    if exists t :: t in tags && !ValidTag(t) then Some(BadTag)
    else if required && tags == [] then Some(NeedsTag) else None
  }

  function SetOf<T>(s: seq<T>): set<T> {
    set x | x in s
  }

  function Opt(o: Option<Pane>): set<Pane> {
    if o.Some? && o.value != "" then {o.value} else {}
  }

  /** A full commit hash. */
  predicate FullRevision(r: string) {
    40 <= |r| <= 64 && forall c :: c in r ==> '0' <= c <= '9' || 'a' <= c <= 'f'
  }

  function TaskName(n: nat): TaskId {
    "t" + Decimal.Numeral(n)
  }

  // ---------------------------------------------------------------- offers

  predicate Leased(b: Book, id: TaskId, now: int) {
    exists l :: l in b.leases && l.task == id && l.expires > now
  }

  predicate IntentFor(hs: seq<Handoff>, id: TaskId) {
    exists i :: 0 <= i < |hs| && hs[i].task == id && !hs[i].cancelled
  }

  /** Why the task cannot be offered. */
  function OfferError(b: Book, id: TaskId, pool: Tag, needs: seq<Tag>, now: int): Option<Error>
    requires id in b.tasks
  {
    var t := b.tasks[id];
    if !t.shared || t.status !in {Open, Blocked} then Some(NotOffered)
    else if Strip(t.body) == "" || t.assignees == {} || Leased(b, id, now) || t.multi then Some(NotExclusive)
    else if TagError([pool], true).Some? then TagError([pool], true)
    else if TagError(needs, false).Some? then TagError(needs, false)
    else if IntentFor(b.handoffs, id) then Some(InFlight)
    else None
  }

  function Offered(b: Book, id: TaskId, pool: Tag, role: Tag, needs: seq<Tag>, excluded: set<Pane>): Book
    requires id in b.tasks
  {
    b.(offers := b.offers[id := Offer(pool, role, SetOf(needs), excluded, b.tasks[id].assignees, true)])
  }

  // ---------------------------------------------------------------- reviews

  function CancelIntents(hs: seq<Handoff>, id: TaskId): (r: seq<Handoff>)
    ensures |r| == |hs|
    ensures forall i :: 0 <= i < |hs| ==> r[i] == if hs[i].task == id then hs[i].(cancelled := true) else hs[i]
  {
    seq(|hs|, i requires 0 <= i < |hs| => if hs[i].task == id then hs[i].(cancelled := true) else hs[i])
  }

  function ReviewBody(source: TaskId, revision: string, body: string): string {
    "Frozen revision: " + revision + "\nSource task: " + source + "\n\n" + body
  }

  /** The parties of a task: they may not review it. */
  function Parties(t: Task): set<Pane> {
    t.assignees + Opt(t.createdBy) + Opt(t.completedBy)
  }

  function PriorExclusion(b: Book, id: TaskId): set<Pane> {
    if id in b.offers then b.offers[id].excluded else {}
  }

  /** The review task opened for the first revision. */
  function Opened(b: Book, source: TaskId, revision: string, body: string, author: Pane, now: int): Book
    requires source in b.tasks
  {
    var id := TaskName(b.counter + 1);
    b.(counter := b.counter + 1,
       tasks := b.tasks[id := Task(true, ReviewBody(source, revision, body), Open, b.tasks[source].rank, now, {author},
                                   false, false, false, 0, Some(source), Some(author), None)])
  }

  /** The finished review task opened again for a corrected revision; leases and intents of the
      finished round are cleared. */
  function Reopened(b: Book, id: TaskId, source: TaskId, revision: string, body: string, author: Pane): Book
    requires id in b.tasks
  {
    b.(leases := (set l | l in b.leases && l.task != id),
       tasks := b.tasks[id := b.tasks[id].(status := Open, body := ReviewBody(source, revision, body),
                                           assignees := {author}, completedBy := None)],
       handoffs := CancelIntents(b.handoffs, id))
  }

  /** The review task of a source: its own, or the next new one. */
  function ReviewTask(b: Book, source: TaskId): TaskId {
    if source in b.reviews then b.reviews[source].task else TaskName(b.counter + 1)
  }

  datatype Submission = Submission(book: Book, task: TaskId)

  /** `review`, as one transaction: an error changes nothing. */
  function Reviewed(b: Book, source: TaskId, revision: string, body: string, pool: Tag, needs: seq<Tag>,
                    author: Pane, now: int): Result<Submission, Error>
  {
    if !FullRevision(revision) || Strip(body) == "" then Err(BadRevision)
    else if source !in b.tasks then Err(NoTask)
    else if !b.tasks[source].shared || author !in b.tasks[source].assignees then Err(NotOwner)
    else if source in b.reviews && b.reviews[source].author != author then Err(AuthorChanged)
    else if source in b.reviews && b.reviews[source].revision == revision then
      if b.reviews[source].task in b.tasks then Ok(Submission(b, b.reviews[source].task)) else Err(NoTask)
    else if source in b.reviews && b.reviews[source].task !in b.tasks then Err(NoTask)
    else if source in b.reviews && b.tasks[b.reviews[source].task].status != Done then Err(Unfinished)
    else
      var id := ReviewTask(b, source);
      var ready := if source in b.reviews then Reopened(b, id, source, revision, body, author)
                   else Opened(b, source, revision, body, author, now);
      var error := OfferError(ready, id, pool, needs, now);
      if error.Some? then Err(error.value)
      else
        var excluded := Parties(b.tasks[source]) + PriorExclusion(b, id);
        var done := Offered(ready, id, pool, "reviewer", needs, excluded);
        Ok(Submission(done.(reviews := done.reviews[source := Review(id, revision, author)]), id))
  }

  /** `offer`, as one transaction. */
  function OfferedWork(b: Book, id: TaskId, pool: Tag, needs: seq<Tag>, now: int): Result<Book, Error> {
    if exists s :: s in b.reviews && b.reviews[s].task == id then Err(IsReview)
    else if id !in b.tasks then Err(NoTask)
    else if OfferError(b, id, pool, needs, now).Some? then Err(OfferError(b, id, pool, needs, now).value)
    else Ok(Offered(b, id, pool, "worker", needs, {}))
  }

  // ---------------------------------------------------------------- allocation

  predicate Live(t: Task) {
    t.status != Done && t.status != Cancelled
  }

  /** A ready offer whose task still belongs to the owners that offered it. */
  predicate AwaitsAllocation(b: Book, id: TaskId) {
    id in b.tasks && id in b.offers && b.offers[id].ready && b.tasks[id].assignees == b.offers[id].owners
  }

  predicate Allocatable(b: Book, now: int, id: TaskId) {
    && AwaitsAllocation(b, id)
    && b.tasks[id].status == Open && !b.tasks[id].waits && !b.tasks[id].held && b.tasks[id].shared
    && !Leased(b, id, now)
  }

  predicate Meets(w: Worker, o: Offer, pane: Pane) {
    w.enabled && pane !in o.excluded && o.pool in w.pools && o.role in w.roles && o.needs <= w.skills
  }

  predicate Busy(b: Book, now: int, pane: Pane) {
    exists l :: l in b.leases && l.pane == pane && l.expires > now
                && l.task in b.tasks && b.tasks[l.task].status == InProgress
  }

  /** Work of its own that a pane has to do first: assigned, not waiting for allocation. */
  predicate Owns(tasks: map<TaskId, Task>, waiting: set<TaskId>, pane: Pane) {
    exists id :: id in tasks && Live(tasks[id]) && pane in tasks[id].assignees && id !in waiting
                 && (tasks[id].status == InProgress
                     || (tasks[id].status == Open && !tasks[id].waits && !tasks[id].held))
  }

  predicate Expects(hs: seq<Handoff>, tasks: map<TaskId, Task>, pane: Pane) {
    exists i :: 0 <= i < |hs| && hs[i].pane == pane && hs[i].task in tasks && Live(tasks[hs[i].task])
      && !hs[i].cancelled
  }

  function Waiting(b: Book): set<TaskId> {
    set id | id in b.tasks && AwaitsAllocation(b, id)
  }

  /** Nothing else is on the pane's hands. */
  predicate Free(b: Book, now: int, pane: Pane) {
    !Busy(b, now, pane) && !Owns(b.tasks, Waiting(b), pane) && !Expects(b.handoffs, b.tasks, pane)
  }

  predicate Fits(b: Book, idle: set<Pane>, now: int, id: TaskId, pane: Pane) {
    Allocatable(b, now, id) && pane in idle && pane in b.workers && Meets(b.workers[pane], b.offers[id], pane)
    && Free(b, now, pane)
  }

  function FitsIn(b: Book, idle: set<Pane>, now: int): (TaskId, Pane) -> bool {
    (id, pane) => Fits(b, idle, now, id, pane)
  }

  function TaskKeys(b: Book): map<string, Order.Key> {
    map id | id in b.tasks && Live(b.tasks[id]) && id in b.offers && b.offers[id].ready ::
      Order.Key(b.tasks[id].rank, b.tasks[id].created, id)
  }

  function WorkerKeys(b: Book): map<string, Order.Key> {
    map p | p in b.workers && b.workers[p].enabled :: Order.Key(0, b.workers[p].lastAssigned, p)
  }

  /** One pair: the pane takes the task over, claims it for the lease time, and gets an intent. */
  function Assigned(b: Book, now: int, id: TaskId, pane: Pane): Book
    requires id in b.tasks && id in b.offers && pane in b.workers
  {
    b.(tasks := b.tasks[id := b.tasks[id].(assignees := {pane}, status := InProgress, held := false,
                                           attempts := b.tasks[id].attempts + 1)],
       leases := (set l | l in b.leases && !(l.task == id && l.pane == pane)) + {Lease(id, pane, now + LEASE)},
       handoffs := b.handoffs + [Handoff(id, pane, false)],
       offers := b.offers[id := b.offers[id].(ready := false)],
       workers := b.workers[pane := b.workers[pane].(lastAssigned := now)])
  }

  /** What the pass has made of the book, with the pairs chosen so far. */
  datatype Pass = Pass(book: Book, pairs: map<TaskId, Pane>)

  /** One candidate of a pass that began with `b`. */
  function PassOne(p: Pass, b: Book, idle: set<Pane>, now: int, workers: seq<Pane>, id: TaskId): Pass {
    var w := Matching.FirstFit(workers, p.pairs.Values, id, FitsIn(b, idle, now));
    if w.Some? && id in p.book.tasks && id in p.book.offers && w.value in p.book.workers
    then Pass(Assigned(p.book, now, id, w.value), p.pairs[id := w.value])
    else p
  }

  function PassOver(b: Book, idle: set<Pane>, now: int, workers: seq<Pane>, cands: seq<TaskId>): Pass
    decreases |cands|
  {
    if cands == [] then Pass(b, map[])
    else PassOne(PassOver(b, idle, now, workers, cands[..|cands| - 1]), b, idle, now, workers, cands[|cands| - 1])
  }

  // ---------------------------------------------------------------- what a pass leaves as it was

  function TakenOver(t: Task, pane: Pane): Task {
    t.(assignees := {pane}, status := InProgress, held := false, attempts := t.attempts + 1)
  }

  function TasksAfter(tasks: map<TaskId, Task>, pairs: map<TaskId, Pane>): map<TaskId, Task> {
    map id | id in tasks :: if id in pairs then TakenOver(tasks[id], pairs[id]) else tasks[id]
  }

  function OffersAfter(offers: map<TaskId, Offer>, pairs: map<TaskId, Pane>): map<TaskId, Offer> {
    map id | id in offers :: if id in pairs then offers[id].(ready := false) else offers[id]
  }

  function WorkersAfter(workers: map<Pane, Worker>, chosen: set<Pane>, now: int): map<Pane, Worker> {
    map w | w in workers :: if w in chosen then workers[w].(lastAssigned := now) else workers[w]
  }

  /** The tasks, offers and workers of the chosen pairs are changed as allocation says, and no
      others. */
  predicate RowsChanged(b: Book, now: int, p: Pass) {
    && p.book.tasks == TasksAfter(b.tasks, p.pairs) && p.book.offers == OffersAfter(b.offers, p.pairs)
    && p.book.workers == WorkersAfter(b.workers, p.pairs.Values, now)
    && p.book.reviews == b.reviews && p.book.counter == b.counter
  }

  /** A lease is added for every chosen pair; none is touched that does not name a chosen task and
      its pane. */
  predicate LeasesChanged(leases: set<Lease>, now: int, pairs: map<TaskId, Pane>, after: set<Lease>) {
    && (forall id :: id in pairs ==> Lease(id, pairs[id], now + LEASE) in after)
    && (forall l :: l in leases && !(l.task in pairs && pairs[l.task] == l.pane) ==> l in after)
    && (forall l :: l in after ==> l in leases || (l.task in pairs && pairs[l.task] == l.pane))
  }

  /** An intent is added for every chosen pair, and nothing else. */
  predicate IntentsChanged(hs: seq<Handoff>, pairs: map<TaskId, Pane>, after: seq<Handoff>) {
    && hs <= after
    && (forall i :: |hs| <= i < |after| ==>
          after[i].task in pairs && pairs[after[i].task] == after[i].pane && !after[i].cancelled)
    && (forall id :: id in pairs ==> IntentFor(after, id))
  }

  predicate ClaimsChanged(b: Book, now: int, p: Pass) {
    LeasesChanged(b.leases, now, p.pairs, p.book.leases) && IntentsChanged(b.handoffs, p.pairs, p.book.handoffs)
  }

  /** Every pair fitted the book as it was before the pass. */
  predicate PairsFit(b: Book, idle: set<Pane>, now: int, p: Pass) {
    forall id :: id in p.pairs ==> Fits(b, idle, now, id, p.pairs[id])
  }

  predicate Passed(b: Book, idle: set<Pane>, now: int, p: Pass) {
    PairsFit(b, idle, now, p) && RowsChanged(b, now, p) && ClaimsChanged(b, now, p)
  }

  lemma IntentAdded(hs: seq<Handoff>, pairs: map<TaskId, Pane>, after: seq<Handoff>, id: TaskId, pane: Pane)
    requires IntentsChanged(hs, pairs, after) && id !in pairs
    ensures IntentsChanged(hs, pairs[id := pane], after + [Handoff(id, pane, false)])
  {
    var more := after + [Handoff(id, pane, false)];
    assert more[|after|] == Handoff(id, pane, false);
    forall t | t in pairs ensures IntentFor(more, t) {
      var i :| 0 <= i < |after| && after[i].task == t && !after[i].cancelled;
      assert more[i] == after[i];
    }
  }

  lemma LeaseAdded(leases: set<Lease>, now: int, pairs: map<TaskId, Pane>, after: set<Lease>, id: TaskId, pane: Pane)
    requires LeasesChanged(leases, now, pairs, after) && id !in pairs
    ensures LeasesChanged(leases, now, pairs[id := pane],
                          (set l | l in after && !(l.task == id && l.pane == pane)) + {Lease(id, pane, now + LEASE)})
  {}

  /** One more pair, wherever it came from. */
  lemma PairAdded(b: Book, idle: set<Pane>, now: int, p: Pass, id: TaskId, pane: Pane)
    requires Passed(b, idle, now, p) && id !in p.pairs && Fits(b, idle, now, id, pane)
    ensures id in p.book.tasks && id in p.book.offers && pane in p.book.workers
    ensures Passed(b, idle, now, Pass(Assigned(p.book, now, id, pane), p.pairs[id := pane]))
  {
    RowsAdded(b, now, p, id, pane);
    LeaseAdded(b.leases, now, p.pairs, p.book.leases, id, pane);
    IntentAdded(b.handoffs, p.pairs, p.book.handoffs, id, pane);
  }

  lemma ValuesAdded(pairs: map<TaskId, Pane>, id: TaskId, pane: Pane)
    requires id !in pairs
    ensures pairs[id := pane].Values == pairs.Values + {pane}
  {
    var more := pairs[id := pane];
    assert more[id] == pane && forall x :: x in pairs ==> more[x] == pairs[x];
  }

  lemma RowsAdded(b: Book, now: int, p: Pass, id: TaskId, pane: Pane)
    requires RowsChanged(b, now, p) && id !in p.pairs
    requires id in p.book.tasks && id in p.book.offers && pane in p.book.workers
    ensures RowsChanged(b, now, Pass(Assigned(p.book, now, id, pane), p.pairs[id := pane]))
  {
    ValuesAdded(p.pairs, id, pane);
    assert TasksAfter(b.tasks, p.pairs[id := pane]) == p.book.tasks[id := TakenOver(p.book.tasks[id], pane)];
    assert OffersAfter(b.offers, p.pairs[id := pane]) == p.book.offers[id := p.book.offers[id].(ready := false)];
    assert WorkersAfter(b.workers, p.pairs.Values + {pane}, now)
        == p.book.workers[pane := p.book.workers[pane].(lastAssigned := now)];
  }

  /** The pass chooses exactly the greedy matching of what fitted before it, and leaves the rest
      of the book alone. */
  lemma {:induction false} PassIsGreedy(b: Book, idle: set<Pane>, now: int, workers: seq<Pane>, cands: seq<TaskId>)
    requires Distinct(cands) && Distinct(workers)
    ensures var p := PassOver(b, idle, now, workers, cands);
            Passed(b, idle, now, p) && p.pairs == Matching.Greedy(cands, workers, FitsIn(b, idle, now))
    decreases |cands|
  {
    if cands != [] {
      var before, id := cands[..|cands| - 1], cands[|cands| - 1];
      PassIsGreedy(b, idle, now, workers, before);
      var p := PassOver(b, idle, now, workers, before);
      Matching.GreedyIsMatched(before, workers, FitsIn(b, idle, now));
      assert id !in p.pairs;
      PassStep(b, idle, now, workers, p, id);
    }
  }

  lemma PassStep(b: Book, idle: set<Pane>, now: int, workers: seq<Pane>, p: Pass, id: TaskId)
    requires Distinct(workers) && Passed(b, idle, now, p) && id !in p.pairs
    ensures var w := Matching.FirstFit(workers, p.pairs.Values, id, FitsIn(b, idle, now));
            var q := PassOne(p, b, idle, now, workers, id);
            && Passed(b, idle, now, q)
            && q.pairs == (if w.Some? then p.pairs[id := w.value] else p.pairs)
            && (w.Some? ==> q.book == Assigned(p.book, now, id, w.value))
  {
    var w := Matching.FirstFit(workers, p.pairs.Values, id, FitsIn(b, idle, now));
    Matching.FirstFitIsFirst(workers, p.pairs.Values, id, FitsIn(b, idle, now));
    if w.Some? {
      PairAdded(b, idle, now, p, id, w.value);
    }
  }

  /** What is on an unchosen pane's hands does not change during the pass. */
  lemma StaysFree(b: Book, idle: set<Pane>, now: int, p: Pass, pane: Pane)
    requires Passed(b, idle, now, p) && pane !in p.pairs.Values
    ensures Busy(p.book, now, pane) <==> Busy(b, now, pane)
    ensures Expects(p.book.handoffs, b.tasks, pane) <==> Expects(b.handoffs, b.tasks, pane)
    ensures Owns(Snapshot(b, p.pairs), Waiting(b), pane) <==> Owns(b.tasks, Waiting(b), pane)
  {
    BusyStays(b, idle, now, p, pane);
    if Expects(p.book.handoffs, b.tasks, pane) {
      var i :| 0 <= i < |p.book.handoffs| && p.book.handoffs[i].pane == pane
               && p.book.handoffs[i].task in b.tasks && Live(b.tasks[p.book.handoffs[i].task])
                  && !p.book.handoffs[i].cancelled;
      assert i < |b.handoffs| && b.handoffs[i] == p.book.handoffs[i];
    }
    if Expects(b.handoffs, b.tasks, pane) {
      var i :| 0 <= i < |b.handoffs| && b.handoffs[i].pane == pane
               && b.handoffs[i].task in b.tasks && Live(b.tasks[b.handoffs[i].task]) && !b.handoffs[i].cancelled;
      assert p.book.handoffs[i] == b.handoffs[i];
    }
    OwnsStays(b, idle, now, p, pane);
  }

  lemma BusyStays(b: Book, idle: set<Pane>, now: int, p: Pass, pane: Pane)
    requires Passed(b, idle, now, p) && pane !in p.pairs.Values
    ensures Busy(p.book, now, pane) <==> Busy(b, now, pane)
  {
    if Busy(p.book, now, pane) {
      var l :| l in p.book.leases && l.pane == pane && l.expires > now
               && l.task in p.book.tasks && p.book.tasks[l.task].status == InProgress;
      assert l in b.leases;
      assert l.task in p.pairs ==> Leased(b, l.task, now);
    }
    if Busy(b, now, pane) {
      var l :| l in b.leases && l.pane == pane && l.expires > now && l.task in b.tasks
        && b.tasks[l.task].status == InProgress;
      assert l in p.book.leases;
    }
  }

  /** The pass's own copy of the tasks, in which it rewrites the owner of a task it has given away. */
  function Snapshot(b: Book, pairs: map<TaskId, Pane>): map<TaskId, Task> {
    map id | id in b.tasks :: if id in pairs then b.tasks[id].(assignees := {pairs[id]}) else b.tasks[id]
  }

  lemma OwnsStays(b: Book, idle: set<Pane>, now: int, p: Pass, pane: Pane)
    requires Passed(b, idle, now, p) && pane !in p.pairs.Values
    ensures Owns(Snapshot(b, p.pairs), Waiting(b), pane) <==> Owns(b.tasks, Waiting(b), pane)
  {
    var copy := Snapshot(b, p.pairs);
    forall id | id in p.pairs ensures id in Waiting(b) {
      assert Fits(b, idle, now, id, p.pairs[id]);
    }
    forall id | id in b.tasks && id !in Waiting(b) ensures copy[id] == b.tasks[id] {}
  }
}
