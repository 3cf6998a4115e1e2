/** The terms of allocation, read off the tables field by field: who may take what, who gets it, what is
    written, and which offers and submissions are refused. */
module AllocationTerms {
  import opened Collections
  import opened Wrappers
  import opened Text
  import opened Allocation
  import opened AllocationRuns
  import Matching
  import Order

  // ---------------------------------------------------------------- who may take what

  /** An unexpired claim on the task. */
  predicate Claimed(b: Book, id: TaskId, now: int) {
    exists l :: l in b.leases && l.task == id && now < l.expires
  }

  /** Work that comes before anything offered: a task in progress that the pane has claimed; a task of its
      own, in progress or ready to be worked on, that it has not put up for allocation; a prompt that is
      still to be delivered for an unfinished task. */
  predicate Occupied(b: Book, pane: Pane, now: int) {
    || (exists l :: l in b.leases && l.pane == pane && now < l.expires && l.task in b.tasks
                    && b.tasks[l.task].status == InProgress)
    || (exists id :: id in b.tasks && pane in b.tasks[id].assignees
                     && (b.tasks[id].status == InProgress
                         || (b.tasks[id].status == Open && !b.tasks[id].waits && !b.tasks[id].held))
                     && !(id in b.offers && b.offers[id].ready && b.offers[id].owners == b.tasks[id].assignees))
    || (exists i :: 0 <= i < |b.handoffs| && b.handoffs[i].pane == pane && !b.handoffs[i].cancelled
                    && b.handoffs[i].task in b.tasks
                    && b.tasks[b.handoffs[i].task].status !in {Done, Cancelled})
  }

  /** The task is open, shared, ready to be worked on and claimed by nobody; its offer is ready and its
      owners are still those who made it; the worker is enabled, idle, not excluded and unoccupied, serves
      the pool in the role, and has every skill that is needed. */
  predicate MayTake(b: Book, idle: set<Pane>, now: int, id: TaskId, pane: Pane) {
    && id in b.tasks && id in b.offers && pane in b.workers && pane in idle
    && var t, o, w := b.tasks[id], b.offers[id], b.workers[pane];
    && t.status == Open && t.shared && !t.waits && !t.held && !Claimed(b, id, now)
    && o.ready && o.owners == t.assignees
    && w.enabled && o.pool in w.pools && o.role in w.roles && (forall s :: s in o.needs ==> s in w.skills)
    && pane !in o.excluded && !Occupied(b, pane, now)
  }

  lemma OccupiedExactly(b: Book, pane: Pane, now: int)
    ensures Occupied(b, pane, now) <==> !Free(b, now, pane)
  {
    if Owns(b.tasks, Waiting(b), pane) {
      var id :| id in b.tasks && Live(b.tasks[id]) && pane in b.tasks[id].assignees && id !in Waiting(b)
                && (b.tasks[id].status == InProgress
                    || (b.tasks[id].status == Open && !b.tasks[id].waits && !b.tasks[id].held));
      assert pane in b.tasks[id].assignees;
    }
    if id :| id in b.tasks && pane in b.tasks[id].assignees
             && (b.tasks[id].status == InProgress
                 || (b.tasks[id].status == Open && !b.tasks[id].waits && !b.tasks[id].held))
             && !(id in b.offers && b.offers[id].ready && b.offers[id].owners == b.tasks[id].assignees)
    {
      assert id !in Waiting(b);
      assert Owns(b.tasks, Waiting(b), pane);
    }
  }

  lemma FitsExactly(b: Book, idle: set<Pane>, now: int, id: TaskId, pane: Pane)
    ensures Fits(b, idle, now, id, pane) <==> MayTake(b, idle, now, id, pane)
  {
    OccupiedExactly(b, pane, now);
    hide Free, Occupied;
    assert Leased(b, id, now) <==> Claimed(b, id, now);
  }

  // ---------------------------------------------------------------- who gets it

  /** The more urgent task, then the older one, then the first by name. */
  predicate SoonerTask(b: Book, x: TaskId, y: TaskId)
    requires x in b.tasks && y in b.tasks
  {
    var s, t := b.tasks[x], b.tasks[y];
    || s.rank < t.rank || (s.rank == t.rank && s.created < t.created)
    || (s.rank == t.rank && s.created == t.created && Order.Less(x, y))
  }

  /** The worker whose last task is longer ago, then the first by name. */
  predicate SoonerWorker(b: Book, p: Pane, q: Pane)
    requires p in b.workers && q in b.workers
  {
    || b.workers[p].lastAssigned < b.workers[q].lastAssigned
    || (b.workers[p].lastAssigned == b.workers[q].lastAssigned && Order.Less(p, q))
  }

  /** The task goes to this worker, or to one whose turn is sooner. */
  predicate ServedBy(b: Book, pairs: map<TaskId, Pane>, id: TaskId, pane: Pane)
    requires pane in b.workers
  {
    id in pairs && (pairs[id] == pane || (pairs[id] in b.workers && SoonerWorker(b, pairs[id], pane)))
  }

  /** The worker gets a task that comes sooner. */
  predicate GivenSooner(b: Book, pairs: map<TaskId, Pane>, id: TaskId, pane: Pane)
    requires id in b.tasks
  {
    exists other :: other in pairs && pairs[other] == pane && other in b.tasks && SoonerTask(b, other, id)
  }

  lemma KeysAreTheOrder(b: Book, workers: seq<Pane>, cands: seq<TaskId>)
    requires Queued(b, workers, cands)
    ensures forall i, j :: 0 <= i < j < |cands| ==>
              cands[i] in b.tasks && cands[j] in b.tasks && SoonerTask(b, cands[i], cands[j])
    ensures forall i, j :: 0 <= i < j < |workers| ==>
              workers[i] in b.workers && workers[j] in b.workers && SoonerWorker(b, workers[i], workers[j])
  {
    forall i, j | 0 <= i < j < |cands|
      ensures cands[i] in b.tasks && cands[j] in b.tasks && SoonerTask(b, cands[i], cands[j])
    {
      assert Order.Before(TaskKeys(b)[cands[i]], TaskKeys(b)[cands[j]]);
    }
    forall i, j | 0 <= i < j < |workers|
      ensures workers[i] in b.workers && workers[j] in b.workers && SoonerWorker(b, workers[i], workers[j])
    {
      assert Order.Before(WorkerKeys(b)[workers[i]], WorkerKeys(b)[workers[j]]);
    }
  }

  /** One pass hands no task and no worker out twice, hands out only what may be taken, and for every task
      that a worker may take, either the task goes to that worker or to one whose turn is sooner, or the
      worker gets a task that comes sooner. */
  lemma AllocatedFairly(b: Book, idle: set<Pane>, now: int, workers: seq<Pane>, cands: seq<TaskId>)
    requires Queued(b, workers, cands)
    ensures var pairs := PassOver(b, idle, now, workers, cands).pairs;
            && (forall id, other :: id in pairs && other in pairs && pairs[id] == pairs[other] ==> id == other)
            && (forall id :: id in pairs ==> MayTake(b, idle, now, id, pairs[id]))
            && (forall id, pane :: MayTake(b, idle, now, id, pane) ==>
                  ServedBy(b, pairs, id, pane) || GivenSooner(b, pairs, id, pane))
  {
    var pairs, fits := PassOver(b, idle, now, workers, cands).pairs, FitsIn(b, idle, now);
    QueuesAreDistinct(b, workers, cands);
    PassIsGreedy(b, idle, now, workers, cands);
    Matching.GreedyIsMatched(cands, workers, fits);
    KeysAreTheOrder(b, workers, cands);
    forall id | id in pairs ensures MayTake(b, idle, now, id, pairs[id]) { FitsExactly(b, idle, now, id, pairs[id]); }
    forall id, pane | MayTake(b, idle, now, id, pane)
      ensures ServedBy(b, pairs, id, pane) || GivenSooner(b, pairs, id, pane)
    {
      FitsExactly(b, idle, now, id, pane);
      FittingIsQueued(b, idle, now, workers, cands, id, pane);
      hide MayTake, Fits, SoonerTask, SoonerWorker, PassOver, Queued;
      var i :| 0 <= i < |cands| && cands[i] == id;
      var k :| 0 <= k < |workers| && workers[k] == pane;
      ServedInOrder(b, workers, cands, fits, pairs, i, k);
    }
  }

  lemma ServedInOrder(b: Book, workers: seq<Pane>, cands: seq<TaskId>, fits: (TaskId, Pane) -> bool,
                      pairs: map<TaskId, Pane>, i: nat, k: nat)
    requires Matching.InOrder(cands, workers, fits, pairs)
    requires i < |cands| && k < |workers| && fits(cands[i], workers[k]) && cands[i] in b.tasks
             && workers[k] in b.workers
    requires forall x, y :: 0 <= x < y < |cands| ==>
               cands[x] in b.tasks && cands[y] in b.tasks && SoonerTask(b, cands[x], cands[y])
    requires forall x, y :: 0 <= x < y < |workers| ==>
               workers[x] in b.workers && workers[y] in b.workers && SoonerWorker(b, workers[x], workers[y])
    ensures ServedBy(b, pairs, cands[i], workers[k]) || GivenSooner(b, pairs, cands[i], workers[k])
  {
    hide SoonerTask, SoonerWorker;
    if Matching.Taken(cands, pairs, i, workers[k]) {
      var j :| 0 <= j < i && cands[j] in pairs && pairs[cands[j]] == workers[k];
      assert GivenSooner(b, pairs, cands[i], workers[k]);
    } else {
      var j :| 0 <= j <= k && workers[j] == pairs[cands[i]];
      if j < k { assert SoonerWorker(b, workers[j], workers[k]); }
    }
  }

  // ---------------------------------------------------------------- what is written

  /** What a pass writes: of each task handed out the owner, the progress, the hold taken off and one more
      attempt; of its offer that it is no longer ready; of the worker the time; a claim for the lease time
      in place of an earlier one of the same worker, and an intent.  Nothing else changes. */
  lemma AllocatedWrites(b: Book, idle: set<Pane>, now: int, workers: seq<Pane>, cands: seq<TaskId>)
    requires Queued(b, workers, cands)
    ensures var (p, t) := (PassOver(b, idle, now, workers, cands).pairs, PassOver(b, idle, now, workers, cands).book);
            && t.reviews == b.reviews && t.counter == b.counter
            && t.tasks.Keys == b.tasks.Keys && t.offers.Keys == b.offers.Keys && t.workers.Keys == b.workers.Keys
            && (forall id :: id in b.tasks ==>
                  t.tasks[id] == if id !in p then b.tasks[id]
                                 else b.tasks[id].(assignees := {p[id]}, status := InProgress, held := false,
                                                   attempts := b.tasks[id].attempts + 1))
            && (forall id :: id in b.offers ==>
                  t.offers[id] == if id !in p then b.offers[id] else b.offers[id].(ready := false))
            && (forall w :: w in b.workers ==>
                  t.workers[w] == if w !in p.Values then b.workers[w] else b.workers[w].(lastAssigned := now))
    ensures var (p, t) := (PassOver(b, idle, now, workers, cands).pairs, PassOver(b, idle, now, workers, cands).book);
            && (forall l :: l in t.leases <==>
                  if l.task in p && p[l.task] == l.pane then l.expires == now + 1800 else l in b.leases)
            && b.handoffs <= t.handoffs && |t.handoffs| == |b.handoffs| + |p|
            && (forall id :: id in p ==> Handoff(id, p[id], false) in t.handoffs[|b.handoffs|..])
  {
    QueuesAreDistinct(b, workers, cands);
    PassIsGreedy(b, idle, now, workers, cands);
    ClaimsWritten(b, idle, now, workers, cands);
  }

  /** The claims of the pairs chosen so far. */
  ghost predicate Claiming(b: Book, now: int, p: Pass) {
    forall l :: l in p.book.leases <==>
      if l.task in p.pairs && p.pairs[l.task] == l.pane then l.expires == now + 1800 else l in b.leases
  }

  /** And their intents, behind the ones there were. */
  ghost predicate Intending(earlier: seq<Handoff>, h: seq<Handoff>, pairs: map<TaskId, Pane>) {
    && earlier <= h && |h| == |earlier| + |pairs|
    && (forall id :: id in pairs ==> Handoff(id, pairs[id], false) in h[|earlier|..])
  }

  lemma ClaimTaken(b: Book, now: int, p: Pass, id: TaskId, pane: Pane, l: Lease)
    requires id !in p.pairs && id in p.book.tasks && id in p.book.offers && pane in p.book.workers
    requires l in p.book.leases <==>
               if l.task in p.pairs && p.pairs[l.task] == l.pane then l.expires == now + 1800 else l in b.leases
    ensures var (pairs, leases) := (p.pairs[id := pane], Assigned(p.book, now, id, pane).leases);
            l in leases <==>
              if l.task in pairs && pairs[l.task] == l.pane then l.expires == now + 1800 else l in b.leases
  {
    assert l == Lease(id, pane, now + 1800) <==> l.task == id && l.pane == pane && l.expires == now + 1800;
  }

  lemma PairClaims(b: Book, now: int, p: Pass, id: TaskId, pane: Pane)
    requires Claiming(b, now, p) && id !in p.pairs
    requires id in p.book.tasks && id in p.book.offers && pane in p.book.workers
    ensures Claiming(b, now, Pass(Assigned(p.book, now, id, pane), p.pairs[id := pane]))
  {
    var q := Pass(Assigned(p.book, now, id, pane), p.pairs[id := pane]);
    forall l
      ensures l in q.book.leases <==>
                if l.task in q.pairs && q.pairs[l.task] == l.pane then l.expires == now + 1800 else l in b.leases
    {
      ClaimTaken(b, now, p, id, pane, l);
    }
  }

  lemma PairIntends(earlier: seq<Handoff>, h: seq<Handoff>, pairs: map<TaskId, Pane>, id: TaskId, pane: Pane)
    requires Intending(earlier, h, pairs) && id !in pairs
    ensures Intending(earlier, h + [Handoff(id, pane, false)], pairs[id := pane])
  {
    var more := h + [Handoff(id, pane, false)];
    assert pairs[id := pane].Keys == pairs.Keys + {id};
    assert more[|earlier|..] == h[|earlier|..] + [Handoff(id, pane, false)];
    assert more[|earlier|..][|pairs|] == Handoff(id, pane, false);
  }

  lemma {:induction false} ClaimsWritten(b: Book, idle: set<Pane>, now: int, workers: seq<Pane>, cands: seq<TaskId>)
    requires Distinct(cands) && Distinct(workers)
    ensures Claiming(b, now, PassOver(b, idle, now, workers, cands))
    ensures var p := PassOver(b, idle, now, workers, cands); Intending(b.handoffs, p.book.handoffs, p.pairs)
    decreases |cands|
  {
    if cands != [] {
      var before, id := cands[..|cands| - 1], cands[|cands| - 1];
      ClaimsWritten(b, idle, now, workers, before);
      PassIsGreedy(b, idle, now, workers, before);
      var p := PassOver(b, idle, now, workers, before);
      Matching.GreedyIsMatched(before, workers, FitsIn(b, idle, now));
      assert id !in p.pairs;
      var w := Matching.FirstFit(workers, p.pairs.Values, id, FitsIn(b, idle, now));
      hide Claiming, Intending, Fits;
      if w.Some? && id in p.book.tasks && id in p.book.offers && w.value in p.book.workers {
        PairClaims(b, now, p, id, w.value);
        PairIntends(b.handoffs, p.book.handoffs, p.pairs, id, w.value);
      }
    }
  }

  /** A registration writes what it was given; a known worker keeps its turn, a new one never had one. */
  lemma RegisteredExactly(b: Book, pane: Pane, worker: Worker)
    ensures Next(b, Register(pane, worker))
            == b.(workers := b.workers[pane := Worker(worker.pools, worker.roles, worker.skills, worker.enabled,
                                                      if pane in b.workers then b.workers[pane].lastAssigned else 0)])
  {}

  // ---------------------------------------------------------------- offers and submissions

  /** One to eighty letters, digits and the four marks. */
  predicate IsTag(t: Tag) {
    1 <= |t| <= 80 && forall c :: c in t ==>
      'a' <= c <= 'z' || 'A' <= c <= 'Z' || '0' <= c <= '9' || c == '_' || c == '.' || c == ':' || c == '-'
  }

  /** Exactly what can be offered: an open or blocked shared task with a text and an owner, for one worker at
      a time, claimed by nobody, with proper tags, and with no intent that was not cancelled. */
  lemma OfferRefusedExactly(b: Book, id: TaskId, pool: Tag, needs: seq<Tag>, now: int)
    requires id in b.tasks
    ensures var t := b.tasks[id];
            OfferError(b, id, pool, needs, now)
            == if !t.shared || (t.status != Open && t.status != Blocked) then Some(NotOffered)
               else if Strip(t.body) == "" || t.assignees == {} || t.multi
                 || Claimed(b, id, now) then Some(NotExclusive)
               else if !IsTag(pool) || (exists x :: x in needs && !IsTag(x)) then Some(BadTag)
               else if exists i :: 0 <= i < |b.handoffs| && b.handoffs[i].task == id && !b.handoffs[i].cancelled
               then Some(InFlight) else None
  {
    forall t: Tag ensures ValidTag(t) <==> IsTag(t) {}
    assert Leased(b, id, now) <==> Claimed(b, id, now);
    assert pool in [pool] && forall x :: x in [pool] ==> x == pool;
  }

  /** Work is offered to workers, with nobody excluded, as the review of nothing. */
  lemma OfferedExactly(b: Book, id: TaskId, pool: Tag, needs: seq<Tag>, now: int)
    ensures var reviewing := exists s :: s in b.reviews && b.reviews[s].task == id;
            Next(b, Offering(id, pool, needs, now))
            == if reviewing || id !in b.tasks || OfferError(b, id, pool, needs, now).Some? then b
               else b.(offers := b.offers[id := Offer(pool, "worker", SetOf(needs), {}, b.tasks[id].assignees, true)])
  {}

  /** The submissions that are refused before anything is written, in the order of the reasons. */
  lemma SubmissionRefusedExactly(b: Book, source: TaskId, revision: string, body: string, pool: Tag, needs: seq<Tag>,
                                 author: Pane, now: int)
    ensures var r, known := Reviewed(b, source, revision, body, pool, needs, author, now), source in b.reviews;
            var hex := 40 <= |revision| <= 64 && forall c :: c in revision ==> '0' <= c <= '9' || 'a' <= c <= 'f';
            && (!hex || Strip(body) == "" ==> r == Err(BadRevision))
            && (hex && Strip(body) != "" && source !in b.tasks ==> r == Err(NoTask))
            && (hex && Strip(body) != "" && source in b.tasks ==>
                  var t := b.tasks[source];
                  && (!t.shared || author !in t.assignees ==> r == Err(NotOwner))
                  && (t.shared && author in t.assignees && known ==>
                        var v := b.reviews[source];
                        && (v.author != author ==> r == Err(AuthorChanged))
                        && (v.author == author && v.task !in b.tasks ==> r == Err(NoTask))
                        && (v.author == author && v.task in b.tasks && v.revision == revision ==>
                              r == Ok(Submission(b, v.task)))
                        && (v.author == author && v.task in b.tasks && v.revision != revision ==>
                              b.tasks[v.task].status == Done || r == Err(Unfinished))))
  {}

  /** The review task of an accepted submission: a new one of the next name, as urgent as its source, or the
      finished one opened again, its claims and intents cleared; owned by the author, and saying which
      revision of which source it is of. */
  function ReviewOpened(b: Book, source: TaskId, revision: string, body: string, author: Pane, now: int): Book
    requires source in b.tasks && (source in b.reviews ==> b.reviews[source].task in b.tasks)
  {
    var text := "Frozen revision: " + revision + "\nSource task: " + source + "\n\n" + body;
    if source !in b.reviews then
      var task := Task(true, text, Open, b.tasks[source].rank, now, {author}, false, false, false, 0, Some(source),
                       Some(author), None);
      b.(counter := b.counter + 1, tasks := b.tasks[TaskName(b.counter + 1) := task])
    else
      var id := b.reviews[source].task;
      b.(tasks := b.tasks[id := b.tasks[id].(status := Open, body := text, assignees := {author}, completedBy := None)],
         leases := (set l | l in b.leases && l.task != id),
         handoffs := seq(|b.handoffs|, i requires 0 <= i < |b.handoffs| =>
           if b.handoffs[i].task == id then b.handoffs[i].(cancelled := true) else b.handoffs[i]))
  }

  /** And what such a submission comes to, unless the offer of that task is refused: the task is offered to
      reviewers, without the source's owners, creator and completer of now and of every submission before. */
  lemma SubmittedExactly(b: Book, source: TaskId, revision: string, body: string, pool: Tag, needs: seq<Tag>,
                         author: Pane, now: int)
    requires 40 <= |revision| <= 64 && (forall c :: c in revision ==> '0' <= c <= '9' || 'a' <= c <= 'f')
    requires Strip(body) != "" && source in b.tasks && b.tasks[source].shared && author in b.tasks[source].assignees
    requires source in b.reviews ==>
               var v := b.reviews[source];
               v.author == author && v.revision != revision && v.task in b.tasks && b.tasks[v.task].status == Done
    ensures var id := if source in b.reviews then b.reviews[source].task else TaskName(b.counter + 1);
            var t, s := ReviewOpened(b, source, revision, body, author, now), b.tasks[source];
            var before := if id in b.offers then b.offers[id].excluded else {};
            var creator := if s.createdBy.Some? && s.createdBy.value != "" then {s.createdBy.value} else {};
            var completer := if s.completedBy.Some? && s.completedBy.value != "" then {s.completedBy.value} else {};
            var out := s.assignees + creator + completer + before;
            id in t.tasks &&
            Reviewed(b, source, revision, body, pool, needs, author, now)
            == if OfferError(t, id, pool, needs, now).Some? then Err(OfferError(t, id, pool, needs, now).value)
               else Ok(Submission(t.(offers := t.offers[id := Offer(pool, "reviewer", SetOf(needs), out, {author},
                                                                    true)],
                                     reviews := t.reviews[source := Review(id, revision, author)]), id))
  {
    var id := ReviewTask(b, source);
    var s := b.tasks[source];
    assert ReviewOpened(b, source, revision, body, author, now)
        == if source in b.reviews then Reopened(b, id, source, revision, body, author)
           else Opened(b, source, revision, body, author, now);
  }
}
