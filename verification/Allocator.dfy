/** The allocator as the daemon calls it.  Each call is one transaction on the tables: it ends in
    the book `Allocation` prescribes, or is rolled back. */
module Allocator {
  import opened Collections
  import opened Wrappers
  import opened Text
  import opened Allocation
  import opened AllocationRuns
  import Matching
  import Order

  /** The test of one worker for one candidate, against the tables as they are by now and the
      pass's own copy of the tasks. */
  predicate Takes(db: Book, copy: map<TaskId, Task>, waiting: set<TaskId>, tasks: map<TaskId, Task>, offer: Offer,
                  worker: Worker, idle: set<Pane>, used: set<Pane>, now: int, pane: Pane)
  {
    && pane in idle && pane !in used && Meets(worker, offer, pane)
    && !Busy(db, now, pane) && !Owns(copy, waiting, pane) && !Expects(db.handoffs, tasks, pane)
  }

  /** What the pass has written so far makes no difference to that test. */
  lemma TakesIsFits(b: Book, p: Pass, idle: set<Pane>, now: int, id: TaskId, pane: Pane)
    requires Passed(b, idle, now, p) && Allocatable(b, now, id) && pane in b.workers
    ensures Takes(p.book, Snapshot(b, p.pairs), Waiting(b), b.tasks, b.offers[id], b.workers[pane], idle,
                  p.pairs.Values, now, pane)
            <==> pane !in p.pairs.Values && Fits(b, idle, now, id, pane)
  {
    if pane !in p.pairs.Values {
      StaysFree(b, idle, now, p, pane);
    }
  }

  lemma {:induction false} NobodyTakes(b: Book, idle: set<Pane>, now: int, lanes: seq<Pane>, used: set<Pane>,
                                       id: TaskId)
    requires !Allocatable(b, now, id)
    ensures Matching.FirstFit(lanes, used, id, FitsIn(b, idle, now)) == None
    decreases |lanes|
  {
    if lanes != [] {
      NobodyTakes(b, idle, now, lanes[..|lanes| - 1], used, id);
    }
  }

  lemma SnapshotAdded(b: Book, pairs: map<TaskId, Pane>, id: TaskId, pane: Pane)
    requires id in b.tasks && id !in pairs
    ensures Snapshot(b, pairs[id := pane])
            == Snapshot(b, pairs)[id := Snapshot(b, pairs)[id].(assignees := {pane})]
  {}

  function LeasedTasks(b: Book, now: int): set<TaskId> {
    set id | id in b.tasks && Leased(b, id, now)
  }

  class AllocationStore {
    var db: Book

    constructor ()
      ensures db == BLANK
    {
      db := BLANK;
    }

    /** `register`: a new worker was never assigned, a known one keeps its turn. */
    method RegisterWorker(pane: Pane, pools: seq<Tag>, roles: seq<Tag>, skills: seq<Tag>, actor: Pane, enabled: bool)
      returns (error: Option<Error>)
      modifies this
      ensures error.Some? ==> db == old(db)
      ensures error.None? <==>
                && pools != [] && roles != [] && (forall t :: t in pools + roles + skills ==> ValidTag(t))
                && SetOf(roles) <= {"worker", "reviewer"} && pane != "" && actor != ""
      ensures error.None? ==>
                db == Next(old(db), Register(pane, Worker(SetOf(pools), SetOf(roles), SetOf(skills), enabled, 0)))
    {
      if TagError(pools, true).Some? {
        return TagError(pools, true);
      }
      if TagError(roles, true).Some? {
        return TagError(roles, true);
      }
      if TagError(skills, false).Some? {
        return TagError(skills, false);
      }
      if !(SetOf(roles) <= {"worker", "reviewer"}) {
        return Some(BadRole);
      }
      if pane == "" || actor == "" {
        return Some(NeedsParty);
      }
      var last := if pane in db.workers then db.workers[pane].lastAssigned else 0;
      db := db.(workers := db.workers[pane := Worker(SetOf(pools), SetOf(roles), SetOf(skills), enabled, last)]);
      error := None;
    }

    /** `_offer` */
    method OfferRow(id: TaskId, pool: Tag, role: Tag, needs: seq<Tag>, excluded: set<Pane>, now: int)
      returns (error: Option<Error>)
      requires id in db.tasks
      modifies this
      ensures error == OfferError(old(db), id, pool, needs, now)
      ensures db == if error.Some? then old(db) else Offered(old(db), id, pool, role, needs, excluded)
    {
      var t := db.tasks[id];
      if !t.shared || t.status !in {Open, Blocked} {
        return Some(NotOffered);
      }
      if Strip(t.body) == "" || t.assignees == {} || Leased(db, id, now) || t.multi {
        return Some(NotExclusive);
      }
      if TagError([pool], true).Some? {
        return TagError([pool], true);
      }
      if TagError(needs, false).Some? {
        return TagError(needs, false);
      }
      if IntentFor(db.handoffs, id) {
        return Some(InFlight);
      }
      db := db.(offers := db.offers[id := Offer(pool, role, SetOf(needs), excluded, t.assignees, true)]);
      error := None;
    }

    /** `offer` */
    method OfferTask(id: TaskId, pool: Tag, needs: seq<Tag>, now: int) returns (error: Option<Error>)
      modifies this
      ensures db == Next(old(db), Offering(id, pool, needs, now))
      ensures var r := OfferedWork(old(db), id, pool, needs, now); error == if r.Ok? then None else Some(r.error)
    {
      if exists s :: s in db.reviews && db.reviews[s].task == id {
        return Some(IsReview);
      }
      if id !in db.tasks {
        return Some(NoTask);
      }
      error := OfferRow(id, pool, "worker", needs, {}, now);
    }

    /** `review` */
    method SubmitReview(source: TaskId, revision: string, body: string, pool: Tag, needs: seq<Tag>, author: Pane,
                        now: int)
      returns (r: Result<TaskId, Error>)
      modifies this
      ensures db == Next(old(db), Submitting(source, revision, body, pool, needs, author, now))
      ensures var x := Reviewed(old(db), source, revision, body, pool, needs, author, now);
              r == if x.Ok? then Ok(x.value.task) else Err(x.error)
    {
      if !FullRevision(revision) || Strip(body) == "" {
        return Err(BadRevision);
      }
      if source !in db.tasks {
        return Err(NoTask);
      }
      var task := db.tasks[source];
      if !task.shared || author !in task.assignees {
        return Err(NotOwner);
      }
      if source in db.reviews {
        var prior := db.reviews[source];
        if prior.author != author {
          return Err(AuthorChanged);
        }
        if prior.task !in db.tasks {
          return Err(NoTask);
        }
        if prior.revision == revision {
          return Ok(prior.task);
        }
        if db.tasks[prior.task].status != Done {
          return Err(Unfinished);
        }
      }
      r := Renew(source, revision, body, pool, needs, author, now);
    }

    /** The rest of a submission: open or reopen the review task, offer it, and note the revision;
        a refused offer rolls all of it back. */
    method Renew(source: TaskId, revision: string, body: string, pool: Tag, needs: seq<Tag>, author: Pane, now: int)
      returns (r: Result<TaskId, Error>)
      requires FullRevision(revision) && Strip(body) != "" && source in db.tasks
      requires db.tasks[source].shared && author in db.tasks[source].assignees
      requires source in db.reviews ==>
                 var v := db.reviews[source];
                 v.author == author && v.revision != revision && v.task in db.tasks && db.tasks[v.task].status == Done
      modifies this
      ensures db == Next(old(db), Submitting(source, revision, body, pool, needs, author, now))
      ensures var x := Reviewed(old(db), source, revision, body, pool, needs, author, now);
              r == if x.Ok? then Ok(x.value.task) else Err(x.error)
    {
      var saved := db;
      var id := ReviewTask(db, source);
      var excluded := Parties(db.tasks[source]) + PriorExclusion(db, id);
      db := if source in db.reviews then Reopened(db, id, source, revision, body, author)
            else Opened(db, source, revision, body, author, now);
      var error := OfferRow(id, pool, "reviewer", needs, excluded, now);
      if error.Some? {
        db := saved;
        return Err(error.value);
      }
      db := db.(reviews := db.reviews[source := Review(id, revision, author)]);
      r := Ok(id);
    }

    /** `allocate`: one pass over the ready offers in order, each going to the first registered
        worker that may take it. */
    method Allocate(idle: set<Pane>, now: int)
      returns (pairs: map<TaskId, Pane>, ghost workers: seq<Pane>, ghost cands: seq<TaskId>)
      modifies this
      ensures Queued(old(db), workers, cands)
      ensures Pass(db, pairs) == PassOver(old(db), idle, now, workers, cands)
      ensures db == Next(old(db), Allocating(idle, now, workers, cands))
    {
      ghost var b := db;
      var tasks, offers, table := db.tasks, db.offers, db.workers;
      var lanes := Order.Sort(WorkerKeys(db));
      var queue := Order.Sort(TaskKeys(db));
      workers, cands := lanes, queue;
      QueuesAreDistinct(b, lanes, queue);
      var waiting, leased := Waiting(db), LeasedTasks(db, now);
      var copy := tasks;
      pairs := map[];
      assert Snapshot(b, pairs) == copy;
      for n := 0 to |queue|
        invariant Pass(db, pairs) == PassOver(b, idle, now, lanes, queue[..n])
        invariant copy == Snapshot(b, pairs)
      {
        assert queue[..n + 1][..n] == queue[..n];
        CandidateIsNew(b, idle, now, lanes, queue, n);
        pairs, copy := Consider(b, pairs, copy, waiting, leased, tasks, offers, table, lanes, idle, now, queue[n]);
      }
      assert queue[..|queue|] == queue;
    }

    /** One candidate: the taker gets the task, the lease and the intent. */
    method Consider(ghost b: Book, pairs: map<TaskId, Pane>, copy: map<TaskId, Task>, waiting: set<TaskId>,
                    leased: set<TaskId>,
                    tasks: map<TaskId, Task>, offers: map<TaskId, Offer>, table: map<Pane, Worker>, lanes: seq<Pane>,
                    idle: set<Pane>, now: int, id: TaskId)
      returns (more: map<TaskId, Pane>, rest: map<TaskId, Task>)
      requires Passed(b, idle, now, Pass(db, pairs)) && id !in pairs && id in TaskKeys(b)
      requires copy == Snapshot(b, pairs) && waiting == Waiting(b) && leased == LeasedTasks(b, now)
      requires tasks == b.tasks && offers == b.offers && table == b.workers
      requires forall w :: w in lanes ==> w in b.workers
      modifies this
      ensures Pass(db, more) == PassOne(Pass(old(db), pairs), b, idle, now, lanes, id)
      ensures rest == Snapshot(b, more)
    {
      var taker := FirstTaker(b, pairs, copy, waiting, leased, tasks, offers, table, lanes, idle, now, id);
      more, rest := pairs, copy;
      if taker.Some? {
        db := Assigned(db, now, id, taker.value);
        more := pairs[id := taker.value];
        rest := copy[id := copy[id].(assignees := {taker.value})];
        SnapshotAdded(b, pairs, id, taker.value);
      }
    }

    lemma CandidateIsNew(b: Book, idle: set<Pane>, now: int, lanes: seq<Pane>, queue: seq<TaskId>, n: nat)
      requires Queued(b, lanes, queue) && n < |queue|
      ensures var p := PassOver(b, idle, now, lanes, queue[..n]);
              Passed(b, idle, now, p) && queue[n] !in p.pairs && queue[n] in TaskKeys(b)
    {
      QueuesAreDistinct(b, lanes, queue);
      PassIsGreedy(b, idle, now, lanes, queue[..n]);
      Matching.GreedyIsMatched(queue[..n], lanes, FitsIn(b, idle, now));
    }

    /** The inner loop: the first worker that passes every test now is the first that fitted before
        the pass and is not used yet. */
    method FirstTaker(ghost b: Book, pairs: map<TaskId, Pane>, copy: map<TaskId, Task>, waiting: set<TaskId>,
                      leased: set<TaskId>,
                      tasks: map<TaskId, Task>, offers: map<TaskId, Offer>, table: map<Pane, Worker>, lanes: seq<Pane>,
                      idle: set<Pane>, now: int, id: TaskId)
      returns (taker: Option<Pane>)
      requires Passed(b, idle, now, Pass(db, pairs)) && id !in pairs && id in TaskKeys(b)
      requires copy == Snapshot(b, pairs) && waiting == Waiting(b) && leased == LeasedTasks(b, now)
      requires tasks == b.tasks && offers == b.offers && table == b.workers
      requires forall w :: w in lanes ==> w in b.workers
      ensures taker == Matching.FirstFit(lanes, pairs.Values, id, FitsIn(b, idle, now))
      ensures taker.Some? ==> id in db.tasks && id in db.offers && taker.value in db.workers && id in copy
    {
      var t := copy[id];
      taker := None;
      if t.status != Open || t.waits || t.held || id in leased || !t.shared || t.assignees != offers[id].owners {
        NobodyTakes(b, idle, now, lanes, pairs.Values, id);
        return;
      }
      var k := 0;
      while k < |lanes| && taker.None?
        invariant taker.Some? ==> taker.value in lanes
        invariant k <= |lanes| && taker == Matching.FirstFit(lanes[..k], pairs.Values, id, FitsIn(b, idle, now))
      {
        assert lanes[..k + 1][..k] == lanes[..k];
        assert lanes[k] in lanes;
        TakesIsFits(b, Pass(db, pairs), idle, now, id, lanes[k]);
        if Takes(db, copy, waiting, tasks, offers[id], table[lanes[k]], idle, pairs.Values, now, lanes[k]) {
          taker := Some(lanes[k]);
        }
        k := k + 1;
      }
      Matching.FoundStays(lanes, k, pairs.Values, id, FitsIn(b, idle, now));
    }
  }
}
