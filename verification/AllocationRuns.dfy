/** Whole runs of offers, review submissions and allocation passes, with everything else that
    happens to the tasks in between. */
module AllocationRuns {
  import opened Collections
  import opened Wrappers
  import opened Text
  import opened Allocation
  import Decimal
  import Matching
  import Order

  /** The pass reads the candidates and the workers in their order. */
  predicate Queued(b: Book, workers: seq<Pane>, cands: seq<TaskId>) {
    && Order.Sorted(TaskKeys(b), cands) && (forall id :: id in TaskKeys(b) ==> id in cands)
    && Order.Sorted(WorkerKeys(b), workers) && (forall w :: w in WorkerKeys(b) ==> w in workers)
  }

  lemma QueuesAreDistinct(b: Book, workers: seq<Pane>, cands: seq<TaskId>)
    requires Queued(b, workers, cands)
    ensures Distinct(workers) && Distinct(cands)
  {
    Order.SortedIsDistinct(TaskKeys(b), cands);
    Order.SortedIsDistinct(WorkerKeys(b), workers);
  }

  lemma FittingIsQueued(b: Book, idle: set<Pane>, now: int, workers: seq<Pane>, cands: seq<TaskId>, id: TaskId,
                        pane: Pane)
    requires Queued(b, workers, cands) && Fits(b, idle, now, id, pane)
    ensures id in cands && pane in workers && id in TaskKeys(b)
  {
    assert id in TaskKeys(b) && pane in WorkerKeys(b);
  }

  /** One pass is a one-to-one matching of tasks that may be allocated to workers that are idle,
      free and meet the offer; and a fitting worker is never left over, nor given to a later task,
      while a task it fits stays unassigned. */
  lemma PassIsFair(b: Book, idle: set<Pane>, now: int, workers: seq<Pane>, cands: seq<TaskId>)
    requires Queued(b, workers, cands)
    ensures var pairs := PassOver(b, idle, now, workers, cands).pairs;
            && (forall id, other :: id in pairs && other in pairs && pairs[id] == pairs[other] ==> id == other)
            && (forall id :: id in pairs ==> Fits(b, idle, now, id, pairs[id]))
            && (forall id, pane :: Fits(b, idle, now, id, pane) && id !in pairs ==>
                  && pane in pairs.Values
                  && forall other :: other in pairs && pairs[other] == pane ==>
                       other in TaskKeys(b) && id in TaskKeys(b) && Order.Before(TaskKeys(b)[other], TaskKeys(b)[id]))
  {
    var pairs, fits := PassOver(b, idle, now, workers, cands).pairs, FitsIn(b, idle, now);
    QueuesAreDistinct(b, workers, cands);
    PassIsGreedy(b, idle, now, workers, cands);
    Matching.GreedyIsMatched(cands, workers, fits);
    forall id, pane | Fits(b, idle, now, id, pane) && id !in pairs
      ensures pane in pairs.Values
      ensures forall other :: other in pairs && pairs[other] == pane ==>
                other in TaskKeys(b) && id in TaskKeys(b) && Order.Before(TaskKeys(b)[other], TaskKeys(b)[id])
    {
      FittingIsQueued(b, idle, now, workers, cands, id, pane);
      var i :| 0 <= i < |cands| && cands[i] == id;
      var k :| 0 <= k < |workers| && workers[k] == pane;
      Matching.LeftoversHaveNoTaker(cands, workers, fits, pairs, i, k);
      forall other | other in pairs && pairs[other] == pane
        ensures other in TaskKeys(b) && Order.Before(TaskKeys(b)[other], TaskKeys(b)[id])
      {
        var j :| 0 <= j < |cands| && cands[j] == other;
      }
    }
  }

  // ---------------------------------------------------------------- a second pass

  lemma OwnsCarries(b: Book, idle: set<Pane>, now: int, p: Pass, pane: Pane)
    requires Passed(b, idle, now, p) && Owns(b.tasks, Waiting(b), pane)
    ensures Owns(p.book.tasks, Waiting(p.book), pane)
  {
    forall id | id in p.pairs ensures id in Waiting(b) {
      assert Fits(b, idle, now, id, p.pairs[id]);
    }
    var id :| id in b.tasks && Live(b.tasks[id]) && pane in b.tasks[id].assignees && id !in Waiting(b)
              && (b.tasks[id].status == InProgress
                  || (b.tasks[id].status == Open && !b.tasks[id].waits && !b.tasks[id].held));
    assert p.book.tasks[id] == b.tasks[id];
    assert id !in Waiting(p.book);
  }

  lemma FreeBefore(b: Book, idle: set<Pane>, now: int, p: Pass, pane: Pane)
    requires Passed(b, idle, now, p) && Free(p.book, now, pane)
    ensures pane !in p.pairs.Values && Free(b, now, pane)
  {
    BusyStays(b, idle, now, p, pane);
    if Owns(b.tasks, Waiting(b), pane) { OwnsCarries(b, idle, now, p, pane); }
  }

  lemma StillFits(b: Book, idle: set<Pane>, now: int, p: Pass, id: TaskId, pane: Pane)
    requires Passed(b, idle, now, p) && Fits(p.book, idle, now, id, pane)
    ensures id !in p.pairs && pane !in p.pairs.Values && Fits(b, idle, now, id, pane)
  {
    FreeBefore(b, idle, now, p, pane);
    assert id !in p.pairs;
    assert forall l :: l in b.leases && l.task == id ==> l in p.book.leases;
  }

  /** A pass leaves nothing for the next: with the same idle workers it allocates no task and
      changes nothing, so concurrent ticks cannot claim an offer twice. */
  lemma SecondPassIsIdle(b: Book, idle: set<Pane>, now: int, workers: seq<Pane>, cands: seq<TaskId>,
                         workers2: seq<Pane>, cands2: seq<TaskId>)
    requires Queued(b, workers, cands)
    requires Queued(PassOver(b, idle, now, workers, cands).book, workers2, cands2)
    ensures var p := PassOver(b, idle, now, workers, cands);
            PassOver(p.book, idle, now, workers2, cands2) == Pass(p.book, map[])
  {
    var p := PassOver(b, idle, now, workers, cands);
    QueuesAreDistinct(b, workers, cands);
    PassIsGreedy(b, idle, now, workers, cands);
    PassIsFair(b, idle, now, workers, cands);
    forall id, pane ensures !Fits(p.book, idle, now, id, pane) {
      if Fits(p.book, idle, now, id, pane) { StillFits(b, idle, now, p, id, pane); }
    }
    NothingFits(p.book, idle, now, workers2, cands2);
  }

  lemma {:induction false} NothingFits(b: Book, idle: set<Pane>, now: int, workers: seq<Pane>, cands: seq<TaskId>)
    requires forall id, pane :: !Fits(b, idle, now, id, pane)
    ensures PassOver(b, idle, now, workers, cands) == Pass(b, map[])
    decreases |cands|
  {
    if cands != [] {
      NothingFits(b, idle, now, workers, cands[..|cands| - 1]);
      var none: map<TaskId, Pane> := map[];
      assert none.Values == {};
      NobodyFits(b, idle, now, workers, cands[|cands| - 1]);
    }
  }

  lemma {:induction false} NobodyFits(b: Book, idle: set<Pane>, now: int, workers: seq<Pane>, id: TaskId)
    requires forall t, pane :: !Fits(b, idle, now, t, pane)
    ensures Matching.FirstFit(workers, {}, id, FitsIn(b, idle, now)) == None
    decreases |workers|
  {
    if workers != [] {
      NobodyFits(b, idle, now, workers[..|workers| - 1], id);
      assert !FitsIn(b, idle, now)(id, workers[|workers| - 1]);
    }
  }

  // ---------------------------------------------------------------- who may never review

  /** What happens to the book.  `Elsewhere` is any work on tasks outside the allocator. */
  datatype Event =
    | Register(pane: Pane, worker: Worker)
    | Offering(id: TaskId, pool: Tag, needs: seq<Tag>, now: int)
    | Submitting(source: TaskId, revision: string, body: string, pool: Tag, needs: seq<Tag>, author: Pane, now: int)
    | Allocating(idle: set<Pane>, now: int, workers: seq<Pane>, cands: seq<TaskId>)
    | Elsewhere(tasks: map<TaskId, Task>, counter: nat, leases: set<Lease>, handoffs: seq<Handoff>)

  predicate Accepted(b: Book, e: Event)
    requires e.Submitting?
  {
    Reviewed(b, e.source, e.revision, e.body, e.pool, e.needs, e.author, e.now).Ok?
  }

  function Next(b: Book, e: Event): Book {
    match e
    case Register(pane, worker) =>
      var turn := if pane in b.workers then b.workers[pane].lastAssigned else 0;
      b.(workers := b.workers[pane := worker.(lastAssigned := turn)])
    case Offering(id, pool, needs, now) =>
      var r := OfferedWork(b, id, pool, needs, now);
      if r.Ok? then r.value else b
    case Submitting(source, revision, body, pool, needs, author, now) =>
      var r := Reviewed(b, source, revision, body, pool, needs, author, now);
      if r.Ok? then r.value.book else b
    case Allocating(idle, now, workers, cands) => PassOver(b, idle, now, workers, cands).book
    case Elsewhere(tasks, counter, leases, handoffs) =>
      b.(tasks := tasks, counter := counter, leases := leases, handoffs := handoffs)
  }

  /** The name was given out by the counter. */
  ghost predicate Issued(id: TaskId, counter: nat) {
    exists n: nat :: n <= counter && id == TaskName(n)
  }

  /** The counter of the tasks only grows, and names come from it alone. */
  ghost predicate Possible(b: Book, e: Event) {
    match e
    case Allocating(_, _, workers, cands) => Queued(b, workers, cands)
    case Elsewhere(tasks, counter, _, _) => b.counter <= counter && forall id :: id in tasks ==> Issued(id, counter)
    case _ => true
  }

  const BLANK := Book(map[], 0, {}, [], map[], map[], map[])

  function Run(es: seq<Event>): Book
    decreases |es|
  {
    if es == [] then BLANK else Next(Run(es[..|es| - 1]), es[|es| - 1])
  }

  ghost predicate Legal(es: seq<Event>)
    decreases |es|
  {
    es == [] || (Legal(es[..|es| - 1]) && Possible(Run(es[..|es| - 1]), es[|es| - 1]))
  }

  /** The call opens or reopens the review of `source`. */
  predicate Submits(b: Book, e: Event, source: TaskId) {
    e.Submitting? && e.source == source && Accepted(b, e)
    && !(source in b.reviews && b.reviews[source].revision == e.revision)
  }

  /** Everybody who was a party of the task at one of its submissions. */
  function Barred(es: seq<Event>, source: TaskId): set<Pane>
    decreases |es|
  {
    if es == [] then {}
    else
      var before, e := es[..|es| - 1], es[|es| - 1];
      Barred(before, source) + (if Submits(Run(before), e, source) && source in Run(before).tasks
                                then Parties(Run(before).tasks[source]) else {})
  }

  // ---------------------------------------------------------------- the rows stay in step

  ghost predicate NamesIssued(b: Book) {
    && (forall id :: id in b.tasks ==> Issued(id, b.counter))
    && (forall id :: id in b.offers ==> Issued(id, b.counter))
    && (forall s :: s in b.reviews ==> Issued(b.reviews[s].task, b.counter))
  }

  predicate OneReviewEach(b: Book) {
    forall s, t :: s in b.reviews && t in b.reviews && b.reviews[s].task == b.reviews[t].task ==> s == t
  }

  /** The review of `source` excludes exactly `barred`, its author among them. */
  predicate Excludes(b: Book, source: TaskId, barred: set<Pane>) {
    if source in b.reviews then
      var r := b.reviews[source];
      r.task in b.offers && b.offers[r.task].role == "reviewer" && b.offers[r.task].excluded == barred
        && r.author in barred
    else barred == {}
  }

  lemma NextNameIsNew(id: TaskId, counter: nat)
    requires Issued(id, counter)
    ensures id != TaskName(counter + 1)
  {
    var n: nat :| n <= counter && id == TaskName(n);
    if id == TaskName(counter + 1) {
      assert TaskName(n)[1..] == Decimal.Numeral(n) && TaskName(counter + 1)[1..] == Decimal.Numeral(counter + 1);
      Decimal.NumeralIsInjective(n, counter + 1);
    }
  }

  /** What an accepted submission of a new revision does to the offers and the reviews. */
  predicate Resubmitted(b: Book, e: Event, t: Book)
    requires e.Submitting?
  {
    var id := ReviewTask(b, e.source);
    && e.source in b.tasks && e.author in b.tasks[e.source].assignees
    && (e.source in b.reviews ==> e.author == b.reviews[e.source].author && id in b.tasks)
    && t.counter == (if e.source in b.reviews then b.counter else b.counter + 1)
    && t.tasks.Keys == b.tasks.Keys + {id}
    && t.reviews == b.reviews[e.source := Review(id, e.revision, e.author)]
    && t.offers == b.offers[id := Offer(e.pool, "reviewer", SetOf(e.needs),
                                        Parties(b.tasks[e.source]) + PriorExclusion(b, id), {e.author}, true)]
  }

  lemma SubmissionDoes(b: Book, e: Event)
    requires e.Submitting? && Accepted(b, e)
    ensures if Submits(b, e, e.source) then Resubmitted(b, e, Next(b, e)) else Next(b, e) == b
  {}

  /** Every other event leaves the reviews, and the terms on which their tasks are offered, alone. */
  predicate KeepsReviews(b: Book, t: Book) {
    && t.reviews == b.reviews
    && (forall s :: s in b.reviews && b.reviews[s].task in b.offers ==>
          var id := b.reviews[s].task;
          id in t.offers && t.offers[id].role == b.offers[id].role && t.offers[id].excluded == b.offers[id].excluded)
  }

  /** One event, as far as names, offers and reviews go; `renews` is an accepted new revision. */
  ghost predicate Stepped(b: Book, e: Event, renews: bool, t: Book) {
    && b.counter <= t.counter
    && (if renews then e.Submitting? && Resubmitted(b, e, t)
        else
          && KeepsReviews(b, t)
          && (forall id :: id in t.tasks ==> id in b.tasks || Issued(id, t.counter))
          && (forall id :: id in t.offers ==> id in b.offers || id in b.tasks))
  }

  predicate Renews(b: Book, e: Event) {
    e.Submitting? && Submits(b, e, e.source)
  }

  lemma NextSteps(b: Book, e: Event)
    requires Possible(b, e)
    ensures Stepped(b, e, Renews(b, e), Next(b, e))
  {
    if e.Submitting? {
      if Accepted(b, e) { SubmissionDoes(b, e); }
    } else if e.Allocating? {
      QueuesAreDistinct(b, e.workers, e.cands);
      PassIsGreedy(b, e.idle, e.now, e.workers, e.cands);
    }
  }

  lemma NamesStayIssued(b: Book, e: Event, renews: bool, t: Book)
    requires NamesIssued(b) && Stepped(b, e, renews, t)
    ensures NamesIssued(t)
  {
    assert Issued(TaskName(b.counter + 1), b.counter + 1);
  }

  /** A review added under a new task, or put in the place of its own, is not mistaken for another. */
  lemma AddedApart(reviews: map<TaskId, Review>, source: TaskId, r: Review)
    requires forall s, t :: s in reviews && t in reviews && reviews[s].task == reviews[t].task ==> s == t
    requires forall s :: s in reviews && reviews[s].task == r.task ==> s == source
    ensures var after := reviews[source := r];
            forall s, t :: s in after && t in after && after[s].task == after[t].task ==> s == t
  {}

  lemma ReviewsStayApart(b: Book, e: Event, renews: bool, t: Book)
    requires NamesIssued(b) && OneReviewEach(b) && Stepped(b, e, renews, t)
    ensures OneReviewEach(t)
  {
    hide TaskName, Parties, PriorExclusion, Issued;
    if renews {
      forall s | s in b.reviews ensures b.reviews[s].task != TaskName(b.counter + 1) {
        NextNameIsNew(b.reviews[s].task, b.counter);
      }
      AddedApart(b.reviews, e.source, t.reviews[e.source]);
    }
  }

  lemma ExclusionStays(b: Book, e: Event, renews: bool, t: Book, source: TaskId, barred: set<Pane>)
    requires NamesIssued(b) && OneReviewEach(b) && Stepped(b, e, renews, t) && Excludes(b, source, barred)
    ensures Excludes(t, source, barred + if renews && e.source == source then Parties(b.tasks[source]) else {})
  {
    if renews {
      if source in b.reviews { NextNameIsNew(b.reviews[source].task, b.counter); }
      NewTaskHasNoOffer(b);
    }
  }

  lemma NewTaskHasNoOffer(b: Book)
    requires NamesIssued(b)
    ensures TaskName(b.counter + 1) !in b.offers
  {
    if TaskName(b.counter + 1) in b.offers {
      NextNameIsNew(TaskName(b.counter + 1), b.counter);
    }
  }

  /** In every run each source has one review task of its own, offered to reviewers, that excludes
      exactly the parties recorded at its submissions: the author, and every owner, creator and
      completer of the source at the time. */
  lemma {:induction false} ReviewsExclude(es: seq<Event>, source: TaskId)
    requires Legal(es)
    ensures NamesIssued(Run(es)) && OneReviewEach(Run(es)) && Excludes(Run(es), source, Barred(es, source))
    decreases |es|
  {
    if es != [] {
      var before, e := es[..|es| - 1], es[|es| - 1];
      var b, t, renews := Run(before), Run(es), Renews(Run(before), e);
      ReviewsExclude(before, source);
      NextSteps(b, e);
      NamesStayIssued(b, e, renews, t);
      ReviewsStayApart(b, e, renews, t);
      ExclusionStays(b, e, renews, t, source, Barred(before, source));
    }
  }

  /** Whoever was once barred stays barred, and the review keeps its task and its author. */
  lemma {:induction false} BarredForEver(es: seq<Event>, n: nat, source: TaskId)
    requires Legal(es) && n <= |es|
    ensures Barred(es[..n], source) <= Barred(es, source)
    ensures source in Run(es[..n]).reviews ==>
              && source in Run(es).reviews && Run(es).reviews[source].task == Run(es[..n]).reviews[source].task
              && Run(es).reviews[source].author == Run(es[..n]).reviews[source].author
    decreases |es|
  {
    if n == |es| {
      assert es[..n] == es;
    } else {
      var before := es[..|es| - 1];
      assert before[..n] == es[..n];
      BarredForEver(before, n, source);
      NextSteps(Run(before), es[|es| - 1]);
      if source in Run(before).reviews {
      }
    }
  }

  /** So no pass of any run hands a review to anybody barred from it, the author in particular. */
  lemma NeverReviewsOwnWork(es: seq<Event>, idle: set<Pane>, now: int, workers: seq<Pane>, cands: seq<TaskId>,
                            source: TaskId)
    requires Legal(es) && Queued(Run(es), workers, cands)
    requires source in Run(es).reviews
    ensures var r, pairs := Run(es).reviews[source], PassOver(Run(es), idle, now, workers, cands).pairs;
            r.author in Barred(es, source) && (r.task in pairs ==> pairs[r.task] !in Barred(es, source))
  {
    ReviewsExclude(es, source);
    QueuesAreDistinct(Run(es), workers, cands);
    PassIsGreedy(Run(es), idle, now, workers, cands);
    var p := PassOver(Run(es), idle, now, workers, cands);
    var id := Run(es).reviews[source].task;
    if id in p.pairs { assert Fits(Run(es), idle, now, id, p.pairs[id]); }
  }

  // ---------------------------------------------------------------- who completes the source later

  /** The pane was a party of the task at one of its submissions. */
  predicate PartyAtSubmission(es: seq<Event>, source: TaskId, pane: Pane) {
    exists n :: 0 <= n < |es| && SubmittedAt(es, n, source, pane)
  }

  predicate SubmittedAt(es: seq<Event>, n: nat, source: TaskId, pane: Pane)
    requires n < |es|
  {
    IsParty(Run(es[..n]), es[n], source, pane)
  }

  predicate IsParty(b: Book, e: Event, source: TaskId, pane: Pane) {
    Submits(b, e, source) && source in b.tasks && pane in Parties(b.tasks[source])
  }

  lemma PartyNext(es: seq<Event>, e: Event, source: TaskId, pane: Pane)
    ensures PartyAtSubmission(es + [e], source, pane) <==>
              PartyAtSubmission(es, source, pane) || IsParty(Run(es), e, source, pane)
  {
    var all := es + [e];
    assert all[..|es|] == es;
    forall k | 0 <= k < |es| ensures SubmittedAt(all, k, source, pane) <==> SubmittedAt(es, k, source, pane) {
      assert all[..k] == es[..k];
    }
    assert SubmittedAt(all, |es|, source, pane) <==> IsParty(Run(es), e, source, pane);
  }

  lemma {:induction false} BarredAreParties(es: seq<Event>, source: TaskId, pane: Pane)
    ensures pane in Barred(es, source) <==> PartyAtSubmission(es, source, pane)
    decreases |es|
  {
    if es != [] {
      var before, e := es[..|es| - 1], es[|es| - 1];
      assert es == before + [e];
      BarredAreParties(before, source, pane);
      PartyNext(before, e, source, pane);
    }
  }

  /** Exactly when somebody, the completer of the source included, is kept off its review: when they
      were an owner, the creator or the completer at one of its submissions.  What they are later
      does not matter. */
  lemma ExcludedExactly(es: seq<Event>, source: TaskId, pane: Pane)
    requires Legal(es) && source in Run(es).reviews
    ensures var id := Run(es).reviews[source].task;
            id in Run(es).offers && (pane in Run(es).offers[id].excluded <==> PartyAtSubmission(es, source, pane))
  {
    ReviewsExclude(es, source);
    BarredAreParties(es, source, pane);
  }

  lemma {:induction false} FirstIsKept(s: string)
    requires s != "" && !IsSpace(s[0])
    ensures Strip(s) != ""
    decreases |s|
  {
    if |s| > 1 && IsSpace(s[|s| - 1]) { FirstIsKept(s[..|s| - 1]); }
  }

  function Frozen(): string {
    seq(40, i => '0')
  }

  /** The only task of the book, owned by the author; the same, done by somebody else. */
  function SourceTask(author: Pane): Task {
    Task(true, "artifact", Open, 0, 0, {author}, false, false, false, 0, None, None, None)
  }

  function DoneBy(author: Pane, completer: Pane): Task {
    SourceTask(author).(status := Done, completedBy := Some(completer))
  }

  function ReviewRow(source: TaskId, author: Pane): Task {
    Task(true, ReviewBody(source, Frozen(), "look"), Open, 0, 0, {author}, false, false, false, 0, Some(source),
         Some(author), None)
  }

  function ReviewOffer(author: Pane): Offer {
    Offer("pool", "reviewer", {}, {author}, {author}, true)
  }

  function Written(author: Pane): Book {
    BLANK.(tasks := map[TaskName(1) := SourceTask(author)], counter := 1)
  }

  function InReview(author: Pane, source: Task, workers: map<Pane, Worker>): Book {
    Book(map[TaskName(1) := source, TaskName(2) := ReviewRow(TaskName(1), author)], 2, {}, [], workers,
         map[TaskName(2) := ReviewOffer(author)], map[TaskName(1) := Review(TaskName(2), Frozen(), author)])
  }

  function Reviewer(): Worker {
    Worker({"pool"}, {"reviewer"}, {}, true, 0)
  }

  lemma NamesDiffer()
    ensures TaskName(1) != TaskName(2) && Issued(TaskName(1), 1) && Issued(TaskName(1), 2) && Issued(TaskName(2), 2)
  {
    assert Issued(TaskName(1), 1) && Issued(TaskName(1), 2) && Issued(TaskName(2), 2);
    NextNameIsNew(TaskName(1), 1);
  }

  lemma StorySubmits(author: Pane)
    requires author != ""
    ensures var r := Reviewed(Written(author), TaskName(1), Frozen(), "look", "pool", [], author, 0);
            r.Ok? && r.value.book == InReview(author, SourceTask(author), map[])
  {
    NamesDiffer();
    FirstIsKept("look");
    var body := ReviewBody(TaskName(1), Frozen(), "look");
    assert body[0] == 'F';
    FirstIsKept(body);
    assert SetOf<Tag>([]) == {} && {author} + {} + {} == {author};
    assert ValidTag("pool");
  }

  lemma StoryPass(author: Pane, completer: Pane)
    requires author != completer
    ensures var b := InReview(author, DoneBy(author, completer), map[completer := Reviewer()]);
            && Queued(b, [completer], [TaskName(2)])
            && PassOver(b, {completer}, 0, [completer], [TaskName(2)]).pairs == map[TaskName(2) := completer]
  {
    NamesDiffer();
    var review := TaskName(2);
    var b := InReview(author, DoneBy(author, completer), map[completer := Reviewer()]);
    var fits := FitsIn(b, {completer}, 0);
    assert Allocatable(b, 0, review) && Meets(b.workers[completer], b.offers[review], completer);
    assert Free(b, 0, completer);
    assert fits(review, completer);
    assert [completer][..0] == [] && [review][..0] == [];
    assert Matching.FirstFit([], {}, review, fits) == None;
    assert Matching.FirstFit([completer], {}, review, fits) == Some(completer);
    var none: map<TaskId, Pane> := map[];
    assert none.Values == {};
    assert PassOver(b, {completer}, 0, [completer], []) == Pass(b, map[]);
  }

  lemma StoryAllocates(author: Pane, completer: Pane)
    requires author != completer
    ensures var b := InReview(author, DoneBy(author, completer), map[completer := Reviewer()]);
            var p := PassOver(b, {completer}, 0, [completer], [TaskName(2)]);
            && p.book.reviews == b.reviews && p.book.tasks.Keys == {TaskName(1), TaskName(2)}
            && p.book.tasks[TaskName(1)].completedBy == Some(completer)
            && p.book.tasks[TaskName(2)].assignees == {completer}
  {
    hide PassOver, Issued;
    NamesDiffer();
    StoryPass(author, completer);
    var b := InReview(author, DoneBy(author, completer), map[completer := Reviewer()]);
    QueuesAreDistinct(b, [completer], [TaskName(2)]);
    PassIsGreedy(b, {completer}, 0, [completer], [TaskName(2)]);
  }

  function FirstSubmission(author: Pane): Event {
    Submitting(TaskName(1), Frozen(), "look", "pool", [], author, 0)
  }

  function Completion(author: Pane, completer: Pane): Event {
    Elsewhere(map[TaskName(1) := DoneBy(author, completer), TaskName(2) := ReviewRow(TaskName(1), author)], 2, {}, [])
  }

  function Story(author: Pane, completer: Pane): seq<Event> {
    [] + [Elsewhere(map[TaskName(1) := SourceTask(author)], 1, {}, [])]
    + [FirstSubmission(author)] + [Completion(author, completer)] + [Register(completer, Reviewer())]
    + [Allocating({completer}, 0, [completer], [TaskName(2)])]
  }

  /** A run that leads to the book. */
  ghost predicate Reaches(es: seq<Event>, b: Book) {
    Legal(es) && Run(es) == b
  }

  lemma ReachesNext(es: seq<Event>, b: Book, e: Event, t: Book)
    requires Reaches(es, b) && Possible(b, e) && Next(b, e) == t
    ensures Reaches(es + [e], t)
  {
    assert (es + [e])[..|es|] == es;
  }

  lemma StoryBegins(author: Pane)
    requires author != ""
    ensures Reaches([] + [Elsewhere(map[TaskName(1) := SourceTask(author)], 1, {}, [])] + [FirstSubmission(author)],
                    InReview(author, SourceTask(author), map[]))
  {
    NamesDiffer();
    StorySubmits(author);
    var e := Elsewhere(map[TaskName(1) := SourceTask(author)], 1, {}, []);
    ReachesNext([], BLANK, e, Written(author));
    ReachesNext([] + [e], Written(author), FirstSubmission(author), InReview(author, SourceTask(author), map[]));
  }

  /** The author submits; somebody else completes the source; and the pass hands them its review. */
  lemma LaterCompleterReviews(author: Pane, completer: Pane)
    requires author != "" && completer != "" && author != completer
    ensures var es, source := Story(author, completer), TaskName(1);
            && Legal(es) && source in Run(es).tasks && Run(es).tasks[source].completedBy == Some(completer)
            && source in Run(es).reviews && Run(es).reviews[source].task in Run(es).tasks
            && Run(es).tasks[Run(es).reviews[source].task].assignees == {completer}
  {
    StoryBegins(author);
    StoryPass(author, completer);
    StoryAllocates(author, completer);
    var es := [] + [Elsewhere(map[TaskName(1) := SourceTask(author)], 1, {}, [])] + [FirstSubmission(author)];
    var b := InReview(author, SourceTask(author), map[]);
    var d := InReview(author, DoneBy(author, completer), map[]);
    var f := InReview(author, DoneBy(author, completer), map[completer := Reviewer()]);
    ReachesNext(es, b, Completion(author, completer), d);
    ReachesNext(es + [Completion(author, completer)], d, Register(completer, Reviewer()), f);
    var last := Allocating({completer}, 0, [completer], [TaskName(2)]);
    ReachesNext(es + [Completion(author, completer)] + [Register(completer, Reviewer())], f, last, Next(f, last));
  }

  /** The submission of this revision has been made. */
  predicate Standing(b: Book, e: Event)
    requires e.Submitting?
  {
    && FullRevision(e.revision) && Strip(e.body) != ""
    && e.source in b.tasks && b.tasks[e.source].shared && e.author in b.tasks[e.source].assignees
    && e.source in b.reviews && b.reviews[e.source].author == e.author && b.reviews[e.source].revision == e.revision
    && b.reviews[e.source].task in b.tasks
  }

  lemma StandingReturns(b: Book, e: Event, later: int)
    requires e.Submitting? && Standing(b, e)
    ensures Reviewed(b, e.source, e.revision, e.body, e.pool, e.needs, e.author, later)
            == Ok(Submission(b, b.reviews[e.source].task))
  {}

  /** Repeating a submission returns the same review task and changes nothing. */
  lemma ResubmittingIsIdempotent(es: seq<Event>, e: Event, later: int)
    requires Legal(es) && e.Submitting? && Accepted(Run(es), e)
    ensures var b := Next(Run(es), e);
            Reviewed(b, e.source, e.revision, e.body, e.pool, e.needs, e.author, later)
            == Ok(Submission(b, ReviewTask(Run(es), e.source)))
  {
    ReviewsExclude(es, e.source);
    NextNameIsNew(e.source, Run(es).counter);
    StandingReturns(Next(Run(es), e), e, later);
  }
}
