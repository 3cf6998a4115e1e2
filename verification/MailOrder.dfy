/** The order in which one mailbox is read, over whole runs. */
module MailOrder {
  import opened Wrappers
  import opened Text
  import opened Mail
  import opened MailStore

  /** A message as it was put into the mailbox. */
  datatype Copy = Copy(id: Id, created: int)

  /** `d` is `s` with some elements left out. */
  predicate Subsequence(d: seq<Copy>, s: seq<Copy>)
    decreases |s|
  {
    if d == [] then true
    else if s == [] then false
    else Subsequence(if d[|d| - 1] == s[|s| - 1] then d[..|d| - 1] else d, s[..|s| - 1])
  }

  lemma {:induction false} DropLast(d: seq<Copy>, s: seq<Copy>)
    requires Subsequence(d, s) && d != []
    ensures Subsequence(d[..|d| - 1], s)
    decreases |s|
  {
    var e, t := d[..|d| - 1], s[..|s| - 1];
    if d[|d| - 1] != s[|s| - 1] { DropLast(d, t); }
    if e != [] { DropLast(e, t); }
  }

  lemma Weaken(d: seq<Copy>, s: seq<Copy>)
    requires s != [] && Subsequence(d, s[..|s| - 1])
    ensures Subsequence(d, s)
  {
    if d != [] { DropLast(d, s[..|s| - 1]); }
  }

  lemma {:induction false} SubsequenceIsTransitive(a: seq<Copy>, b: seq<Copy>, c: seq<Copy>)
    requires Subsequence(a, b) && Subsequence(b, c)
    ensures Subsequence(a, c)
    decreases |c|
  {
    if a != [] {
      var before := c[..|c| - 1];
      if b[|b| - 1] != c[|c| - 1] {
        SubsequenceIsTransitive(a, b, before);
        Weaken(a, c);
      } else if a[|a| - 1] == b[|b| - 1] {
        SubsequenceIsTransitive(a[..|a| - 1], b[..|b| - 1], before);
      } else {
        SubsequenceIsTransitive(a, b[..|b| - 1], before);
        Weaken(a, c);
      }
    }
  }

  lemma {:induction false} SubsequenceBehind(a: seq<Copy>, d: seq<Copy>, s: seq<Copy>)
    requires Subsequence(d, s)
    ensures Subsequence(a + d, a + s)
    decreases |s|
  {
    if s == [] {
      SubsequenceOfItself(a + s);
    } else {
      var t := s[..|s| - 1];
      assert (a + s)[..|a + s| - 1] == a + t;
      if d != [] && d[|d| - 1] == s[|s| - 1] {
        assert (a + d)[..|a + d| - 1] == a + d[..|d| - 1];
        SubsequenceBehind(a, d[..|d| - 1], t);
      } else {
        SubsequenceBehind(a, d, t);
        Weaken(a + d, a + s);
      }
    }
  }

  lemma {:induction false} SubsequenceOfItself(s: seq<Copy>)
    ensures Subsequence(s, s)
    decreases |s|
  {
    if s != [] { SubsequenceOfItself(s[..|s| - 1]); }
  }

  /** Subsequences go on being so when the same is added to both. */
  lemma SubsequenceGrows(d: seq<Copy>, s: seq<Copy>, e: seq<Copy>)
    requires Subsequence(d, s) && |e| <= 1
    ensures Subsequence(d + e, s + e)
  {
    if e == [] {
      assert d + e == d && s + e == s;
    } else {
      assert (d + e)[..|d + e| - 1] == d && (s + e)[..|s + e| - 1] == s;
    }
  }

  lemma {:induction false} FrontIsSubsequence(d: seq<Copy>, e: seq<Copy>, s: seq<Copy>)
    requires Subsequence(d + e, s)
    ensures Subsequence(d, s)
    decreases |e|
  {
    if e == [] {
      assert d + e == d;
    } else {
      DropLast(d + e, s);
      assert (d + e)[..|d + e| - 1] == d + e[..|e| - 1];
      FrontIsSubsequence(d, e[..|e| - 1], s);
    }
  }

  lemma {:induction false} SubsequenceIsInside(d: seq<Copy>, s: seq<Copy>, x: Copy)
    requires Subsequence(d, s) && x in d
    ensures x in s
    decreases |s|
  {
    if d[|d| - 1] == s[|s| - 1] {
      assert d == d[..|d| - 1] + [s[|s| - 1]];
      if x != s[|s| - 1] { SubsequenceIsInside(d[..|d| - 1], s[..|s| - 1], x); }
    } else {
      SubsequenceIsInside(d, s[..|s| - 1], x);
    }
  }

  // ---------------------------------------------------------------- what went in, what came out

  /** The message a call puts into the database, if any. */
  function Arrived(s: Store, q: Request, limits: Limits): Option<Id> {
    var t := After(s, q, limits);
    if t.counter > s.counter then Some(Sent(t.counter))
    else if q.EnsureNextJob? && Appears(s, q, limits, q.id) then Some(q.id)
    else None
  }

  lemma ArrivedIsNew(s: Store, q: Request, limits: Limits, id: Id)
    requires MailSound(s.messages, s.counter) && Possible(s, q)
    ensures Arrived(s, q, limits) == Some(id) <==> Appears(s, q, limits, id)
  {
    if Appears(s, q, limits, id) {
      StepAdds(s, q, limits, id);
    }
    if q.Transition? { TransitionMoves(s.messages, q.ids, q.move, q.owner, q.now); }
  }

  function CopyOf(ms: Table, id: Id): Copy
    requires id in ms
  {
    Copy(id, ms[id].created)
  }

  function Entering(s: Store, q: Request, limits: Limits, mailbox: string): seq<Copy> {
    var id, ms := Arrived(s, q, limits), After(s, q, limits).messages;
    if id.Some? && id.value in ms && ms[id.value].mailbox == mailbox then [CopyOf(ms, id.value)] else []
  }

  /** The messages put into the mailbox, in order. */
  function Posted(qs: seq<Request>, limits: Limits, mailbox: string): seq<Copy>
    decreases |qs|
  {
    if qs == [] then []
    else Posted(qs[..|qs| - 1], limits, mailbox) + Entering(Run(qs[..|qs| - 1], limits), qs[|qs| - 1], limits, mailbox)
  }

  predicate Reading(q: Request, mailbox: string) {
    q.Update? && q.call.ReadBox? && q.call.marks && q.call.mailbox == mailbox
  }

  function Leaving(s: Store, q: Request, mailbox: string): (r: seq<Copy>)
    ensures Reading(q, mailbox) && (forall id :: id in q.call.batch ==> id in s.messages) ==>
              |r| == |q.call.batch| && forall i :: 0 <= i < |r| ==> r[i] == CopyOf(s.messages, q.call.batch[i])
    ensures !Reading(q, mailbox) ==> r == []
  {
    if Reading(q, mailbox) && (forall id :: id in q.call.batch ==> id in s.messages)
    then seq(|q.call.batch|, i requires 0 <= i < |q.call.batch| => CopyOf(s.messages, q.call.batch[i]))
    else []
  }

  /** The messages handed out by the marking reads of the mailbox, in order. */
  function HandedOut(qs: seq<Request>, limits: Limits, mailbox: string): seq<Copy>
    decreases |qs|
  {
    if qs == [] then []
    else HandedOut(qs[..|qs| - 1], limits, mailbox) + Leaving(Run(qs[..|qs| - 1], limits), qs[|qs| - 1], mailbox)
  }

  // ---------------------------------------------------------------- the condition on the run

  /** The call brings nothing old into the mailbox: no digest is re-published there and no other
      mailbox is renamed to it. */
  predicate BringsNothingOld(s: Store, q: Request, mailbox: string) {
    && (q.Digest? && q.mailbox == mailbox ==> forall id :: id in s.messages ==> !Republishes(s, q, id))
    && (q.Update? && q.call.Rename? ==> q.call.to != mailbox)
  }

  /** A new message of the mailbox is stamped no later than one that is waiting there. */
  predicate Overtakes(s: Store, q: Request, limits: Limits, mailbox: string) {
    exists id, c :: id in s.messages && Waiting(s.messages, mailbox, id)
                    && c in Entering(s, q, limits, mailbox) && c.created <= s.messages[id].created
  }

  predicate SteadyAt(qs: seq<Request>, limits: Limits, mailbox: string, n: nat)
    requires n < |qs|
  {
    var s := Run(qs[..n], limits);
    BringsNothingOld(s, qs[n], mailbox) && !Overtakes(s, qs[n], limits, mailbox)
  }

  predicate Steady(qs: seq<Request>, limits: Limits, mailbox: string) {
    forall n :: 0 <= n < |qs| ==> SteadyAt(qs, limits, mailbox, n)
  }

  lemma SteadyBefore(qs: seq<Request>, limits: Limits, mailbox: string)
    requires qs != [] && Steady(qs, limits, mailbox)
    ensures Steady(qs[..|qs| - 1], limits, mailbox) && SteadyAt(qs, limits, mailbox, |qs| - 1)
  {
    var before := qs[..|qs| - 1];
    forall n | 0 <= n < |before| ensures SteadyAt(before, limits, mailbox, n) {
      assert before[..n] == qs[..n] && SteadyAt(qs, limits, mailbox, n);
    }
  }

  // ---------------------------------------------------------------- first in, first out

  /** The ids of a queue that are still waiting. */
  function Left(queue: seq<Id>, ms: Table, mailbox: string): (r: seq<Id>)
    ensures forall id :: id in r <==> id in queue && Waiting(ms, mailbox, id)
  {
    if queue == [] then []
    else
      var rest, last := Left(queue[..|queue| - 1], ms, mailbox), queue[|queue| - 1];
      if Waiting(ms, mailbox, last) then rest + [last] else rest
  }

  function Copies(ms: Table, ids: seq<Id>): (r: seq<Copy>)
    requires forall i :: 0 <= i < |ids| ==> ids[i] in ms
    ensures |r| == |ids| && forall i :: 0 <= i < |ids| ==> r[i] == CopyOf(ms, ids[i])
  {
    seq(|ids|, i requires 0 <= i < |ids| => CopyOf(ms, ids[i]))
  }

  /** The messages waiting in the mailbox, in the order in which they were posted. */
  predicate IsQueue(ms: Table, mailbox: string, queue: seq<Id>) {
    && (forall i :: 0 <= i < |queue| ==> queue[i] in ms && Waiting(ms, mailbox, queue[i]))
    && (forall id :: id in ms && Waiting(ms, mailbox, id) ==> id in queue)
    && forall i, j :: 0 <= i < j < |queue| ==> Earlier(ms, queue[i], queue[j])
  }

  predicate Earlier(ms: Table, a: Id, b: Id) {
    a in ms && b in ms && ms[a].created < ms[b].created
  }

  /** What was handed out, and then what is waiting, is in the order in which it was posted. */
  predicate Fifo(ms: Table, mailbox: string, queue: seq<Id>, posted: seq<Copy>, out: seq<Copy>) {
    IsQueue(ms, mailbox, queue) && Subsequence(out + Copies(ms, queue), posted)
  }

  lemma StaysInPlace(s: Store, q: Request, limits: Limits, mailbox: string, id: Id)
    requires MailSound(s.messages, s.counter) && Possible(s, q) && BringsNothingOld(s, q, mailbox)
    requires id in s.messages && id in After(s, q, limits).messages
             && Waiting(After(s, q, limits).messages, mailbox, id)
    ensures Waiting(s.messages, mailbox, id) && After(s, q, limits).messages[id].created == s.messages[id].created
  {
    StepAges(s, q, limits, id);
    MailboxStays(s, q, limits, id);
  }

  lemma MailboxStays(s: Store, q: Request, limits: Limits, id: Id)
    requires MailSound(s.messages, s.counter) && Possible(s, q)
    requires id in s.messages && id in After(s, q, limits).messages
    ensures var m, n := s.messages[id], After(s, q, limits).messages[id];
            n.mailbox == if Republishes(s, q, id) then q.mailbox
                         else if q.Update? && q.call.Rename? && m.mailbox == q.call.from then q.call.to
                         else m.mailbox
  {
    if q.Send? || q.Digest? {
      assert id.Sent? ==> id.number <= s.counter;
    } else if q.Transition? {
      TransitionMoves(s.messages, q.ids, q.move, q.owner, q.now);
    }
  }

  predicate SameUpTo(a: seq<Id>, b: seq<Id>, n: nat) {
    n <= |a| && n <= |b| && forall i :: 0 <= i < n ==> a[i] == b[i]
  }

  lemma NotEarlierBoth(ms: Table, a: Id, b: Id)
    requires Earlier(ms, a, b)
    ensures a != b && ms[a].created < ms[b].created
  {}

  /** The next of a batch is the next of the queue. */
  lemma NextInFront(ms: Table, mailbox: string, queue: seq<Id>, batch: seq<Id>, limit: int, n: nat)
    requires IsQueue(ms, mailbox, queue) && IsBatch(ms, mailbox, limit, batch) && SameUpTo(batch, queue, n)
             && n < |batch|
    ensures n < |queue| && batch[n] == queue[n]
  {
    hide Waiting, Earlier;
    assert Waiting(ms, mailbox, batch[n]) && batch[n] in ms by { WaitingIsThere(ms, mailbox, batch[n]); }
    assert forall i :: 0 <= i < n ==> queue[i] == batch[i] && queue[i] != batch[n];
    var k :| 0 <= k < |queue| && queue[k] == batch[n];
    if n < k {
      NotEarlierBoth(ms, queue[n], queue[k]);
      assert forall j :: 0 <= j < n ==> batch[j] != queue[n] by {
        forall j | 0 <= j < n ensures batch[j] != queue[n] { NotEarlierBoth(ms, queue[j], queue[n]); }
      }
      if queue[n] in batch {
        var j :| 0 <= j < |batch| && batch[j] == queue[n];
      }
    }
  }

  lemma WaitingIsThere(ms: Table, mailbox: string, id: Id)
    ensures Waiting(ms, mailbox, id) ==> id in ms
  {}

  /** A batch is the front of the queue. */
  lemma {:induction false} BatchIsFront(ms: Table, mailbox: string, queue: seq<Id>, batch: seq<Id>, limit: int, n: nat)
    requires IsQueue(ms, mailbox, queue) && IsBatch(ms, mailbox, limit, batch) && n <= |batch|
    ensures SameUpTo(batch, queue, n)
  {
    hide IsQueue, IsBatch;
    if n > 0 {
      BatchIsFront(ms, mailbox, queue, batch, limit, n - 1);
      NextInFront(ms, mailbox, queue, batch, limit, n - 1);
    }
  }

  /** What stands behind the batch is the queue once the batch has been read. */
  lemma RestIsQueue(ms: Table, after: Table, mailbox: string, queue: seq<Id>, batch: seq<Id>, rest: seq<Id>, now: int)
    requires IsQueue(ms, mailbox, queue) && queue == batch + rest
             && after == Bulk(ms, ReadBox(mailbox, batch, true, now))
    ensures IsQueue(after, mailbox, rest)
    ensures forall i :: 0 <= i < |queue| ==> queue[i] in ms
    ensures forall i :: 0 <= i < |rest| ==>
              rest[i] in ms && rest[i] in after && CopyOf(after, rest[i]) == CopyOf(ms, rest[i])
  {
    forall i | 0 <= i < |rest|
      ensures rest[i] in ms && after[rest[i]] == ms[rest[i]] && Waiting(after, mailbox, rest[i])
    {
      assert rest[i] == queue[|batch| + i];
      forall j | 0 <= j < |batch| ensures batch[j] != rest[i] { assert Earlier(ms, queue[j], queue[|batch| + i]); }
    }
    forall i, j | 0 <= i < j < |rest| ensures Earlier(after, rest[i], rest[j]) {
      assert Earlier(ms, queue[|batch| + i], queue[|batch| + j]);
    }
    forall id | id in after && Waiting(after, mailbox, id) ensures id in rest {
      assert id !in batch && Waiting(ms, mailbox, id) && id in queue;
    }
  }

  /** A marking read takes the front of the queue and leaves the rest of it. */
  lemma ReadTakesTheFront(s: Store, q: Request, limits: Limits, mailbox: string, queue: seq<Id>, posted: seq<Copy>,
                          out: seq<Copy>)
    returns (rest: seq<Id>)
    requires Possible(s, q) && Reading(q, mailbox) && Fifo(s.messages, mailbox, queue, posted, out)
    ensures queue == q.call.batch + rest
    ensures Fifo(After(s, q, limits).messages, mailbox, rest, posted, out + Leaving(s, q, mailbox))
  {
    hide Subsequence, Bulk, Waiting, Earlier;
    var ms, batch, after := s.messages, q.call.batch, After(s, q, limits).messages;
    var limit :| IsBatch(ms, mailbox, limit, batch);
    BatchIsFront(ms, mailbox, queue, batch, limit, |batch|);
    rest := queue[|batch|..];
    assert queue == batch + rest;
    RestIsQueue(ms, after, mailbox, queue, batch, rest, q.call.now);
    hide After, IsBatch, IsQueue;
    CopiesSplit(s, q, mailbox, after, batch, rest, queue);
    var more := Leaving(s, q, mailbox);
    assert (out + more) + Copies(after, rest) == out + (more + Copies(after, rest));
  }

  lemma CopiesSplit(s: Store, q: Request, mailbox: string, after: Table, batch: seq<Id>, rest: seq<Id>, queue: seq<Id>)
    requires Reading(q, mailbox) && batch == q.call.batch && queue == batch + rest
    requires forall i :: 0 <= i < |queue| ==> queue[i] in s.messages
    requires forall i :: 0 <= i < |rest| ==>
               rest[i] in s.messages && rest[i] in after && CopyOf(after, rest[i]) == CopyOf(s.messages, rest[i])
    ensures Leaving(s, q, mailbox) + Copies(after, rest) == Copies(s.messages, queue)
  {
    forall id | id in batch ensures id in s.messages {
      var i :| 0 <= i < |batch| && batch[i] == id;
      assert queue[i] == id;
    }
    var more, all := Leaving(s, q, mailbox), Copies(s.messages, queue);
    forall i | 0 <= i < |queue| ensures (more + Copies(after, rest))[i] == all[i] {
      if i >= |batch| { assert queue[i] == rest[i - |batch|]; }
    }
  }

  /** What is left of a queue, as copies, is a subsequence of it. */
  lemma {:induction false} LeftIsSubsequence(before: Table, after: Table, mailbox: string, queue: seq<Id>)
    requires forall i :: 0 <= i < |queue| ==> queue[i] in before
    requires forall id :: id in queue && Waiting(after, mailbox, id) ==> CopyOf(after, id) == CopyOf(before, id)
    requires forall i, j :: 0 <= i < j < |queue| ==> Earlier(before, queue[i], queue[j])
    ensures var r := Left(queue, after, mailbox);
            && (forall i :: 0 <= i < |r| ==> r[i] in after)
            && (forall i, j :: 0 <= i < j < |r| ==> Earlier(after, r[i], r[j]))
            && Subsequence(Copies(after, r), Copies(before, queue))
    decreases |queue|
  {
    hide Subsequence;
    var r := Left(queue, after, mailbox);
    forall i | 0 <= i < |r| ensures r[i] in after { assert r[i] in r; }
    if queue == [] {
      SubsequenceOfItself(Copies(after, r));
    } else {
      var front, last := queue[..|queue| - 1], queue[|queue| - 1];
      assert queue == front + [last];
      LeftIsSubsequence(before, after, mailbox, front);
      LeftNext(before, after, mailbox, front, last);
    }
  }

  lemma LeftSnoc(after: Table, mailbox: string, front: seq<Id>, last: Id)
    ensures Left(front + [last], after, mailbox)
            == if Waiting(after, mailbox, last) then Left(front, after, mailbox) + [last]
              else Left(front, after, mailbox)
  {
    hide Waiting;
    var queue := front + [last];
    assert queue[..|queue| - 1] == front;
  }

  lemma EarlierStays(before: Table, after: Table, a: Id, b: Id)
    requires Earlier(before, a, b) && a in after && b in after
    requires CopyOf(after, a) == CopyOf(before, a) && CopyOf(after, b) == CopyOf(before, b)
    ensures Earlier(after, a, b)
  {}

  lemma CopiesSnoc(ms: Table, front: seq<Id>, last: Id)
    requires (forall i :: 0 <= i < |front| ==> front[i] in ms) && last in ms
    ensures Copies(ms, front + [last]) == Copies(ms, front) + [CopyOf(ms, last)]
  {}

  lemma LeftNext(before: Table, after: Table, mailbox: string, front: seq<Id>, last: Id)
    requires (forall i :: 0 <= i < |front| ==> front[i] in before) && last in before
    requires forall id :: id in front && Waiting(after, mailbox, id) ==> CopyOf(after, id) == CopyOf(before, id)
    requires Waiting(after, mailbox, last) ==> CopyOf(after, last) == CopyOf(before, last)
    requires forall i :: 0 <= i < |front| ==> Earlier(before, front[i], last)
    requires var t := Left(front, after, mailbox);
             && (forall i :: 0 <= i < |t| ==> t[i] in after)
             && (forall i, j :: 0 <= i < j < |t| ==> Earlier(after, t[i], t[j]))
             && Subsequence(Copies(after, t), Copies(before, front))
    ensures var r := Left(front + [last], after, mailbox);
            && (forall i :: 0 <= i < |r| ==> r[i] in after)
            && (forall i, j :: 0 <= i < j < |r| ==> Earlier(after, r[i], r[j]))
            && Subsequence(Copies(after, r), Copies(before, front + [last]))
  {
    hide Subsequence, Left, Earlier;
    var t := Left(front, after, mailbox);
    LeftSnoc(after, mailbox, front, last);
    CopiesSnoc(before, front, last);
    if Waiting(after, mailbox, last) {
      forall i | 0 <= i < |t| ensures Earlier(after, t[i], last) {
        assert t[i] in t;
        var k :| 0 <= k < |front| && front[k] == t[i];
        EarlierStays(before, after, t[i], last);
      }
      CopiesSnoc(after, t, last);
      SubsequenceGrows(Copies(after, t), Copies(before, front), [CopyOf(before, last)]);
    } else {
      var all := Copies(before, front) + [CopyOf(before, last)];
      assert all[..|all| - 1] == Copies(before, front);
      Weaken(Copies(after, t), all);
    }
  }

  function NewIds(entering: seq<Copy>): (r: seq<Id>)
    ensures |r| == if entering == [] then 0 else 1
  {
    if entering == [] then [] else [entering[0].id]
  }

  /** The queue after any other call: what is left of it, with the new message at the end. */
  function NextQueue(s: Store, q: Request, limits: Limits, mailbox: string, queue: seq<Id>): seq<Id> {
    Left(queue, After(s, q, limits).messages, mailbox) + NewIds(Entering(s, q, limits, mailbox))
  }

  /** The new message is stamped after all that are waiting. */
  predicate StampedLast(ms: Table, left: seq<Id>, entering: seq<Copy>)
    requires forall i :: 0 <= i < |left| ==> left[i] in ms
  {
    entering != [] ==> forall i :: 0 <= i < |left| ==> ms[left[i]].created < entering[0].created
  }

  lemma AppendedIsQueue(ms: Table, mailbox: string, left: seq<Id>, entering: seq<Copy>)
    requires |entering| <= 1 && (forall i :: 0 <= i < |left| ==> left[i] in ms && Waiting(ms, mailbox, left[i]))
    requires forall i, j :: 0 <= i < j < |left| ==> Earlier(ms, left[i], left[j])
    requires entering != [] ==> Waiting(ms, mailbox, entering[0].id) && CopyOf(ms, entering[0].id) == entering[0]
    requires StampedLast(ms, left, entering)
    requires forall id :: id in ms && Waiting(ms, mailbox, id) ==> id in left || id in NewIds(entering)
    ensures IsQueue(ms, mailbox, left + NewIds(entering))
    ensures Copies(ms, left + NewIds(entering)) == Copies(ms, left) + entering
  {
    var all := left + NewIds(entering);
    forall i, j | 0 <= i < j < |all| ensures Earlier(ms, all[i], all[j]) {
      if j < |left| { assert Earlier(ms, left[i], left[j]); }
    }
    forall id | id in ms && Waiting(ms, mailbox, id) ensures id in all {}
  }

  lemma EnteringIs(s: Store, q: Request, limits: Limits, mailbox: string)
    requires MailSound(s.messages, s.counter) && Possible(s, q)
    ensures var e, ms := Entering(s, q, limits, mailbox), After(s, q, limits).messages;
            && |e| <= 1
            && (e != [] ==> e[0].id !in s.messages && Waiting(ms, mailbox, e[0].id) && e[0] == CopyOf(ms, e[0].id))
            && (forall id :: Appears(s, q, limits, id) && ms[id].mailbox == mailbox ==> e != [] && e[0].id == id)
  {
    forall id ensures Arrived(s, q, limits) == Some(id) <==> Appears(s, q, limits, id) {
      ArrivedIsNew(s, q, limits, id);
    }
    var id := Arrived(s, q, limits);
    if id.Some? { StepAdds(s, q, limits, id.value); }
  }

  /** What is left of the queue keeps its order. */
  lemma LeftIsInOrder(s: Store, q: Request, limits: Limits, mailbox: string, queue: seq<Id>)
    requires MailSound(s.messages, s.counter) && Possible(s, q) && IsQueue(s.messages, mailbox, queue)
    requires BringsNothingOld(s, q, mailbox)
    ensures var after, left := After(s, q, limits).messages, Left(queue, After(s, q, limits).messages, mailbox);
            && (forall id :: id in left ==> id in after)
            && (forall i :: 0 <= i < |left| ==> left[i] in after && Waiting(after, mailbox, left[i]))
            && (forall i :: 0 <= i < |queue| ==> queue[i] in s.messages)
            && (forall i, j :: 0 <= i < j < |left| ==> Earlier(after, left[i], left[j]))
            && Subsequence(Copies(after, left), Copies(s.messages, queue))
  {
    var after := After(s, q, limits).messages;
    forall id | id in queue && Waiting(after, mailbox, id) ensures CopyOf(after, id) == CopyOf(s.messages, id) {
      StaysInPlace(s, q, limits, mailbox, id);
    }
    hide After, IsQueue;
    LeftIsSubsequence(s.messages, after, mailbox, queue);
    var left := Left(queue, after, mailbox);
    forall i | 0 <= i < |left| ensures Waiting(after, mailbox, left[i]) { assert left[i] in left; }
  }

  /** Whatever is waiting afterwards was waiting, or is new. */
  lemma WaitingIsQueued(s: Store, q: Request, limits: Limits, mailbox: string, queue: seq<Id>, id: Id)
    requires MailSound(s.messages, s.counter) && Possible(s, q) && IsQueue(s.messages, mailbox, queue)
    requires BringsNothingOld(s, q, mailbox) && id in After(s, q, limits).messages
             && Waiting(After(s, q, limits).messages, mailbox, id)
    ensures id in Left(queue, After(s, q, limits).messages, mailbox) || id in NewIds(Entering(s, q, limits, mailbox))
  {
    hide After;
    if id in s.messages {
      StaysInPlace(s, q, limits, mailbox, id);
    } else {
      EnteringIs(s, q, limits, mailbox);
      assert Appears(s, q, limits, id);
      assert NewIds(Entering(s, q, limits, mailbox))[0] == id;
    }
  }

  /** Nothing is overtaken. */
  lemma NewIsLast(s: Store, q: Request, limits: Limits, mailbox: string, queue: seq<Id>)
    requires MailSound(s.messages, s.counter) && Possible(s, q) && IsQueue(s.messages, mailbox, queue)
    requires BringsNothingOld(s, q, mailbox) && !Overtakes(s, q, limits, mailbox)
    requires forall id :: id in Left(queue, After(s, q, limits).messages, mailbox) ==>
               id in After(s, q, limits).messages
    ensures StampedLast(After(s, q, limits).messages, Left(queue, After(s, q, limits).messages, mailbox),
                        Entering(s, q, limits, mailbox))
  {
    hide After, MailSound, Possible, Entering;
    var after, e := After(s, q, limits).messages, Entering(s, q, limits, mailbox);
    var left := Left(queue, after, mailbox);
    if e != [] {
      assert e[0] in e;
      forall i | 0 <= i < |left| ensures after[left[i]].created < e[0].created {
        assert left[i] in left && left[i] in queue;
        StaysInPlace(s, q, limits, mailbox, left[i]);
      }
    }
  }

  lemma GrowsBehind(out: seq<Copy>, left: seq<Copy>, queue: seq<Copy>, posted: seq<Copy>, entering: seq<Copy>)
    requires Subsequence(left, queue) && Subsequence(out + queue, posted) && |entering| <= 1
    ensures Subsequence(out + (left + entering), posted + entering)
  {
    hide Subsequence;
    SubsequenceBehind(out, left, queue);
    SubsequenceIsTransitive(out + left, out + queue, posted);
    SubsequenceGrows(out + left, posted, entering);
    assert out + (left + entering) == (out + left) + entering;
  }

  lemma NextQueueIsQueue(s: Store, q: Request, limits: Limits, mailbox: string, queue: seq<Id>)
    requires MailSound(s.messages, s.counter) && Possible(s, q) && IsQueue(s.messages, mailbox, queue)
    requires BringsNothingOld(s, q, mailbox) && !Overtakes(s, q, limits, mailbox)
    ensures var after, left := After(s, q, limits).messages, Left(queue, After(s, q, limits).messages, mailbox);
            && IsQueue(after, mailbox, NextQueue(s, q, limits, mailbox, queue))
            && (forall i :: 0 <= i < |left| ==> left[i] in after)
            && Copies(after, NextQueue(s, q, limits, mailbox, queue))
               == Copies(after, left) + Entering(s, q, limits, mailbox)
  {
    hide Subsequence, After, Entering, Waiting, Earlier, Overtakes, MailSound, BringsNothingOld, Possible, IsQueue,
         StampedLast;
    var after, entering := After(s, q, limits).messages, Entering(s, q, limits, mailbox);
    var left := Left(queue, after, mailbox);
    LeftIsInOrder(s, q, limits, mailbox, queue);
    EnteringIs(s, q, limits, mailbox);
    NewIsLast(s, q, limits, mailbox, queue);
    forall id | id in after && Waiting(after, mailbox, id) ensures id in left || id in NewIds(entering) {
      WaitingIsQueued(s, q, limits, mailbox, queue, id);
    }
    AppendedIsQueue(after, mailbox, left, entering);
  }

  /** Any other call leaves the order as it is, with the new message at the end. */
  lemma OthersQueueUp(s: Store, q: Request, limits: Limits, mailbox: string, queue: seq<Id>, posted: seq<Copy>,
                      out: seq<Copy>)
    requires MailSound(s.messages, s.counter) && Possible(s, q)
    requires BringsNothingOld(s, q, mailbox) && !Overtakes(s, q, limits, mailbox)
    requires Fifo(s.messages, mailbox, queue, posted, out)
    ensures Fifo(After(s, q, limits).messages, mailbox, NextQueue(s, q, limits, mailbox, queue),
                 posted + Entering(s, q, limits, mailbox), out)
  {
    hide Subsequence, After, Entering, Waiting, Earlier, Overtakes, MailSound, BringsNothingOld, Possible, Left,
         NextQueue;
    LeftIsInOrder(s, q, limits, mailbox, queue);
    NextQueueIsQueue(s, q, limits, mailbox, queue);
    EnteringIs(s, q, limits, mailbox);
    var after := After(s, q, limits).messages;
    GrowsBehind(out, Copies(after, Left(queue, after, mailbox)), Copies(s.messages, queue), posted,
                Entering(s, q, limits, mailbox));
  }

  lemma NoneEnters(s: Store, q: Request, limits: Limits, mailbox: string)
    ensures Reading(q, mailbox) ==> Entering(s, q, limits, mailbox) == []
    ensures !Reading(q, mailbox) ==> Leaving(s, q, mailbox) == []
  {}

  lemma {:induction false} QueueIsFifo(qs: seq<Request>, limits: Limits, mailbox: string) returns (queue: seq<Id>)
    requires Legal(qs, limits) && Steady(qs, limits, mailbox)
    ensures Fifo(Run(qs, limits).messages, mailbox, queue, Posted(qs, limits, mailbox), HandedOut(qs, limits, mailbox))
    decreases |qs|
  {
    hide Fifo, After, Entering, Leaving, Reading, BringsNothingOld, Overtakes, Steady, Possible;
    queue := [];
    if qs == [] {
      EmptyIsFifo(mailbox);
    } else {
      var before, q := qs[..|qs| - 1], qs[|qs| - 1];
      var s := Run(before, limits);
      var posted, out := Posted(before, limits, mailbox), HandedOut(before, limits, mailbox);
      SteadyBefore(qs, limits, mailbox);
      queue := QueueIsFifo(before, limits, mailbox);
      RunIsSound(before, limits);
      NoneEnters(s, q, limits, mailbox);
      if Reading(q, mailbox) {
        queue := ReadTakesTheFront(s, q, limits, mailbox, queue, posted, out);
        assert posted + [] == posted;
      } else {
        OthersQueueUp(s, q, limits, mailbox, queue, posted, out);
        queue := NextQueue(s, q, limits, mailbox, queue);
        assert out + [] == out;
      }
    }
  }

  lemma EmptyIsFifo(mailbox: string)
    ensures Fifo(map[], mailbox, [], [], [])
  {}

  /** The marking reads of a mailbox, one after the other, hand its messages out in the order in
      which they were posted. */
  lemma ReadsFollowTheOrder(qs: seq<Request>, limits: Limits, mailbox: string)
    requires Legal(qs, limits) && Steady(qs, limits, mailbox)
    ensures Subsequence(HandedOut(qs, limits, mailbox), Posted(qs, limits, mailbox))
  {
    var queue := QueueIsFifo(qs, limits, mailbox);
    FrontIsSubsequence(HandedOut(qs, limits, mailbox), Copies(Run(qs, limits).messages, queue),
                       Posted(qs, limits, mailbox));
  }

  // ---------------------------------------------------------------- when the order can break

  /** A continuation that itself brings nothing old in and lets nothing overtake. */
  ghost predicate Goes(before: seq<Request>, more: seq<Request>, limits: Limits, mailbox: string) {
    Legal(before + more, limits)
    && forall n :: |before| <= n < |before + more| ==> SteadyAt(before + more, limits, mailbox, n)
  }

  ghost predicate OrderBreaks(before: seq<Request>, limits: Limits, mailbox: string) {
    exists more :: Goes(before, more, limits, mailbox)
                   && !Subsequence(HandedOut(before + more, limits, mailbox), Posted(before + more, limits, mailbox))
  }

  lemma RunMore(qs: seq<Request>, q: Request, limits: Limits, mailbox: string)
    ensures Run(qs + [q], limits) == After(Run(qs, limits), q, limits)
    ensures Legal(qs + [q], limits) <==> Legal(qs, limits) && Possible(Run(qs, limits), q)
    ensures Posted(qs + [q], limits, mailbox) == Posted(qs, limits, mailbox)
            + Entering(Run(qs, limits), q, limits, mailbox)
    ensures HandedOut(qs + [q], limits, mailbox) == HandedOut(qs, limits, mailbox)
            + Leaving(Run(qs, limits), q, mailbox)
  {
    RunOneMore(qs, q, limits);
    assert (qs + [q])[..|qs|] == qs;
  }

  lemma SteadyOn(before: seq<Request>, more: seq<Request>, limits: Limits, mailbox: string)
    requires Steady(before, limits, mailbox) && Goes(before, more, limits, mailbox)
    ensures Steady(before + more, limits, mailbox)
  {
    var all := before + more;
    forall n | 0 <= n < |all| ensures SteadyAt(all, limits, mailbox, n) {
      if n < |before| {
        assert all[..n] == before[..n] && all[n] == before[n] && SteadyAt(before, limits, mailbox, n);
      }
    }
  }

  /** Exactly when a new message can break the order of its mailbox, after any history that brought
      nothing old in and let nothing overtake: when it is stamped no later than one waiting there. */
  lemma OrderBreaksExactly(qs: seq<Request>, q: Request, limits: Limits, mailbox: string, c: Copy)
    requires Legal(qs + [q], limits) && Steady(qs, limits, mailbox)
    requires BringsNothingOld(Run(qs, limits), q, mailbox) && Entering(Run(qs, limits), q, limits, mailbox) == [c]
    requires c !in Posted(qs, limits, mailbox)
    ensures OrderBreaks(qs + [q], limits, mailbox) <==> Overtakes(Run(qs, limits), q, limits, mailbox)
  {
    RunMore(qs, q, limits, mailbox);
    if Overtakes(Run(qs, limits), q, limits, mailbox) {
      OvertakingBreaks(qs, q, limits, mailbox, c);
    } else {
      var all := qs + [q];
      forall n | 0 <= n < |all| ensures SteadyAt(all, limits, mailbox, n) {
        if n < |qs| { assert all[..n] == qs[..n] && all[n] == qs[n] && SteadyAt(qs, limits, mailbox, n); }
        else { assert all[..n] == qs; }
      }
      forall more | Goes(all, more, limits, mailbox)
        ensures Subsequence(HandedOut(all + more, limits, mailbox), Posted(all + more, limits, mailbox))
      {
        SteadyOn(all, more, limits, mailbox);
        ReadsFollowTheOrder(all + more, limits, mailbox);
      }
    }
  }

  /** Where in the queue the new message stands by its stamp. */
  function StampPlace(ms: Table, queue: seq<Id>, created: int): (k: nat)
    requires forall i :: 0 <= i < |queue| ==> queue[i] in ms
    ensures k <= |queue| && (forall i :: 0 <= i < k ==> ms[queue[i]].created < created)
    ensures k < |queue| ==> created <= ms[queue[k]].created
  {
    if queue == [] || created <= ms[queue[0]].created then 0 else 1 + StampPlace(ms, queue[1..], created)
  }

  /** One read of as many messages as are stamped before the new one, the new one, and the next. */
  lemma OvertakingBreaks(qs: seq<Request>, q: Request, limits: Limits, mailbox: string, c: Copy)
    requires Legal(qs + [q], limits) && Steady(qs, limits, mailbox)
    requires BringsNothingOld(Run(qs, limits), q, mailbox) && Entering(Run(qs, limits), q, limits, mailbox) == [c]
    requires c !in Posted(qs, limits, mailbox) && Overtakes(Run(qs, limits), q, limits, mailbox)
    ensures OrderBreaks(qs + [q], limits, mailbox)
  {
    hide Subsequence, After, Entering, Waiting, Earlier, Steady, BringsNothingOld, Legal, Run, Posted, HandedOut,
         Arrived;
    RunMore(qs, q, limits, mailbox);
    var s, all := Run(qs, limits), qs + [q];
    RunIsSound(qs, limits);
    var queue := QueueIsFifo(qs, limits, mailbox);
    var batch, k := OvertakingBatch(s, q, limits, mailbox, queue, c);
    var read := Update(ReadBox(mailbox, batch, true, 0));
    RunMore(all, read, limits, mailbox);
    assert Possible(Run(all, limits), read);
    ReadIsSteady(all, read, limits, mailbox);
    var out := Leaving(Run(all, limits), read, mailbox);
    OutOfOrder(Run(all, limits), read, mailbox, queue[..k], c, queue[k]);
    NotInOrder(HandedOut(all, limits, mailbox), out, k, c, Posted(qs, limits, mailbox));
    assert Posted(all, limits, mailbox) + [] == Posted(all, limits, mailbox);
    assert Goes(all, [read], limits, mailbox);
  }

  /** A read brings nothing in. */
  lemma ReadIsSteady(qs: seq<Request>, read: Request, limits: Limits, mailbox: string)
    requires read.Update? && read.call.ReadBox?
    ensures SteadyAt(qs + [read], limits, mailbox, |qs|) && Entering(Run(qs, limits), read, limits, mailbox) == []
  {
    assert (qs + [read])[..|qs|] == qs;
  }

  lemma OutOfOrder(s: Store, read: Request, mailbox: string, front: seq<Id>, c: Copy, id: Id)
    requires Reading(read, mailbox) && read.call.batch == front + [c.id, id] && id != c.id
    requires (forall x :: x in read.call.batch ==> x in s.messages) && CopyOf(s.messages, c.id) == c
    ensures var out, k := Leaving(s, read, mailbox), |front|; |out| == k + 2 && out[k] == c && out[k + 1] != c
  {
    var batch := read.call.batch;
    assert batch[|front|] == c.id && batch[|front| + 1] == id;
  }

  /** Something else is handed out after the message that was posted last. */
  lemma NotInOrder(d: seq<Copy>, out: seq<Copy>, k: nat, c: Copy, posted: seq<Copy>)
    requires |out| == k + 2 && out[k] == c && out[k + 1] != c && c !in posted
    ensures !Subsequence(d + out, posted + [c])
  {
    var all := d + out;
    assert (posted + [c])[..|posted|] == posted && all[|all| - 1] == out[k + 1];
    assert all[|d| + k] == c && c in all;
    if Subsequence(all, posted) { SubsequenceIsInside(all, posted, c); }
  }

  lemma OvertakingBatch(s: Store, q: Request, limits: Limits, mailbox: string, queue: seq<Id>, c: Copy)
    returns (batch: seq<Id>, k: nat)
    requires MailSound(s.messages, s.counter) && Possible(s, q) && IsQueue(s.messages, mailbox, queue)
    requires Entering(s, q, limits, mailbox) == [c] && Overtakes(s, q, limits, mailbox)
    ensures k < |queue| && batch == queue[..k] + [c.id, queue[k]]
    ensures IsBatch(After(s, q, limits).messages, mailbox, k + 2, batch)
    ensures forall x :: x in batch ==> x in After(s, q, limits).messages
    ensures c.id !in queue && CopyOf(After(s, q, limits).messages, c.id) == c
  {
    var ms, after := s.messages, After(s, q, limits).messages;
    EnteringIs(s, q, limits, mailbox);
    k := StampPlace(ms, queue, c.created);
    var id :| id in ms && Waiting(ms, mailbox, id) && c.created <= ms[id].created;
    var j :| 0 <= j < |queue| && queue[j] == id;
    assert k < |queue|;
    batch := queue[..k] + [c.id, queue[k]];
    PostingKeepsTheRest(s, q, limits, mailbox);
    hide After;
    BatchIsSorted(ms, after, mailbox, queue, c, k);
  }

  /** A call that posts a message changes no other. */
  lemma PostingKeepsTheRest(s: Store, q: Request, limits: Limits, mailbox: string)
    requires MailSound(s.messages, s.counter) && Possible(s, q) && Entering(s, q, limits, mailbox) != []
    ensures var id, after := Entering(s, q, limits, mailbox)[0].id, After(s, q, limits).messages;
            id in after && after == s.messages[id := after[id]]
  {
    EnteringIs(s, q, limits, mailbox);
    if q.Transition? { TransitionMoves(s.messages, q.ids, q.move, q.owner, q.now); }
  }

  /** What is not in the batch is stamped no earlier than the queue goes on behind it. */
  lemma LaterOnes(ms: Table, mailbox: string, queue: seq<Id>, batch: seq<Id>, k: nat, id: Id)
    requires IsQueue(ms, mailbox, queue) && k < |queue| && id in ms && Waiting(ms, mailbox, id) && id !in batch
    requires queue[k] in batch && forall i :: 0 <= i < k ==> queue[i] in batch
    ensures ms[queue[k]].created < ms[id].created
  {
    hide Waiting;
    var j :| 0 <= j < |queue| && queue[j] == id;
    assert k < j && Earlier(ms, queue[k], queue[j]);
  }

  lemma BatchIsSorted(ms: Table, after: Table, mailbox: string, queue: seq<Id>, c: Copy, k: nat)
    requires IsQueue(ms, mailbox, queue) && k < |queue| && c.id !in ms && c.id in after
             && after == ms[c.id := after[c.id]]
    requires Waiting(after, mailbox, c.id) && CopyOf(after, c.id) == c
    requires (forall i :: 0 <= i < k ==> ms[queue[i]].created < c.created) && c.created <= ms[queue[k]].created
    ensures IsBatch(after, mailbox, k + 2, queue[..k] + [c.id, queue[k]])
  {
    var batch := queue[..k] + [c.id, queue[k]];
    forall i | 0 <= i < |queue|
      ensures after[queue[i]] == ms[queue[i]] && queue[i] != c.id && Waiting(after, mailbox, queue[i])
    {}
    forall i, j | 0 <= i < j < |batch|
      ensures batch[i] != batch[j] && after[batch[i]].created <= after[batch[j]].created
    {
      if j < k || (j == k + 1 && i < k) { assert Earlier(ms, queue[i], queue[if j < k then j else k]); }
    }
    forall i | 0 <= i < k ensures queue[i] in batch { assert batch[i] == queue[i]; }
    assert batch[k] == c.id && batch[k + 1] == queue[k];
    forall id | id in after && Waiting(after, mailbox, id) && id !in batch
      ensures forall i :: 0 <= i < |batch| ==> after[batch[i]].created <= after[id].created
    {
      LaterOnes(ms, mailbox, queue, batch, k, id);
      forall i | 0 <= i < |batch| ensures after[batch[i]].created <= after[id].created {
        if i < k { assert Earlier(ms, queue[i], queue[k]); }
      }
    }
  }

  /** A run: two messages to one mailbox, and the clock set back between them. */
  lemma ClockSetBackBreaks(limits: Limits, first: int, second: int)
    requires second <= first
    ensures OrderBreaks([Send("ops", None, "a", [], first), Send("ops", None, "b", [], second)], limits, "ops")
  {
    hide After, Entering, Waiting, Overtakes, Legal, Run, Posted, HandedOut, OrderBreaks, BringsNothingOld, Possible;
    var p, q := Send("ops", None, "a", [], first), Send("ops", None, "b", [], second);
    RunMore([], p, limits, "ops");
    RunMore([p], q, limits, "ops");
    assert [] + [p] == [p] && [p] + [q] == [p, q];
    Nothing(limits, "ops");
    PlainSend(EMPTY, p, limits);
    FirstIsSteady(p, limits);
    PlainSend(Run([p], limits), q, limits);
    SendIsPossible(EMPTY, p, "ops");
    SendIsPossible(Run([p], limits), q, "ops");
    StampedBefore(Run([p], limits), q, limits, first);
    OrderBreaksExactly([p], q, limits, "ops", Copy(Sent(2), second));
  }

  lemma Nothing(limits: Limits, mailbox: string)
    ensures Run([], limits) == EMPTY && Legal([], limits) && Posted([], limits, mailbox) == []
  {}

  lemma SendIsPossible(s: Store, q: Request, mailbox: string)
    requires q.Send?
    ensures Possible(s, q) && BringsNothingOld(s, q, mailbox)
  {}

  lemma FirstIsSteady(p: Request, limits: Limits)
    requires p.Send?
    ensures Steady([p], limits, "ops")
  {
    assert [p][..0] == [];
  }

  lemma StampedBefore(s: Store, q: Request, limits: Limits, first: int)
    requires q.Send? && s.counter == 1 && s.messages == map[Sent(1) := Fresh("ops", None, "a", first, None)]
             && q.now <= first
    requires Entering(s, q, limits, "ops") == [Copy(Sent(2), q.now)]
    ensures Overtakes(s, q, limits, "ops")
  {
    hide Entering;
    assert Sent(1) in s.messages && Waiting(s.messages, "ops", Sent(1));
    assert Copy(Sent(2), q.now) in Entering(s, q, limits, "ops");
  }

  lemma PlainSend(s: Store, q: Request, limits: Limits)
    requires q.Send? && q.mailbox == "ops" && q.files == [] && (q.body == "a" || q.body == "b")
    ensures var m := Fresh("ops", q.pane, q.body, q.now, None);
            After(s, q, limits) == s.(messages := s.messages[Sent(s.counter + 1) := m], counter := s.counter + 1)
    ensures Entering(s, q, limits, "ops") == [Copy(Sent(s.counter + 1), q.now)]
  {
    StripTrims("ops");
    StripTrims(q.body);
    assert q.body[1..] == "" && Bytes(q.body) <= 4;
    hide Strip, Bytes;
    assert KeepFiles(s.blobs, [], limits) == Kept(s.blobs, None);
    assert Attached(Sent(s.counter + 1), []) == [];
    assert s.attachments + [] == s.attachments;
  }
}
