/** One pass over a head, told from what is left behind: the review in progress, what was posted and
    what was filed, in terms of the readings and GitHub's answers alone. */
module ReviewTerms {
  import opened Wrappers
  import opened Quorum
  import opened ReviewSync
  import Order

  /** The review found in progress is of this head, which an accept judged last and still lacks lanes,
      and it has not finished when looked at. */
  predicate Awaited(c: Case, h: Head, snapshot: Option<Live>, which: nat, r: Readings)
    requires Ordered(c, 0, r) && (r.done > 0 ==> which < r.done)
  {
    && r.done > 0 && snapshot.Some? && snapshot.value.here && c.story[which].accept
    && Wants(c, r.duplicate) == Pending
    && h.live.Some? && h.live.value.id == snapshot.value.id && r.looked <= h.live.value.until
  }

  /** It stays, and the pass ends, when the head lacks lanes by the next reading as well, or the status
      cannot be put right. */
  predicate Waits(c: Case, h: Head, a: Answers, snapshot: Option<Live>, which: nat, r: Readings)
    requires Ordered(c, 0, r) && (r.done > 0 ==> which < r.done)
  {
    var want := Wants(c, r.judged);
    && Awaited(c, h, snapshot, which, r)
    && (want == Pending || !a.current || !a.readable || (!a.posts && h.status != Some(want)))
  }

  /** The pass cancels the review in progress: another head's, or this one's unless the pass waits for it
      or nobody has judged the head; and only if it has not finished by then. */
  predicate Cancels(c: Case, h: Head, a: Answers, snapshot: Option<Live>, which: nat, r: Readings)
    requires Ordered(c, 0, r) && (r.done > 0 ==> which < r.done)
  {
    && !a.conflict && snapshot.Some? && (snapshot.value.here ==> r.done > 0 && !Waits(c, h, a, snapshot, which, r))
    && h.live.Some? && h.live.value.id == snapshot.value.id && r.cancel <= h.live.value.until
  }

  lemma WaitsIsStops(c: Case, h: Head, a: Answers, snapshot: Option<Live>, which: nat, r: Readings)
    requires Ordered(c, 0, r) && (r.done > 0 ==> which < r.done)
    ensures Waits(c, h, a, snapshot, which, r) <==> Stops(c, h, a, snapshot, which, r)
  {
    hide Wants;
  }

  /** GitHub can be asked and takes a status other than the one it has. */
  predicate Posts(a: Answers, status: Option<Status>, want: Status) {
    a.current && a.readable && a.posts && status != Some(want)
  }

  lemma ReconciledIs(c: Case, h: Head, a: Answers, upTo: nat)
    requires h.landed <= upTo <= |c.story|
    ensures var want, (g, ok) := Wants(c, upTo), Reconciled(c, h, a, upTo);
            && g.posts == (if Posts(a, h.status, want) then h.posts + [want] else h.posts)
            && g.status == (if Posts(a, h.status, want) then Some(want) else h.status)
            && (g.live == Landed(h, g.landed).live || (g.live == h.live && g.landed == h.landed))
            && h.landed <= g.landed <= upTo
            && g.tasks == h.tasks
            && (ok <==> a.current && a.readable && (a.posts || h.status == Some(want)))
  {
    hide Wants;
  }

  /** What the earlier part of a pass over a judged head leaves for settling it. */
  lemma Prepared(c: Case, h: Head, a: Answers, snapshot: Option<Live>, which: nat, r: Readings) returns (g: Head)
    requires Ordered(c, h.landed, r) && r.done > 0 && which < r.done && !a.conflict
    requires !Waits(c, h, a, snapshot, which, r)
    ensures TickOf(c, h, a, snapshot, which, r) == SettleOf(c, g, a, r)
    ensures g.live == if Cancels(c, h, a, snapshot, which, r) then None else Landed(h, g.landed).live
    ensures g.tasks == h.tasks && r.done <= g.landed <= r.cancel
    ensures var want := Wants(c, r.judged);
            var posted := Awaited(c, h, snapshot, which, r) && Posts(a, h.status, want);
            && g.posts == (if posted then h.posts + [want] else h.posts)
            && g.status == (if posted then Some(want) else h.status)
  {
    hide Wants, SettleOf;
    g := Landed(h, r.done);
    if snapshot.Some? {
      if snapshot.value.here {
        g := Landed(g, r.duplicate);
        assert Needed(c, g, c.story[which], snapshot.value, r) <==> Awaited(c, h, snapshot, which, r);
        if Needed(c, g, c.story[which], snapshot.value, r) {
          ReconciledIs(c, Landed(g, r.looked), a, r.judged);
          hide Reconciled;
          g := Reconciled(c, Landed(g, r.looked), a, r.judged).0;
        }
      }
      g := Cancelled(g, snapshot.value, r.cancel);
    }
  }

  lemma SettledIs(c: Case, h: Head, a: Answers, r: Readings)
    requires Ordered(c, 0, r) && h.landed <= r.again
    ensures var want, g := Wants(c, r.again), SettleOf(c, h, a, r);
            && g.posts == (if Posts(a, h.status, want) then h.posts + [want] else h.posts)
            && g.status == (if Posts(a, h.status, want) then Some(want) else h.status)
            && h.landed <= g.landed <= r.filing
            && (g.tasks == h.tasks ==>
                  g.live == Landed(h, g.landed).live || (g.live == h.live && g.landed == h.landed))
  {
    ReconciledIs(c, h, a, r.again);
    hide Reconciled, Wants, IsFinal, Short, Elder;
  }

  /** A pass that files nothing leaves the review in progress where it was, unless the pass has cancelled
      it or it has finished by the last reading. */
  lemma KeptExactly(c: Case, h: Head, a: Answers, snapshot: Option<Live>, which: nat, r: Readings)
    requires Ordered(c, h.landed, r) && (r.done > 0 ==> which < r.done)
    requires TickOf(c, h, a, snapshot, which, r).tasks == h.tasks
    ensures var g := TickOf(c, h, a, snapshot, which, r);
            g.live == if h.live.None? || Cancels(c, h, a, snapshot, which, r)
                         || (!a.conflict && h.live.value.until < g.landed)
                      then None else h.live
  {
    WaitsIsStops(c, h, a, snapshot, which, r);
    hide Wants, Posts;
    if !a.conflict && r.done > 0 {
      hide TickOf;
      if Waits(c, h, a, snapshot, which, r) {
        TickStops(c, h, a, snapshot, which, r);
        ReconciledIs(c, Landed(h, r.looked), a, r.judged);
        hide Reconciled;
      } else {
        var g := Prepared(c, h, a, snapshot, which, r);
        SettledIs(c, g, a, r);
        hide SettleOf;
      }
    } else {
      hide SettleOf, ContestedOf;
    }
  }

  /** What is posted over a judged head, and what its status is then: the status wanted by the reading
      before a needed review is left or given up, and the one wanted before settling, each only if GitHub
      can be asked, takes it, and has another. */
  lemma PostsExactly(c: Case, h: Head, a: Answers, snapshot: Option<Live>, which: nat, r: Readings)
    requires Ordered(c, h.landed, r) && r.done > 0 && which < r.done && !a.conflict
    ensures var g := TickOf(c, h, a, snapshot, which, r);
            var (first, second) := (Wants(c, r.judged), Wants(c, r.again));
            var posted := Awaited(c, h, snapshot, which, r) && Posts(a, h.status, first);
            var between := if posted then Some(first) else h.status;
            var again := !Waits(c, h, a, snapshot, which, r) && Posts(a, between, second);
            && g.posts == h.posts + (if posted then [first] else []) + (if again then [second] else [])
            && g.status == (if again then Some(second) else between)
  {
    hide Wants, Posts, TickOf;
    WaitsIsStops(c, h, a, snapshot, which, r);
    assert h.posts + [] == h.posts;
    if Waits(c, h, a, snapshot, which, r) {
      TickStops(c, h, a, snapshot, which, r);
      ReconciledIs(c, Landed(h, r.looked), a, r.judged);
      hide Reconciled;
    } else {
      var g := Prepared(c, h, a, snapshot, which, r);
      SettledIs(c, g, a, r);
      hide SettleOf;
    }
  }

  /** Over a head nobody has judged only the status of a review filed now is posted, and nothing at all is
      done to one that conflicts. */
  lemma UnjudgedPostsExactly(c: Case, h: Head, a: Answers, snapshot: Option<Live>, which: nat, r: Readings)
    requires Ordered(c, h.landed, r) && (r.done > 0 ==> which < r.done)
    ensures var g := TickOf(c, h, a, snapshot, which, r);
            && (a.conflict ==> g == h)
            && (r.done == 0 ==>
                  g == h.(landed := g.landed, live := g.live, tasks := g.tasks, status := g.status, posts := g.posts)
                  && (if g.tasks > h.tasks && a.posts then g.status == Some(Pending) && g.posts == h.posts + [Pending]
                      else g.status == h.status && g.posts == h.posts))
  {
    hide SettleOf, ContestedOf;
  }

  /** A review of this head is in progress when the pass comes to file. */
  predicate Taken(c: Case, h: Head, a: Answers, snapshot: Option<Live>, which: nat, r: Readings)
    requires Ordered(c, 0, r) && (r.done > 0 ==> which < r.done)
  {
    && h.live.Some? && h.live.value.here && r.filing <= h.live.value.until
    && !Cancels(c, h, a, snapshot, which, r)
  }

  /** Exactly when a pass files a review, and which: the first one for a head without verdicts and without
      a review; one more for a head that some lane has accepted, none has vetoed and that lacks lanes, when
      it still does at the next reading, no verdict has landed since and GitHub has the right status.  The
      lane first by name among those that accepted is its author. */
  lemma FilesExactly(c: Case, h: Head, a: Answers, snapshot: Option<Live>, which: nat, r: Readings)
    requires Ordered(c, h.landed, r) && (r.done > 0 ==> which < r.done)
    ensures var g, read := TickOf(c, h, a, snapshot, which, r), c.story[..r.again];
            && h.tasks <= g.tasks <= h.tasks + 1
            && (g.tasks == h.tasks + 1 <==>
                  && !a.conflict && !Taken(c, h, a, snapshot, which, r)
                  && if r.done == 0 then r.filing == 0 && (snapshot.Some? ==> !snapshot.value.here)
                     else && !Waits(c, h, a, snapshot, which, r) && a.current && a.readable
                          && (a.posts || h.status == Some(Pending))
                          && Lanes(read, true) != {} && Lanes(read, false) == {} && Wants(c, r.again) == Pending
                          && Wants(c, r.second) == Pending && r.second == r.filing)
            && (g.tasks == h.tasks + 1 ==>
                  && g.landed == r.filing && g.live.Some? && g.live.value.id == g.tasks && g.live.value.here
                  && g.live.value.until == r.until
                  && if r.done == 0 then g.live.value.author == None
                     else && g.live.value.author.Some? && g.live.value.author.value in Lanes(read, true)
                          && forall l :: l in Lanes(read, true) && l != g.live.value.author.value ==>
                               Order.Less(g.live.value.author.value, l))
  {
    TickFilesExactly(c, h, a, snapshot, which, r);
    WaitsIsStops(c, h, a, snapshot, which, r);
    assert !a.conflict && (r.done == 0 ==> !Here(snapshot)) && !Waits(c, h, a, snapshot, which, r) ==>
      (Here(Standing(h, snapshot, r)) <==> Taken(c, h, a, snapshot, which, r));
    hide TickOf, Wants, Stops;
  }
}
