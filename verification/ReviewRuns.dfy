/** Whole runs of passes and verdicts over one head: what is filed, approved, asked for and merged. */
module ReviewRuns {
  import opened Wrappers
  import opened Quorum
  import opened ReviewSync

  datatype Call =
    | Passing(answers: Answers, snapshot: Option<Live>, which: nat, readings: Readings)
    | Accepting(answers: Answers, decider: Option<Lane>, judged: nat, second: nat, filing: nat, until: nat)
    | Fixing(answers: Answers, review: nat, listed: set<nat>, judged: nat)

  /** The readings of a call come one after the other, and after those of the calls before it. */
  predicate May(c: Case, h: Head, m: Call) {
    match m
    case Passing(_, _, which, r) => Ordered(c, h.landed, r) && (r.done > 0 ==> which < r.done)
    case Accepting(_, _, judged, second, filing, until) => h.landed <= judged <= second <= filing <= |c.story|
    case Fixing(_, _, _, judged) => h.landed <= judged <= |c.story|
  }

  function After(c: Case, h: Head, m: Call): Head
    requires May(c, h, m)
  {
    match m
    case Passing(a, snapshot, which, r) => TickOf(c, h, a, snapshot, which, r)
    case Accepting(a, decider, judged, second, filing, until) => AcceptOf(c, h, a, decider, judged, second, filing,
                                                                          until)
    case Fixing(a, review, listed, judged) => NeedsFixOf(c, h, a, review, listed, judged)
  }

  predicate Legal(c: Case, h: Head, ms: seq<Call>)
    decreases |ms|
  {
    ms == [] || (May(c, h, ms[0]) && Legal(c, After(c, h, ms[0]), ms[1..]))
  }

  function Run(c: Case, h: Head, ms: seq<Call>): Head
    requires Legal(c, h, ms)
    decreases |ms|
  {
    if ms == [] then h else Run(c, After(c, h, ms[0]), ms[1..])
  }

  // ---------------------------------------------------------------- one call

  /** A needs-fix files one task to fix the head, for its own review and under the next number, and asks for
      changes if GitHub takes the review.  It approves nothing, asks for no merge, and leaves the review in
      progress as the landing left it. */
  lemma FixingExactly(c: Case, h: Head, a: Answers, review: nat, listed: set<nat>, judged: nat)
    requires h.landed <= judged <= |c.story|
    ensures var g := NeedsFixOf(c, h, a, review, listed, judged);
            && g.fixes == h.fixes + [Fix(h.tasks + 1, review)] && g.tasks == h.tasks + 1
            && g.requests == h.requests + (if a.approves then 1 else 0)
            && g.approvals == h.approvals && g.merges == h.merges && g.landed == judged
            && g.live == (if h.live.Some? && h.live.value.until < judged then None else h.live)
            && (var spoken := exists i :: 0 <= i < judged && c.story[i].accept && c.story[i].id != review
                                          && c.story[i].id in listed;
                if a.posts && !spoken then g.status == Some(Failure) && g.posts == h.posts + [Failure]
                else g.status == h.status && g.posts == h.posts)
  {
    var rows := c.story[..judged];
    assert forall i :: 0 <= i < judged ==> rows[i] == c.story[i];
  }

  /** What only the handlers of verdicts change. */
  predicate SameSpoken(g: Head, h: Head) {
    g.fixes == h.fixes && g.requests == h.requests && g.approvals == h.approvals
  }

  lemma ReconcilingSpeaksNothing(c: Case, h: Head, a: Answers, upTo: nat)
    requires upTo <= |c.story|
    ensures SameSpoken(Reconciled(c, h, a, upTo).0, h)
  {
    hide Wants;
  }

  lemma SecondSpeaksNothing(c: Case, h: Head, first: Option<Lane>, upTo: nat, filing: nat, until: nat)
    requires upTo <= |c.story|
    ensures SameSpoken(SecondOf(c, h, first, upTo, filing, until), h)
  {
    hide Wants;
  }

  lemma SettlingSpeaksNothing(c: Case, h: Head, a: Answers, r: Readings)
    requires Ordered(c, 0, r)
    ensures SameSpoken(SettleOf(c, h, a, r), h)
  {
    ReconcilingSpeaksNothing(c, h, a, r.again);
    var g := Reconciled(c, h, a, r.again).0;
    hide Reconciled, SecondOf, Wants, IsFinal, Short, Elder;
    if Short(c, r.again) { SecondSpeaksNothing(c, g, Some(Elder(c, r.again)), r.second, r.filing, r.until); }
  }

  lemma FinishingSpeaksNothing(c: Case, h: Head, a: Answers, done: bool, r: Readings)
    requires Ordered(c, 0, r)
    ensures SameSpoken(FinishOf(c, h, a, done, r), h)
  {
    if done {
      SettlingSpeaksNothing(c, h, a, r);
      hide SettleOf;
    } else {
      hide SettleOf;
    }
  }

  lemma ContestedSpeaksNothing(c: Case, h: Head, a: Answers, last: Verdict, current: Live, r: Readings)
    requires Ordered(c, 0, r)
    ensures SameSpoken(ContestedOf(c, h, a, last, current, r), h)
  {
    hide FinishOf, Needed, Wants, Reconciled;
    var g := Landed(h, r.duplicate);
    ReconcilingSpeaksNothing(c, Landed(g, r.looked), a, r.judged);
    var k := Reconciled(c, Landed(g, r.looked), a, r.judged).0;
    FinishingSpeaksNothing(c, Cancelled(g, current, r.cancel), a, true, r);
    FinishingSpeaksNothing(c, Cancelled(k, current, r.cancel), a, true, r);
  }

  /** No pass files a fix, asks for changes or approves. */
  lemma PassSpeaksNothing(c: Case, h: Head, a: Answers, snapshot: Option<Live>, which: nat, r: Readings)
    requires Ordered(c, h.landed, r) && (r.done > 0 ==> which < r.done)
    ensures SameSpoken(TickOf(c, h, a, snapshot, which, r), h)
  {
    hide FinishOf, ContestedOf;
    var g := Landed(h, r.done);
    FinishingSpeaksNothing(c, g, a, r.done > 0, r);
    if snapshot.Some? {
      FinishingSpeaksNothing(c, Cancelled(g, snapshot.value, r.cancel), a, r.done > 0, r);
      if r.done > 0 { ContestedSpeaksNothing(c, g, a, c.story[which], snapshot.value, r); }
    }
  }

  /** An accept files no fix and asks for no changes. */
  lemma AcceptFixesNothing(c: Case, h: Head, a: Answers, decider: Option<Lane>, judged: nat, second: nat, filing: nat,
                           until: nat)
    requires h.landed <= judged <= second <= filing <= |c.story|
    ensures var g := AcceptOf(c, h, a, decider, judged, second, filing, until);
            g.fixes == h.fixes && g.requests == h.requests && h.tasks <= g.tasks
  {
    var g := Posted(Landed(h, judged), Pending, a.posts);
    SecondSpeaksNothing(c, g, decider, second, filing, until);
    HeldFacts(c, g, decider, second, filing, until);
    hide SecondOf, Judge;
  }

  // ---------------------------------------------------------------- whole runs

  /** The reviews whose needs-fixes were handled, in order. */
  function Refused(ms: seq<Call>): seq<nat> {
    if ms == [] then [] else (if ms[0].Fixing? then [ms[0].review] else []) + Refused(ms[1..])
  }

  function Reviews(fixes: seq<Fix>): (r: seq<nat>)
    ensures |r| == |fixes| && forall i :: 0 <= i < |fixes| ==> r[i] == fixes[i].review
  {
    seq(|fixes|, i requires 0 <= i < |fixes| => fixes[i].review)
  }

  /** Every fix has a number of its own, given out by now. */
  predicate Numbered(fixes: seq<Fix>, tasks: nat) {
    && (forall i :: 0 <= i < |fixes| ==> fixes[i].task <= tasks)
    && (forall i, j :: 0 <= i < j < |fixes| ==> fixes[i].task < fixes[j].task)
  }

  lemma CallFixes(c: Case, h: Head, m: Call)
    requires May(c, h, m) && Numbered(h.fixes, h.tasks)
    ensures var g := After(c, h, m);
            && Numbered(g.fixes, g.tasks)
            && g.fixes == if m.Fixing? then h.fixes + [Fix(h.tasks + 1, m.review)] else h.fixes
  {
    hide TickOf, AcceptOf, NeedsFixOf, Files;
    match m
    case Passing(a, snapshot, which, r) =>
      PassSpeaksNothing(c, h, a, snapshot, which, r);
      TickFilesExactly(c, h, a, snapshot, which, r);
    case Accepting(a, decider, judged, second, filing, until) =>
      AcceptFixesNothing(c, h, a, decider, judged, second, filing, until);
    case Fixing(a, review, listed, judged) => FixingExactly(c, h, a, review, listed, judged);
  }

  /** Over any run of passes, accepts and needs-fixes, the fixes filed are exactly those of the needs-fixes
      handled, one each and in their order, each under a number of its own. */
  lemma {:induction false} FixesExactly(c: Case, h: Head, ms: seq<Call>)
    requires Legal(c, h, ms) && Numbered(h.fixes, h.tasks)
    ensures var g := Run(c, h, ms);
            Numbered(g.fixes, g.tasks) && Reviews(g.fixes) == Reviews(h.fixes) + Refused(ms)
    decreases |ms|
  {
    if ms == [] {
      assert Reviews(h.fixes) + [] == Reviews(h.fixes);
    } else {
      hide After, Numbered, May, Reviews, Refused;
      CallFixes(c, h, ms[0]);
      var g := After(c, h, ms[0]);
      FixesExactly(c, g, ms[1..]);
      AddsReview(h.fixes, g.fixes, h.tasks + 1, ms);
    }
  }

  lemma ReviewsOneMore(fixes: seq<Fix>, f: Fix)
    ensures Reviews(fixes + [f]) == Reviews(fixes) + [f.review]
  {}

  lemma AddsReview(before: seq<Fix>, after: seq<Fix>, number: nat, ms: seq<Call>)
    requires ms != []
    requires after == if ms[0].Fixing? then before + [Fix(number, ms[0].review)] else before
    ensures Reviews(after) + Refused(ms[1..]) == Reviews(before) + Refused(ms)
  {
    hide Reviews;
    if ms[0].Fixing? {
      ReviewsOneMore(before, Fix(number, ms[0].review));
      assert Refused(ms) == [ms[0].review] + Refused(ms[1..]);
    } else {
      assert Refused(ms) == [] + Refused(ms[1..]);
    }
  }
}
