/** What the tracker decides, by its record and by the history alone: which looks reset it, wait, cool,
    recover and give up, and what a terminal mark is worth. */
module StuckHistory {
  import opened Wrappers
  import opened Text
  import opened Stuck

  // ---------------------------------------------------------------- one look

  /** The look proves that our own message waits in an idle composer, in the pane and as the text that the
      record was taken of, as far as both know the pane's generation. */
  lemma ResetsExactly(t: State, o: Observation, c: Config, now: Time)
    ensures var (u, d) := Decide(t, o, c, now);
            && (d.act == Resets <==>
                  || !c.enabled || o.messageId == "" || o.cancelled || o.text == "" || !o.owned || o.dialog
                    || o.status != Ready
                  || (o.pane in t.records &&
                      var r := t.records[o.pane];
                      || (r.messageId != "" && r.messageId != o.messageId) || r.fingerprint != FingerprintOf(o.text)
                      || (r.generation.Some? && r.generation.value != "" && o.generation.Some?
                          && o.generation.value != "" && r.generation != o.generation)))
            && (d.act == Resets ==>
                  d == Decision(Resets, 0, None, 0.0)
                  && u == if c.enabled then t.(records := t.records - {o.pane}) else t)
  {}

  /** A first look starts a record, which counts what the ledger has spent on the message. */
  lemma StartsExactly(t: State, o: Observation, c: Config, now: Time)
    requires Decide(t, o, c, now).1.act != Resets && o.pane !in t.records
    ensures var k := Key(o.pane, o.messageId, o.generation, FingerprintOf(o.text));
            Decide(t, o, c, now)
            == (t.(records := t.records[o.pane := Record(o.messageId, o.generation, FingerprintOf(o.text), now, None,
                                                         if k in t.spent then t.spent[k] else 0, "")]),
                Decision(Waits, 0, Some(now), 0.0))
  {}

  /** A look at an unchanged record, by its age, its mark, its attempts and its last recovery. */
  lemma JudgesExactly(t: State, o: Observation, c: Config, now: Time)
    requires Decide(t, o, c, now).1.act != Resets && o.pane in t.records
    ensures var r, (u, d) := t.records[o.pane], Decide(t, o, c, now);
            var age, k := now - r.firstSeen, Key(o.pane, o.messageId, o.generation, FingerprintOf(o.text));
            && (d.act == Waits <==> r.terminal == "" && age < c.threshold)
            && (d.act == Exhausted <==> r.terminal != "" || (age >= c.threshold && r.attempts >= c.maxAttempts))
            && (d.act == Recovers <==>
                  && r.terminal == "" && age >= c.threshold && r.attempts < c.maxAttempts
                  && (r.lastAttemptAt.Some? ==> now - r.lastAttemptAt.value >= c.cooldown))
            && u == (if d.act == Recovers
                     then State(t.records[o.pane := r.(attempts := r.attempts + 1, lastAttemptAt := Some(now))],
                                t.spent[k := r.attempts + 1])
                     else if d.act == Exhausted && r.terminal == ""
                     then State(t.records[o.pane := r.(terminal := "exhausted")], t.spent[k := r.attempts])
                     else t)
            && d.attempts == (if d.act == Recovers then r.attempts + 1 else r.attempts)
            && d.firstSeen == Some(r.firstSeen) && d.staleFor == age
  {}

  // ---------------------------------------------------------------- a terminal mark

  /** The operation ends the record of the pane: it is marked with a reason, or found exhausted. */
  predicate EndsAt(ops: seq<Op>, j: nat, p: Pane)
    requires j < |ops|
  {
    || (ops[j].MarkTerminal? && ops[j].pane == p && ops[j].reason != "")
    || (ops[j].Look? && ops[j].seen.pane == p
        && Decide(Fold(ops[..j]), ops[j].seen, ops[j].config, ops[j].now).1.act == Exhausted)
  }

  /** Nobody takes the mark off again with an empty reason. */
  predicate Kept(ops: seq<Op>, j: nat, p: Pane) {
    forall k :: j < k < |ops| ==> ops[k] != MarkTerminal(p, "")
  }

  lemma StepKeepsMark(t: State, op: Op, p: Pane)
    requires p in t.records && p in Step(t, op).records && t.records[p].terminal != "" && op != MarkTerminal(p, "")
    ensures Step(t, op).records[p].terminal != ""
  {}

  lemma {:induction false} StartIsBefore(ops: seq<Op>, p: Pane, j: nat)
    requires p in Fold(ops).records && Start(ops, p) < j <= |ops|
    ensures p in Fold(ops[..j]).records
    decreases |ops|
  {
    if j == |ops| {
      assert ops[..j] == ops;
    } else {
      var before := ops[..|ops| - 1];
      assert before[..j] == ops[..j];
      StartIsBefore(before, p, j);
    }
  }

  /** A record that lives on stays ended. */
  lemma {:induction false} MarkStays(ops: seq<Op>, j: nat, p: Pane)
    requires p in Fold(ops).records && Start(ops, p) < j < |ops| && EndsAt(ops, j, p) && Kept(ops, j, p)
    ensures Fold(ops).records[p].terminal != ""
    decreases |ops|
  {
    var n := |ops| - 1;
    var before := ops[..n];
    if j == n {
      StartIsBefore(ops, p, n);
    } else {
      assert before[j] == ops[j] && before[..j] == ops[..j];
      StartIsBefore(ops, p, n);
      forall k | j < k < n ensures before[k] != MarkTerminal(p, "") { assert before[k] == ops[k]; }
      MarkStays(before, j, p);
      StepKeepsMark(Fold(before), ops[n], p);
    }
  }

  /** Once the live record of a pane was marked terminal, or found exhausted, no look at the pane recovers
      while that record lives, whatever the later looks allow; a look that finds it unchanged says so again
      and changes neither record nor ledger. */
  lemma NoRecoveryOnceTerminal(ops: seq<Op>, j: nat, n: nat)
    requires j < n < |ops| && ops[n].Look?
    requires var p := ops[n].seen.pane;
             p in Fold(ops[..n]).records && Start(ops[..n], p) < j && EndsAt(ops, j, p) && Kept(ops[..n], j, p)
    ensures !RecoversAt(ops, n)
    ensures var d := Decide(Fold(ops[..n]), ops[n].seen, ops[n].config, ops[n].now).1;
            d.act == Resets || (d.act == Exhausted && Fold(ops[..n + 1]) == Fold(ops[..n]))
  {
    var before := ops[..n];
    assert before[j] == ops[j] && before[..j] == ops[..j];
    MarkStays(before, j, ops[n].seen.pane);
    assert ops[..n + 1][..n] == before;
  }

  // ---------------------------------------------------------------- the record by its history

  /** The recoveries of the pane since operation `m`. */
  function Since(ops: seq<Op>, p: Pane, m: nat): seq<Time>
    requires m < |ops|
  {
    TimesGrow(ops, p, m + 1);
    Times(ops, p)[|Times(ops[..m + 1], p)|..]
  }

  lemma {:induction false} TimesGrow(ops: seq<Op>, p: Pane, k: nat)
    requires k <= |ops|
    ensures Times(ops[..k], p) <= Times(ops, p)
    decreases |ops|
  {
    if k == |ops| {
      assert ops[..k] == ops;
    } else {
      var before := ops[..|ops| - 1];
      assert before[..k] == ops[..k];
      TimesGrow(before, p, k);
    }
  }

  /** The record was ended since operation `m`, and the mark was not taken off. */
  predicate Ended(ops: seq<Op>, p: Pane, m: nat) {
    exists j :: m < j < |ops| && EndsAt(ops, j, p) && Kept(ops, j, p)
  }

  lemma EndedNext(ops: seq<Op>, p: Pane, m: nat)
    requires m < |ops| - 1
    ensures var n := |ops| - 1;
            Ended(ops, p, m) <==> EndsAt(ops, n, p) || (Ended(ops[..n], p, m) && ops[n] != MarkTerminal(p, ""))
  {
    var n := |ops| - 1;
    var before := ops[..n];
    forall j | 0 <= j < n ensures EndsAt(before, j, p) <==> EndsAt(ops, j, p) {
      assert before[j] == ops[j] && before[..j] == ops[..j];
    }
    forall j | 0 <= j < n ensures Kept(ops, j, p) <==> Kept(before, j, p) && ops[n] != MarkTerminal(p, "") {
      if Kept(ops, j, p) {
        forall k | j < k < n ensures before[k] != MarkTerminal(p, "") { assert before[k] == ops[k]; }
        assert ops[n] != MarkTerminal(p, "");
      } else {
        var k :| j < k < |ops| && ops[k] == MarkTerminal(p, "");
        if k < n { assert before[k] == ops[k]; }
      }
    }
    if EndsAt(ops, n, p) { assert Kept(ops, n, p); }
  }

  lemma SinceNext(ops: seq<Op>, p: Pane, m: nat)
    requires m < |ops| - 1
    ensures var n := |ops| - 1;
            Since(ops, p, m) == Since(ops[..n], p, m)
                                + if RecoversAt(ops, n) && ops[n].seen.pane == p then [ops[n].now] else []
  {
    var n := |ops| - 1;
    assert ops[..n][..m + 1] == ops[..m + 1];
    TimesGrow(ops[..n], p, m + 1);
  }

  /** The attempts, the last attempt and the mark of a live record are those of the history since its start. */
  predicate Told(ops: seq<Op>, p: Pane, m: nat, r: Record)
    requires m < |ops| && ops[m].Look?
  {
    var since := Since(ops, p, m);
    && r.attempts == Spent(Fold(ops[..m]).spent, KeyOf(ops[m].seen)) + |since|
    && r.lastAttemptAt == (if since == [] then None else Some(since[|since| - 1]))
    && (r.terminal != "" <==> Ended(ops, p, m))
  }

  lemma StepTells(t: State, op: Op, p: Pane)
    requires p in t.records && p in Step(t, op).records
    ensures var r, q := t.records[p], Step(t, op).records[p];
            var act := if op.Look? && op.seen.pane == p then Decide(t, op.seen, op.config, op.now).1.act else Waits;
            && q.attempts == r.attempts + (if act == Recovers then 1 else 0)
            && q.lastAttemptAt == (if act == Recovers then Some(op.now) else r.lastAttemptAt)
            && (q.terminal != "" <==>
                  || act == Exhausted || (op.MarkTerminal? && op.pane == p && op.reason != "")
                  || (r.terminal != "" && op != MarkTerminal(p, "")))
  {}

  lemma ToldNext(ops: seq<Op>, p: Pane, m: nat)
    requires m < |ops| - 1 && ops[m].Look?
    requires var n := |ops| - 1;
             p in Fold(ops[..n]).records && p in Fold(ops).records && Told(ops[..n], p, m, Fold(ops[..n]).records[p])
    ensures Told(ops, p, m, Fold(ops).records[p])
  {
    hide Fold, Step, Decide, Since, Ended, Spent, KeyOf;
    var n := |ops| - 1;
    var before := ops[..n];
    assert before[..m] == ops[..m] && before[m] == ops[m];
    FoldNext(ops);
    SinceNext(ops, p, m);
    EndedNext(ops, p, m);
    StepTells(Fold(before), ops[n], p);
  }

  lemma FoldNext(ops: seq<Op>)
    requires ops != []
    ensures Fold(ops) == Step(Fold(ops[..|ops| - 1]), ops[|ops| - 1])
  {}

  lemma {:induction false} RecordIsTold(ops: seq<Op>, p: Pane)
    requires p in Fold(ops).records
    ensures Start(ops, p) < |ops| && ops[Start(ops, p)].Look? && Told(ops, p, Start(ops, p), Fold(ops).records[p])
    decreases |ops|
  {
    var n := |ops| - 1;
    if p in Fold(ops[..n]).records {
      RecordIsTold(ops[..n], p);
      ToldNext(ops, p, Start(ops, p));
    } else {
      assert ops[..n + 1] == ops;
    }
  }

  /** Exactly when a look recovers, by the history alone: the pane is under observation, the look shows the
      same message waiting as the look that began it, nothing has ended it since, it began long enough ago,
      attempts are left, counting those of the ledger at that time, and the last one is long enough ago. */
  lemma RecoversExactly(ops: seq<Op>, c: Config, n: nat)
    requires Uniform(ops, c) && n < |ops| && ops[n].Look?
    ensures var p, o, before := ops[n].seen.pane, ops[n].seen, ops[..n];
            RecoversAt(ops, n) <==>
              && p in Fold(before).records
              && var m := Start(before, p);
              && m < n && ops[m].Look?
              && o.messageId == ops[m].seen.messageId && FingerprintOf(o.text) == FingerprintOf(ops[m].seen.text)
              && !o.cancelled && o.text != "" && o.owned && !o.dialog && o.status == Ready
              && (o.generation == ops[m].seen.generation || o.generation == None || o.generation == Some("")
                  || ops[m].seen.generation == None || ops[m].seen.generation == Some(""))
              && !Ended(before, p, m)
              && ops[n].now - ops[m].now >= c.threshold
              && Spent(Fold(ops[..m]).spent, KeyOf(ops[m].seen)) + |Since(before, p, m)| < ops[n].config.maxAttempts
              && (Since(before, p, m) != [] ==>
                    ops[n].now - Since(before, p, m)[|Since(before, p, m)| - 1] >= c.cooldown)
  {
    var p, o, before := ops[n].seen.pane, ops[n].seen, ops[..n];
    assert ops[n] in ops && forall op :: op in before ==> op in ops;
    if p in Fold(before).records {
      RecordIsFold(before, c, p);
      RecordIsTold(before, p);
      var m := Start(before, p);
      assert before[m] == ops[m] && before[..m] == ops[..m];
      assert Quiet(before[m], p, Fold(before).records[p]);
      hide Since, Ended, Fold, Start;
      if Decide(Fold(before), o, ops[n].config, ops[n].now).1.act != Resets {
        JudgesExactly(Fold(before), o, ops[n].config, ops[n].now);
      }
    }
  }

  // ---------------------------------------------------------------- the key

  /** Enter is pressed exactly by a look that recovers, saves and is followed by the press; what was saved then
      holds the reservation.  Apart from that only saving changes what is saved, and a crash brings it back. */
  lemma PressedExactly(d: Daemon, e: DaemonOp)
    ensures var g := DaemonStep(d, e);
            var recovers := e.Tick? && e.saves && Decide(d.live, e.seen, e.config, e.now).1.act == Recovers;
            && (g.presses != d.presses <==> recovers && e.presses)
            && (recovers && e.presses ==>
                  var k := Key(e.seen.pane, e.seen.messageId, e.seen.generation, FingerprintOf(e.seen.text));
                  g.presses == d.presses[k := 1 + if k in d.presses then d.presses[k] else 0])
            && g.saved == (if recovers || e.Save? then Both(g.live.records, g.live.spent) else d.saved)
            && g.live == match e
                         case Tick(o, c, now, _, _) => Decide(d.live, o, c, now).0
                         case Other(op) => Step(d.live, op)
                         case Save => d.live
                         case Crash => State(d.saved.records, if d.saved.Both? then d.saved.spent else map[])
  {
    hide Decide;
    if e.Tick? {
      var k := KeyOf(e.seen);
      assert Spent(d.presses, k) + 1 != Spent(d.presses, k);
    }
  }
}
