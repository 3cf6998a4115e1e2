/** The stuck-message tracker: per pane a record of the text being watched, and a durable
    ledger of the recovery attempts each message has used.  Clock and observations come from
    the caller.  A fingerprint is the collapsed text itself (the digest is taken to be
    injective) and a ledger key is the tuple of its parts. */
module Stuck {
  import opened Wrappers
  import opened Text

  type Pane = string
  type Time = real

  // ---------------------------------------------------------------- composer text

  /** The words of a text, in order. */
  function Words(s: string): seq<string> {
    WordsFrom(s, "")
  }

  function WordsFrom(s: string, word: string): seq<string>
    decreases |s|
  {
    if s == [] then if word == "" then [] else [word]
    else if IsSpace(s[0]) then (if word == "" then [] else [word]) + WordsFrom(s[1..], "")
    else WordsFrom(s[1..], word + [s[0]])
  }

  /** `collapse`: trimmed, every run of white space one blank. */
  function Collapse(s: string): string {
    Joined(Words(s), " ")
  }

  predicate Proper(w: string) {
    w != "" && forall c :: c in w ==> !IsSpace(c)
  }

  lemma {:induction false} WordsAreProper(s: string, word: string)
    requires forall c :: c in word ==> !IsSpace(c)
    ensures forall w :: w in WordsFrom(s, word) ==> Proper(w)
    decreases |s|
  {
    if s != [] {
      if IsSpace(s[0]) { WordsAreProper(s[1..], ""); } else { WordsAreProper(s[1..], word + [s[0]]); }
    }
  }

  lemma {:induction false} WordGathers(w: string, rest: string, word: string)
    requires forall c :: c in w ==> !IsSpace(c)
    ensures WordsFrom(w + rest, word) == WordsFrom(rest, word + w)
    decreases |w|
  {
    if w == "" {
      assert w + rest == rest && word + w == word;
    } else {
      assert (w + rest)[0] == w[0] && (w + rest)[1..] == w[1..] + rest;
      assert word + w == (word + [w[0]]) + w[1..];
      assert w[0] in w && forall c :: c in w[1..] ==> c in w;
      WordGathers(w[1..], rest, word + [w[0]]);
    }
  }

  lemma {:induction false} WordsOfJoined(ws: seq<string>)
    requires forall w :: w in ws ==> Proper(w)
    ensures Words(Joined(ws, " ")) == ws
    decreases |ws|
  {
    if |ws| > 0 {
      assert Proper(ws[0]);
      assert "" + ws[0] == ws[0];
      if |ws| == 1 {
        WordGathers(ws[0], "", "");
        assert ws[0] + "" == ws[0];
      } else {
        var rest := " " + Joined(ws[1..], " ");
        assert ws[0] + " " + Joined(ws[1..], " ") == ws[0] + rest && rest[1..] == Joined(ws[1..], " ");
        WordGathers(ws[0], rest, "");
        WordsOfJoined(ws[1..]);
      }
    }
  }

  /** The composer's wrapping is not content and everything else is: two texts have one
      fingerprint if and only if they have the same words in the same order. */
  lemma FingerprintIsWords(s: string, t: string)
    ensures FingerprintOf(s) == FingerprintOf(t) <==> Words(s) == Words(t)
    ensures Collapse(Collapse(s)) == Collapse(s)
  {
    WordsAreProper(s, "");
    WordsAreProper(t, "");
    WordsOfJoined(Words(s));
    WordsOfJoined(Words(t));
  }

  datatype Fingerprint = Fingerprint(flat: string)

  function FingerprintOf(s: string): Fingerprint {
    Fingerprint(Collapse(s))
  }

  // ---------------------------------------------------------------- state

  datatype Status = Ready | Working | Blocked | Dead | Unknown

  datatype Observation = Observation(
    pane: Pane, messageId: string, text: string, status: Status, owned: bool,
    generation: Option<string>, dialog: bool, cancelled: bool)

  datatype Config = Config(enabled: bool, threshold: Time, maxAttempts: nat, cooldown: Time)

  datatype Record = Record(
    messageId: string, generation: Option<string>, fingerprint: Fingerprint, firstSeen: Time,
    lastAttemptAt: Option<Time>, attempts: nat, terminal: string)

  datatype Key = Key(pane: Pane, messageId: string, generation: Option<string>, fingerprint: Fingerprint)

  datatype State = State(records: map<Pane, Record>, spent: map<Key, nat>)

  datatype Act = Waits | Recovers | Cools | Resets | Exhausted

  datatype Decision = Decision(act: Act, attempts: nat, firstSeen: Option<Time>, staleFor: Time)

  /** `if record.get("generation") and obs.generation`: both sides have something to compare. */
  predicate Known(g: Option<string>) {
    g.Some? && g.value != ""
  }

  function KeyOf(o: Observation): Key {
    Key(o.pane, o.messageId, o.generation, FingerprintOf(o.text))
  }

  function RecordKey(p: Pane, r: Record): Key {
    Key(p, r.messageId, r.generation, r.fingerprint)
  }

  function Spent(spent: map<Key, nat>, k: Key): nat {
    if k in spent then spent[k] else 0
  }

  /** The observation proves that our own complete text sits in an idle composer. */
  predicate Clean(o: Observation) {
    o.messageId != "" && !o.cancelled && o.text != "" && o.owned && !o.dialog && o.status == Ready
  }

  /** The record was taken of another pane generation, another message or another text. */
  predicate Differs(r: Record, o: Observation) {
    || (Known(r.generation) && Known(o.generation) && r.generation != o.generation)
    || (r.messageId != "" && r.messageId != o.messageId)
    || r.fingerprint != FingerprintOf(o.text)
  }

  function Drop(t: State, p: Pane): State {
    t.(records := t.records - {p})
  }

  /** `decide`: the decision and the state it leaves behind. */
  function Decide(t: State, o: Observation, c: Config, now: Time): (State, Decision) {
    var reset := Decision(Resets, 0, None, 0.0);
    if !c.enabled then (t, reset)
    else if !Clean(o) then (Drop(t, o.pane), reset)
    else if o.pane in t.records && Differs(t.records[o.pane], o) then (Drop(t, o.pane), reset)
    else if o.pane !in t.records then
      var r := Record(o.messageId, o.generation, FingerprintOf(o.text), now, None, Spent(t.spent, KeyOf(o)), "");
      (t.(records := t.records[o.pane := r]), Decision(Waits, 0, Some(now), 0.0))
    else
      var r := t.records[o.pane];
      var stale := now - r.firstSeen;
      if r.terminal != "" then (t, Decision(Exhausted, r.attempts, Some(r.firstSeen), stale))
      else if stale < c.threshold then (t, Decision(Waits, r.attempts, Some(r.firstSeen), stale))
      else if r.attempts >= c.maxAttempts then
        (State(t.records[o.pane := r.(terminal := "exhausted")], t.spent[KeyOf(o) := r.attempts]),
         Decision(Exhausted, r.attempts, Some(r.firstSeen), stale))
      else if r.lastAttemptAt.Some? && now - r.lastAttemptAt.value < c.cooldown then
        (t, Decision(Cools, r.attempts, Some(r.firstSeen), stale))
      else
        (State(t.records[o.pane := r.(attempts := r.attempts + 1, lastAttemptAt := Some(now))],
               t.spent[KeyOf(o) := r.attempts + 1]),
         Decision(Recovers, r.attempts + 1, Some(r.firstSeen), stale))
  }

  function Mark(t: State, p: Pane, reason: string): State {
    if p in t.records then t.(records := t.records[p := t.records[p].(terminal := reason)]) else t
  }

  // ---------------------------------------------------------------- runs

  datatype Op =
    | Look(seen: Observation, config: Config, now: Time)
    | Forget(pane: Pane)
    | MarkTerminal(pane: Pane, reason: string)
    | Reload

  /** Saving and loading keeps both halves. */
  datatype Saved = Both(records: map<Pane, Record>, spent: map<Key, nat>) | RecordsOnly(records: map<Pane, Record>)

  function AsState(t: State): Saved {
    Both(t.records, t.spent)
  }

  function FromState(s: Saved): State {
    match s
    case Both(records, spent) => State(records, spent)
    case RecordsOnly(records) => State(records, map[])
  }

  function Step(t: State, op: Op): State {
    match op
    case Look(o, c, now) => Decide(t, o, c, now).0
    case Forget(p) => Drop(t, p)
    case MarkTerminal(p, reason) => Mark(t, p, reason)
    case Reload => FromState(AsState(t))
  }

  const Empty := State(map[], map[])

  /** The state after a history of operations, newest last. */
  function Fold(ops: seq<Op>): State
    decreases |ops|
  {
    if ops == [] then Empty else Step(Fold(ops[..|ops| - 1]), ops[|ops| - 1])
  }

  predicate RecoversAt(ops: seq<Op>, n: nat)
    requires n < |ops|
  {
    ops[n].Look? && Decide(Fold(ops[..n]), ops[n].seen, ops[n].config, ops[n].now).1.act == Recovers
  }

  // ---------------------------------------------------------------- the attempt budget

  /** How many recover decisions a history took for one ledger key. */
  function Recoveries(ops: seq<Op>, k: Key): nat
    decreases |ops|
  {
    if ops == [] then 0
    else Recoveries(ops[..|ops| - 1], k)
         + if RecoversAt(ops, |ops| - 1) && KeyOf(ops[|ops| - 1].seen) == k then 1 else 0
  }

  /** Every observation names a pane generation and no call allows more than `max` attempts. */
  predicate Disciplined(ops: seq<Op>, max: nat) {
    forall op :: op in ops && op.Look? ==> Known(op.seen.generation) && op.config.maxAttempts <= max
  }

  /** The live record and the ledger entry of its message always say the same. */
  predicate Agree(t: State) {
    forall p :: p in t.records ==>
      && Known(t.records[p].generation) && t.records[p].messageId != ""
      && t.records[p].attempts == Spent(t.spent, RecordKey(p, t.records[p]))
  }

  lemma StepKeepsBudget(t: State, op: Op, max: nat, k: Key)
    requires Agree(t) && Spent(t.spent, k) <= max
    requires op.Look? ==> Known(op.seen.generation) && op.config.maxAttempts <= max
    ensures Agree(Step(t, op))
    ensures Spent(Step(t, op).spent, k) <= max
    ensures Spent(Step(t, op).spent, k) ==
            Spent(t.spent, k) + if op.Look? && Decide(t, op.seen, op.config, op.now).1.act == Recovers
                                   && KeyOf(op.seen) == k then 1 else 0
  {}

  /** Over any mix of sightings, resets, forgets, terminal marks and reloads, a message in one
      pane generation gets at most `max` recoveries, and the ledger counts them exactly. */
  lemma {:induction false} BudgetOverRuns(ops: seq<Op>, max: nat, k: Key)
    requires Disciplined(ops, max)
    ensures Agree(Fold(ops))
    ensures Recoveries(ops, k) == Spent(Fold(ops).spent, k) <= max
    decreases |ops|
  {
    if ops != [] {
      var n := |ops| - 1;
      assert ops[n] in ops && forall op :: op in ops[..n] ==> op in ops;
      BudgetOverRuns(ops[..n], max, k);
      StepKeepsBudget(Fold(ops[..n]), ops[n], max, k);
    }
  }

  // ---------------------------------------------------------------- exactly when the budget holds

  /** The look writes the ledger entry of its own key: a recovery, or the first exhaustion. */
  predicate Writes(t: State, op: Op) {
    && op.Look? && op.seen.pane in t.records
    && var d := Decide(t, op.seen, op.config, op.now).1;
       d.act == Recovers || (d.act == Exhausted && t.records[op.seen.pane].terminal == "")
  }

  /** The write lowers the entry: the live record has counted fewer attempts than the ledger. */
  predicate Lowers(t: State, op: Op) {
    Writes(t, op) && t.records[op.seen.pane].attempts < Spent(t.spent, KeyOf(op.seen))
  }

  predicate LowersAt(ops: seq<Op>, n: nat)
    requires n < |ops|
  {
    Lowers(Fold(ops[..n]), ops[n])
  }

  /** A look that writes carries the generation its record was started with, known or not. */
  predicate OwnAt(ops: seq<Op>, n: nat)
    requires n < |ops|
  {
    Writes(Fold(ops[..n]), ops[n]) ==>
      ops[n].seen.generation == Fold(ops[..n]).records[ops[n].seen.pane].generation
  }

  predicate Bounded(ops: seq<Op>, max: nat) {
    forall op :: op in ops && op.Look? ==> op.config.maxAttempts <= max
  }

  predicate NeverLowers(ops: seq<Op>) {
    forall n :: 0 <= n < |ops| ==> !LowersAt(ops, n)
  }

  predicate OwnGenerations(ops: seq<Op>) {
    forall n :: 0 <= n < |ops| ==> OwnAt(ops, n)
  }

  predicate Under(t: State, max: nat) {
    && (forall p :: p in t.records ==> t.records[p].attempts <= max)
    && (forall k :: k in t.spent ==> t.spent[k] <= max)
  }

  predicate Balanced(t: State) {
    forall p :: p in t.records ==>
      t.records[p].messageId != "" && t.records[p].attempts == Spent(t.spent, RecordKey(p, t.records[p]))
  }

  function Recovered(t: State, op: Op, k: Key): nat {
    if op.Look? && Decide(t, op.seen, op.config, op.now).1.act == Recovers && KeyOf(op.seen) == k then 1 else 0
  }

  lemma StepPays(t: State, op: Op, max: nat, k: Key)
    requires Under(t, max) && (op.Look? ==> op.config.maxAttempts <= max) && !Lowers(t, op)
    ensures Under(Step(t, op), max)
    ensures Spent(Step(t, op).spent, k) >= Spent(t.spent, k) + Recovered(t, op, k)
  {}

  lemma StepBalances(t: State, op: Op, k: Key)
    requires Balanced(t)
    requires Writes(t, op) ==> op.seen.generation == t.records[op.seen.pane].generation
    ensures !Lowers(t, op) && Balanced(Step(t, op))
    ensures Spent(Step(t, op).spent, k) == Spent(t.spent, k) + Recovered(t, op, k)
  {}

  /** A run and one more operation. */
  lemma Extended(ops: seq<Op>, op: Op, k: Key)
    ensures Fold(ops + [op]) == Step(Fold(ops), op)
    ensures Recoveries(ops + [op], k) == Recoveries(ops, k) + Recovered(Fold(ops), op, k)
    ensures LowersAt(ops + [op], |ops|) <==> Lowers(Fold(ops), op)
    ensures forall n :: 0 <= n < |ops| ==> (LowersAt(ops + [op], n) <==> LowersAt(ops, n))
  {
    var all := ops + [op];
    assert all[..|ops|] == ops;
    forall n | 0 <= n < |ops| ensures LowersAt(all, n) <==> LowersAt(ops, n) {
      assert all[..n] == ops[..n] && all[n] == ops[n];
    }
  }

  lemma Shortened(ops: seq<Op>)
    requires ops != []
    ensures ops[..|ops| - 1] + [ops[|ops| - 1]] == ops
    ensures forall max: nat :: Bounded(ops, max) ==> Bounded(ops[..|ops| - 1], max)
    ensures OwnGenerations(ops) ==> OwnGenerations(ops[..|ops| - 1])
  {
    var before := ops[..|ops| - 1];
    assert forall op :: op in before ==> op in ops;
    if OwnGenerations(ops) {
      forall n | 0 <= n < |before| ensures OwnAt(before, n) {
        assert before[..n] == ops[..n] && before[n] == ops[n] && OwnAt(ops, n);
      }
    }
  }

  /** While no look lowers its ledger entry, a message of one pane generation gets at most `max`
      recoveries, whatever the generations were. */
  lemma {:induction false} BudgetWhileNotLowered(ops: seq<Op>, max: nat, k: Key)
    requires Bounded(ops, max) && NeverLowers(ops)
    ensures Under(Fold(ops), max) && Recoveries(ops, k) <= Spent(Fold(ops).spent, k) <= max
    decreases |ops|
  {
    if ops != [] {
      var n := |ops| - 1;
      Shortened(ops);
      Extended(ops[..n], ops[n], k);
      forall i | 0 <= i < n ensures !LowersAt(ops[..n], i) { assert !LowersAt(ops, i); }
      assert !LowersAt(ops, n) && ops[n] in ops;
      BudgetWhileNotLowered(ops[..n], max, k);
      StepPays(Fold(ops[..n]), ops[n], max, k);
    }
  }

  /** The budget over every run whose writing looks carry their record's own generation: constant
      generations, an unknown one included.  The ledger then counts the recoveries exactly. */
  lemma {:induction false} BudgetByGeneration(ops: seq<Op>, max: nat, k: Key)
    requires Bounded(ops, max) && OwnGenerations(ops)
    ensures Balanced(Fold(ops)) && NeverLowers(ops)
    ensures Recoveries(ops, k) == Spent(Fold(ops).spent, k) <= max
    decreases |ops|
  {
    BalancedByGeneration(ops, k);
    BudgetWhileNotLowered(ops, max, k);
  }

  lemma {:induction false} BalancedByGeneration(ops: seq<Op>, k: Key)
    requires OwnGenerations(ops)
    ensures Balanced(Fold(ops)) && NeverLowers(ops) && Recoveries(ops, k) == Spent(Fold(ops).spent, k)
    decreases |ops|
  {
    if ops != [] {
      var n := |ops| - 1;
      Shortened(ops);
      Extended(ops[..n], ops[n], k);
      BalancedByGeneration(ops[..n], k);
      assert OwnAt(ops, n);
      StepBalances(Fold(ops[..n]), ops[n], k);
      forall i | 0 <= i < |ops| ensures !LowersAt(ops, i) {
        if i < n { assert !LowersAt(ops[..n], i); }
      }
    }
  }

  /** A continuation of `before` within the same limit in which no look lowers the ledger. */
  predicate Continues(before: seq<Op>, more: seq<Op>, max: nat) {
    Bounded(more, max) && forall n :: |before| <= n < |before + more| ==> !LowersAt(before + more, n)
  }

  ghost predicate OverBudget(before: seq<Op>, max: nat) {
    exists more, k :: Continues(before, more, max) && Recoveries(before + more, k) > max
  }

  function Gap(c: Config): Time {
    var a := if c.threshold < 0.0 then 0.0 else c.threshold;
    if c.cooldown < a then a else c.cooldown
  }

  function TimeAt(c: Config, at: Time, j: nat): Time {
    if j == 0 then at else TimeAt(c, at, j - 1) + Gap(c)
  }

  lemma {:induction false} TimeGrows(c: Config, at: Time, j: nat)
    requires j > 0
    ensures TimeAt(c, at, j) >= at + Gap(c)
  {
    if j > 1 { TimeGrows(c, at, j - 1); }
  }

  /** The record is dropped, started again from the ledger, and recovered `j` times. */
  function Again(o: Observation, c: Config, at: Time, j: nat): seq<Op> {
    if j == 0 then [Forget(o.pane), Look(o, c, at)] else Again(o, c, at, j - 1) + [Look(o, c, TimeAt(c, at, j))]
  }

  lemma ContinuesNext(before: seq<Op>, more: seq<Op>, op: Op, max: nat, k: Key)
    requires Continues(before, more, max) && (op.Look? ==> op.config.maxAttempts <= max)
    requires !Lowers(Fold(before + more), op)
    ensures Continues(before, more + [op], max)
    ensures Fold(before + (more + [op])) == Step(Fold(before + more), op)
    ensures Recoveries(before + (more + [op]), k) == Recoveries(before + more, k)
            + Recovered(Fold(before + more), op, k)
  {
    var all := before + more;
    assert before + (more + [op]) == all + [op];
    Extended(all, op, k);
    forall n | |before| <= n < |all + [op]| ensures !LowersAt(all + [op], n) {
      if n < |all| { assert !LowersAt(all, n); }
    }
  }

  /** The record of the pane has recovered `j` times since its start at `at`, from an entry of `base`. */
  predicate Poised(t: State, o: Observation, c: Config, at: Time, base: nat, j: nat) {
    && Spent(t.spent, KeyOf(o)) == base + j
    && o.pane in t.records
    && t.records[o.pane] == Record(o.messageId, o.generation, FingerprintOf(o.text), at,
                                   if j == 0 then None else Some(TimeAt(c, at, j)), base + j, "")
  }

  lemma PoisedNext(t: State, o: Observation, c: Config, at: Time, base: nat, j: nat)
    requires Clean(o) && c.enabled && Poised(t, o, c, at, base, j) && base + j < c.maxAttempts
    ensures var l := Look(o, c, TimeAt(c, at, j + 1));
            !Lowers(t, l) && Recovered(t, l, KeyOf(o)) == 1 && Poised(Step(t, l), o, c, at, base, j + 1)
  {
    TimeGrows(c, at, j + 1);
  }

  lemma {:induction false} AgainSpends(before: seq<Op>, o: Observation, c: Config, at: Time, j: nat)
    requires Clean(o) && c.enabled && Spent(Fold(before).spent, KeyOf(o)) + j <= c.maxAttempts
    ensures Continues(before, Again(o, c, at, j), c.maxAttempts)
    ensures Recoveries(before + Again(o, c, at, j), KeyOf(o)) == Recoveries(before, KeyOf(o)) + j
    ensures Poised(Fold(before + Again(o, c, at, j)), o, c, at, Spent(Fold(before).spent, KeyOf(o)), j)
    decreases j
  {
    hide Fold, Recoveries, Lowers, Decide, Poised, Continues;
    if j == 0 {
      AgainStarts(before, o, c, at);
    } else {
      AgainSpends(before, o, c, at, j - 1);
      AgainNext(before, Again(o, c, at, j - 1), o, c, at, j);
    }
  }

  lemma AgainNext(before: seq<Op>, more: seq<Op>, o: Observation, c: Config, at: Time, j: nat)
    requires j > 0 && Clean(o) && c.enabled && Continues(before, more, c.maxAttempts)
    requires Poised(Fold(before + more), o, c, at, Spent(Fold(before).spent, KeyOf(o)), j - 1)
    requires Spent(Fold(before).spent, KeyOf(o)) + j <= c.maxAttempts
    ensures var next := more + [Look(o, c, TimeAt(c, at, j))];
            && Continues(before, next, c.maxAttempts)
            && Recoveries(before + next, KeyOf(o)) == Recoveries(before + more, KeyOf(o)) + 1
            && Poised(Fold(before + next), o, c, at, Spent(Fold(before).spent, KeyOf(o)), j)
  {
    hide Fold, Recoveries, Lowers, Decide, Poised, Continues;
    PoisedNext(Fold(before + more), o, c, at, Spent(Fold(before).spent, KeyOf(o)), j - 1);
    ContinuesNext(before, more, Look(o, c, TimeAt(c, at, j)), c.maxAttempts, KeyOf(o));
  }

  lemma AgainStarts(before: seq<Op>, o: Observation, c: Config, at: Time)
    requires Clean(o) && c.enabled
    ensures Continues(before, Again(o, c, at, 0), c.maxAttempts)
    ensures Recoveries(before + Again(o, c, at, 0), KeyOf(o)) == Recoveries(before, KeyOf(o))
    ensures Poised(Fold(before + Again(o, c, at, 0)), o, c, at, Spent(Fold(before).spent, KeyOf(o)), 0)
  {
    var f, l := Forget(o.pane), Look(o, c, at);
    assert Continues(before, [], c.maxAttempts) && before + [] == before;
    ContinuesNext(before, [], f, c.maxAttempts, KeyOf(o));
    assert [] + [f] == [f] && [f] + [l] == Again(o, c, at, 0);
    ContinuesNext(before, [f], l, c.maxAttempts, KeyOf(o));
  }

  /** Exactly when a look breaks the budget.  After any history whose writing looks carried their
      record's generation, the next look makes more than `max` recoveries possible, by a
      continuation that itself lowers nothing, if and only if it lowers its ledger entry. */
  lemma BudgetExactly(ops: seq<Op>, op: Op, max: nat)
    requires Bounded(ops, max) && OwnGenerations(ops) && op.Look? && op.config.maxAttempts <= max
    ensures OverBudget(ops + [op], max) <==> Lowers(Fold(ops), op)
  {
    if Lowers(Fold(ops), op) {
      LoweringIsOver(ops, op, max);
    } else {
      forall more, k | Continues(ops + [op], more, max) ensures Recoveries(ops + [op] + more, k) <= max {
        NothingLowers(ops, op, more, max);
        BudgetWhileNotLowered(ops + [op] + more, max, k);
      }
    }
  }

  /** A lowering look leaves less in the ledger than has been taken. */
  lemma LoweredEntry(t: State, op: Op, max: nat)
    requires Under(t, max) && Lowers(t, op) && op.config.maxAttempts <= max
    ensures Clean(op.seen) && op.config.enabled
    ensures var k := KeyOf(op.seen);
            Spent(Step(t, op).spent, k) <= max && Spent(Step(t, op).spent, k) < Spent(t.spent, k) + Recovered(t, op, k)
  {}

  lemma LoweringIsOver(ops: seq<Op>, op: Op, max: nat)
    requires Bounded(ops, max) && OwnGenerations(ops) && op.Look? && op.config.maxAttempts <= max
    requires Lowers(Fold(ops), op)
    ensures OverBudget(ops + [op], max)
  {
    var before, k, c := ops + [op], KeyOf(op.seen), op.config.(maxAttempts := max);
    BudgetByGeneration(ops, max, k);
    BudgetWhileNotLowered(ops, max, k);
    LoweredEntry(Fold(ops), op, max);
    Extended(ops, op, k);
    var left := max - Spent(Fold(before).spent, k);
    AgainSpends(before, op.seen, c, op.now, left);
    assert Continues(before, Again(op.seen, c, op.now, left), max);
  }

  lemma NothingLowers(ops: seq<Op>, op: Op, more: seq<Op>, max: nat)
    requires Bounded(ops, max) && OwnGenerations(ops) && op.Look? && op.config.maxAttempts <= max
    requires !Lowers(Fold(ops), op) && Continues(ops + [op], more, max)
    ensures Bounded(ops + [op] + more, max) && NeverLowers(ops + [op] + more)
  {
    var before := ops + [op];
    var all := before + more;
    BudgetByGeneration(ops, max, KeyOf(op.seen));
    Extended(ops, op, KeyOf(op.seen));
    forall n | 0 <= n < |all| ensures !LowersAt(all, n) {
      if n < |before| {
        assert all[..n] == before[..n] && all[n] == before[n];
        assert !LowersAt(before, n);
      }
    }
  }

  /** One recovery: the record and the ledger entry of its key stay equal if and only if the
      observation carried the record's own generation. */
  lemma RecoveryAgreesExactly(t: State, o: Observation, c: Config, now: Time)
    requires Decide(t, o, c, now).1.act == Recovers
    requires t.records[o.pane].attempts == Spent(t.spent, RecordKey(o.pane, t.records[o.pane]))
    requires t.records[o.pane].messageId != ""
    ensures var u := Decide(t, o, c, now).0;
            u.records[o.pane].attempts == Spent(u.spent, RecordKey(o.pane, u.records[o.pane]))
            <==> o.generation == t.records[o.pane].generation
  {
    var r := t.records[o.pane];
    assert KeyOf(o) == RecordKey(o.pane, r) <==> o.generation == r.generation;
  }

  /** A generation that flickers to unknown refunds the budget: two recoveries where one is
      allowed. */
  lemma FlickeringGenerationRefunds(o: Observation, c: Config)
    requires Clean(o) && Known(o.generation) && c.enabled && c.maxAttempts == 1 && c.threshold >= 0.0
    ensures exists ops: seq<Op> :: Recoveries(ops, KeyOf(o)) == 2
                          && (forall op :: op in ops && op.Look? ==> op.config == c)
  {
    var blind, lost := o.(generation := None), o.(owned := false);
    var a := [Look(blind, c, 0.0)];
    var b := a + [Look(o, c, c.threshold)];
    var d := b + [Look(lost, c, c.threshold)];
    var e := d + [Look(blind, c, c.threshold)];
    var f := e + [Look(o, c, 2.0 * c.threshold)];
    assert a[..0] == [] && b[..1] == a && d[..2] == b && e[..3] == d && f[..4] == e;
    FlickerFirst(o, c, a, b);
    FlickerAgain(o, c, b, d, e);
    var r := Fold(e).records[o.pane];
    assert Recoveries(f, KeyOf(o)) == 2;
  }

  lemma FlickerFirst(o: Observation, c: Config, a: seq<Op>, b: seq<Op>)
    requires Clean(o) && Known(o.generation) && c.enabled && c.maxAttempts == 1 && c.threshold >= 0.0
    requires a == [Look(o.(generation := None), c, 0.0)] && b == a + [Look(o, c, c.threshold)]
    ensures Recoveries(b, KeyOf(o)) == 1 && Fold(b).spent == map[KeyOf(o) := 1] && o.pane in Fold(b).records
  {
    assert a[..0] == [] && b[..1] == a;
    assert Fold(a[..0]) == Empty;
    assert Fold(a).spent == map[];
    assert Recoveries(a, KeyOf(o)) == 0;
  }

  lemma FlickerAgain(o: Observation, c: Config, b: seq<Op>, d: seq<Op>, e: seq<Op>)
    requires Clean(o) && Known(o.generation) && c.enabled
    requires Recoveries(b, KeyOf(o)) == 1 && Fold(b).spent == map[KeyOf(o) := 1] && o.pane in Fold(b).records
    requires d == b + [Look(o.(owned := false), c, c.threshold)]
    requires e == d + [Look(o.(generation := None), c, c.threshold)]
    ensures Recoveries(e, KeyOf(o)) == 1 && o.pane in Fold(e).records
    ensures Fold(e).records[o.pane] == Record(o.messageId, None, FingerprintOf(o.text), c.threshold, None, 0, "")
  {
    assert d[..|b|] == b && e[..|d|] == d;
    assert o.pane !in Fold(d).records;
    assert Recoveries(d, KeyOf(o)) == 1;
    assert KeyOf(o.(generation := None)) !in Fold(d).spent;
  }

  // ---------------------------------------------------------------- the record as a fold of history

  /** The caller may change how many attempts it allows from look to look, and nothing else. */
  predicate Alike(c: Config, d: Config) {
    d == c.(maxAttempts := d.maxAttempts)
  }

  /** Every look of the history used the configuration `c` but for its limit, and recovery is on. */
  predicate Uniform(ops: seq<Op>, c: Config) {
    c.enabled && (forall op :: op in ops && op.Look? ==> Alike(c, op.config))
  }

  /** The index of the sighting that started the live record of a pane. */
  function Start(ops: seq<Op>, p: Pane): nat
    requires p in Fold(ops).records
    decreases |ops|
  {
    var n := |ops| - 1;
    if p in Fold(ops[..n]).records then Start(ops[..n], p) else n
  }

  /** From operation `m` on, every look at the pane showed our own text `r`, idle and alone,
      and nobody dropped the record. */
  predicate Undisturbed(ops: seq<Op>, p: Pane, r: Record, m: nat) {
    forall j :: m <= j < |ops| ==> Quiet(ops[j], p, r)
  }

  predicate Quiet(op: Op, p: Pane, r: Record) {
    op != Forget(p) && (op.Look? && op.seen.pane == p ==> Clean(op.seen) && !Differs(r, op.seen))
  }

  lemma StepKeepsRecord(t: State, op: Op, c: Config, p: Pane)
    requires p in Step(t, op).records && (op.Look? ==> Alike(c, op.config) && c.enabled)
    ensures var r := Step(t, op).records[p];
            && Quiet(op, p, r)
            && if p in t.records then RecordKey(p, r) == RecordKey(p, t.records[p])
               && r.firstSeen == t.records[p].firstSeen
               else op.Look? && op.seen.pane == p && op.now == r.firstSeen && RecordKey(p, r) == KeyOf(op.seen)
  {}

  lemma {:induction false} RecordIsFold(ops: seq<Op>, c: Config, p: Pane)
    requires Uniform(ops, c) && p in Fold(ops).records
    ensures var m, r := Start(ops, p), Fold(ops).records[p];
            && m < |ops| && ops[m].Look? && ops[m].seen.pane == p && ops[m].now == r.firstSeen
            && RecordKey(p, r) == KeyOf(ops[m].seen)
            && Undisturbed(ops, p, r, m)
    decreases |ops|
  {
    var n := |ops| - 1;
    var before := ops[..n];
    assert ops[n] in ops && forall op :: op in before ==> op in ops;
    StepKeepsRecord(Fold(before), ops[n], c, p);
    if p in Fold(before).records {
      RecordIsFold(before, c, p);
      forall j | Start(ops, p) <= j < n
        ensures Quiet(ops[j], p, Fold(before).records[p])
      {
        assert before[j] == ops[j];
      }
    }
  }

  /** A recovery is taken only when some earlier sighting of the pane showed the same message
      and text at least `threshold` ago, and every look at the pane since then found it owned,
      idle, free of dialogs and unchanged. */
  lemma RecoveryMeansStuck(ops: seq<Op>, c: Config, n: nat)
    requires Uniform(ops, c) && n < |ops| && RecoversAt(ops, n)
    ensures exists m :: 0 <= m < n && ops[m].Look? && ops[m].seen.pane == ops[n].seen.pane
                        && ops[n].now - ops[m].now >= c.threshold
                        && ops[m].seen.messageId == ops[n].seen.messageId
                        && FingerprintOf(ops[m].seen.text) == FingerprintOf(ops[n].seen.text)
                        && (forall j :: m <= j <= n && ops[j].Look? && ops[j].seen.pane == ops[n].seen.pane ==>
                              Clean(ops[j].seen) && ops[j].seen.messageId == ops[n].seen.messageId
                              && FingerprintOf(ops[j].seen.text) == FingerprintOf(ops[n].seen.text)
                              && (Known(ops[m].seen.generation) && Known(ops[j].seen.generation)
                                  ==> ops[j].seen.generation == ops[m].seen.generation))
  {
    var before, p := ops[..n], ops[n].seen.pane;
    assert ops[n] in ops && forall op :: op in before ==> op in ops;
    RecordIsFold(before, c, p);
    var m, r := Start(before, p), Fold(before).records[p];
    assert before[m] == ops[m];
    assert !Differs(r, ops[n].seen) && ops[n].now - ops[m].now >= c.threshold;
    forall j | m <= j <= n && ops[j].Look? && ops[j].seen.pane == p
      ensures Clean(ops[j].seen) && !Differs(r, ops[j].seen)
    {
      if j < n {
        assert before[j] == ops[j];
        assert Quiet(before[j], p, r);
      }
    }
    assert r.messageId == ops[m].seen.messageId != "";
  }

  // ---------------------------------------------------------------- the spacing of recoveries

  /** When the recoveries of a pane were taken, in order. */
  function Times(ops: seq<Op>, p: Pane): seq<Time>
    decreases |ops|
  {
    if ops == [] then []
    else
      var n := |ops| - 1;
      Times(ops[..n], p)
      + if RecoversAt(ops, n) && ops[n].seen.pane == p then [ops[n].now] else []
  }

  function Closest(c: Config): Time {
    if c.threshold <= c.cooldown then c.threshold else c.cooldown
  }

  predicate Spaced(ts: seq<Time>, gap: Time) {
    forall i :: 0 < i < |ts| ==> ts[i - 1] + gap <= ts[i]
  }

  /** The look starts a record. */
  predicate Starts(t: State, op: Op) {
    op.Look? && op.config.enabled && Clean(op.seen) && op.seen.pane !in t.records
  }

  /** It starts one dated so long before the last of these recoveries that the record is old enough to
      recover again too soon after it. */
  predicate Early(t: State, op: Op, c: Config, ts: seq<Time>) {
    Starts(t, op) && ts != [] && op.now + c.threshold < ts[|ts| - 1] + Closest(c)
  }

  predicate EarlyAt(ops: seq<Op>, n: nat, c: Config)
    requires n < |ops|
  {
    ops[n].Look? && Early(Fold(ops[..n]), ops[n], c, Times(ops[..n], ops[n].seen.pane))
  }

  predicate NeverEarly(ops: seq<Op>, c: Config) {
    forall n :: 0 <= n < |ops| ==> !EarlyAt(ops, n, c)
  }

  /** The record remembers the last recovery of its pane, or is too young to recover too soon after it. */
  predicate Remembers(r: Record, c: Config, ts: seq<Time>) {
    if r.lastAttemptAt.Some? then ts != [] && ts[|ts| - 1] == r.lastAttemptAt.value
    else ts == [] || ts[|ts| - 1] + Closest(c) <= r.firstSeen + c.threshold
  }

  /** The earlier part of a run keeps its configuration and starts no record too early. */
  lemma EarlierPart(ops: seq<Op>, c: Config)
    requires Uniform(ops, c) && NeverEarly(ops, c) && ops != []
    ensures var before, last := ops[..|ops| - 1], ops[|ops| - 1];
            Uniform(before, c) && NeverEarly(before, c) && (last.Look? ==> Alike(c, last.config))
  {
    var n := |ops| - 1;
    var before := ops[..n];
    assert ops[n] in ops && forall op :: op in before ==> op in ops;
    forall i | 0 <= i < n ensures !EarlyAt(before, i, c) {
      assert before[i] == ops[i] && before[..i] == ops[..i];
      assert !EarlyAt(ops, i, c);
    }
  }

  /** Two recoveries of one pane, resets and reloads in between included, lie at least the
      smaller of threshold and cooldown apart, whatever the clock shows meanwhile. */
  lemma {:induction false} RecoveriesAreSpaced(ops: seq<Op>, c: Config, p: Pane)
    requires Uniform(ops, c) && NeverEarly(ops, c)
    ensures Spaced(Times(ops, p), Closest(c))
    ensures p in Fold(ops).records ==> Remembers(Fold(ops).records[p], c, Times(ops, p))
    decreases |ops|
  {
    if ops != [] {
      var n := |ops| - 1;
      var ts := Times(ops[..n], p);
      EarlierPart(ops, c);
      RecoveriesAreSpaced(ops[..n], c, p);
      assert !EarlyAt(ops, n, c);
      SpacedNext(Fold(ops[..n]), ops[n], c, p, ts);
      assert ts + [] == ts;
    }
  }

  /** The recoveries of a pane after one more operation. */
  function TimesNext(t: State, op: Op, p: Pane, ts: seq<Time>): seq<Time> {
    if op.Look? && op.seen.pane == p && Decide(t, op.seen, op.config, op.now).1.act == Recovers
    then ts + [op.now] else ts
  }

  lemma SpacedNext(t: State, op: Op, c: Config, p: Pane, ts: seq<Time>)
    requires op.Look? ==> Alike(c, op.config)
    requires op.Look? && op.seen.pane == p ==> !Early(t, op, c, ts)
    requires Spaced(ts, Closest(c)) && (p in t.records ==> Remembers(t.records[p], c, ts))
    ensures var us := TimesNext(t, op, p, ts);
            Spaced(us, Closest(c)) && (p in Step(t, op).records ==> Remembers(Step(t, op).records[p], c, us))
  {
    if op.Look? && op.seen.pane == p {
    } else {
    }
  }

  lemma TimesExtended(ops: seq<Op>, op: Op, p: Pane)
    ensures Fold(ops + [op]) == Step(Fold(ops), op)
    ensures Times(ops + [op], p) == TimesNext(Fold(ops), op, p, Times(ops, p))
  {
    assert (ops + [op])[..|ops|] == ops;
    assert Times(ops, p) + [] == Times(ops, p);
  }

  lemma EarlyExtended(ops: seq<Op>, op: Op, c: Config)
    ensures NeverEarly(ops + [op], c) <==>
              NeverEarly(ops, c) && !(op.Look? && Early(Fold(ops), op, c, Times(ops, op.seen.pane)))
  {
    var all := ops + [op];
    assert all[..|ops|] == ops;
    forall n | 0 <= n < |ops| ensures EarlyAt(all, n, c) <==> EarlyAt(ops, n, c) {
      assert all[n] == ops[n] && all[..n] == ops[..n];
    }
    if NeverEarly(all, c) {
      forall n | 0 <= n < |ops| ensures !EarlyAt(ops, n, c) { assert !EarlyAt(all, n, c); }
      assert !EarlyAt(all, |ops|, c);
    }
    if NeverEarly(ops, c) && !(op.Look? && Early(Fold(ops), op, c, Times(ops, op.seen.pane))) {
      forall n | 0 <= n < |all| ensures !EarlyAt(all, n, c) {
        if n < |ops| { assert !EarlyAt(ops, n, c); }
      }
    }
  }

  /** A continuation of `before` under the same configuration that starts no record too early. */
  predicate Goes(before: seq<Op>, more: seq<Op>, c: Config) {
    Uniform(more, c) && forall n :: |before| <= n < |before + more| ==> !EarlyAt(before + more, n, c)
  }

  ghost predicate TooClose(before: seq<Op>, c: Config) {
    exists more, p :: Goes(before, more, c) && !Spaced(Times(before + more, p), Closest(c))
  }

  /** Exactly when a look breaks the spacing.  After any history that started no record too early, the
      next look makes two recoveries too close together possible, by a continuation that itself starts
      none too early, if and only if it does so. */
  lemma SpacingExactly(ops: seq<Op>, op: Op, c: Config)
    requires Uniform(ops, c) && NeverEarly(ops, c) && op.Look? && Alike(c, op.config)
    ensures TooClose(ops + [op], c) <==> Early(Fold(ops), op, c, Times(ops, op.seen.pane))
  {
    if Early(Fold(ops), op, c, Times(ops, op.seen.pane)) {
      EarlyIsTooClose(ops, op, c);
    } else {
      EarlyExtended(ops, op, c);
      forall more, p | Goes(ops + [op], more, c) ensures Spaced(Times(ops + [op] + more, p), Closest(c)) {
        GoesOn(ops + [op], more, c);
        assert Uniform(ops + [op], c) by { assert forall o :: o in ops + [op] ==> o in ops || o == op; }
        assert Uniform(ops + [op] + more, c) by {
          assert forall o :: o in ops + [op] + more ==> o in ops + [op] || o in more;
        }
        RecoveriesAreSpaced(ops + [op] + more, c, p);
      }
    }
  }

  lemma GoesOn(before: seq<Op>, more: seq<Op>, c: Config)
    requires NeverEarly(before, c) && Goes(before, more, c)
    ensures NeverEarly(before + more, c)
  {
    var all := before + more;
    forall n | 0 <= n < |all| ensures !EarlyAt(all, n, c) {
      if n < |before| {
        assert all[n] == before[n] && all[..n] == before[..n];
        assert !EarlyAt(before, n, c);
      }
    }
  }

  /** The record recovers as soon as it is old enough. */
  lemma EarlyIsTooClose(ops: seq<Op>, op: Op, c: Config)
    requires Uniform(ops, c) && op.Look? && Alike(c, op.config)
    requires Early(Fold(ops), op, c, Times(ops, op.seen.pane))
    ensures TooClose(ops + [op], c)
  {
    var o, ts := op.seen, Times(ops, op.seen.pane);
    var before := ops + [op];
    var next := Look(o, c.(maxAttempts := Spent(Fold(ops).spent, KeyOf(o)) + 1), op.now + c.threshold);
    TimesExtended(ops, op, o.pane);
    TimesExtended(before, next, o.pane);
    assert Times(before + [next], o.pane) == ts + [next.now];
    assert (ts + [next.now])[|ts|] == next.now && (ts + [next.now])[|ts| - 1] == ts[|ts| - 1];
    assert !Spaced(ts + [next.now], Closest(c));
    assert (before + [next])[..|before|] == before && o.pane in Fold(before).records;
    assert !EarlyAt(before + [next], |before|, c);
    assert Goes(before, [next], c);
  }

  /** Such a run: a record dated before the last recovery of its pane recovers at once, whatever the
      threshold. */
  lemma BackdatedStartIsNotSpaced(o: Observation, c: Config)
    requires Clean(o) && c.enabled && c.maxAttempts >= 2 && c.threshold > 0.0 && c.cooldown > 0.0
    ensures exists ops :: Uniform(ops, c) && !Spaced(Times(ops, o.pane), Closest(c))
  {
    var first, second := Look(o, c, 0.0), Look(o, c, c.threshold);
    var a, b := [first], [first] + [second];
    var d := b + [Forget(o.pane)];
    var e := d + [first];
    var f := e + [second];
    BackdatedFirst(o, c, a, b);
    hide Clean, KeyOf, Fold, Times;
    BackdatedAgain(o, c, b, d, e, f);
    var ts := Times(f, o.pane);
    assert !(ts[0] + Closest(c) <= ts[1]);
    assert Uniform(f, c);
  }

  lemma BackdatedFirst(o: Observation, c: Config, a: seq<Op>, b: seq<Op>)
    requires Clean(o) && c.enabled && c.maxAttempts >= 2 && c.threshold > 0.0
    requires a == [Look(o, c, 0.0)] && b == a + [Look(o, c, c.threshold)]
    ensures Times(b, o.pane) == [c.threshold] && Fold(b).spent == map[KeyOf(o) := 1]
  {
    assert Fold([]) == Empty && Times([], o.pane) == [] && [] + [Look(o, c, 0.0)] == a;
    hide Fold, Times, FingerprintOf, Clean;
    TimesExtended([], Look(o, c, 0.0), o.pane);
    var r := Record(o.messageId, o.generation, FingerprintOf(o.text), 0.0, None, 0, "");
    assert Fold(a) == State(map[o.pane := r], map[]);
    assert Times(a, o.pane) == [];
    TimesExtended(a, Look(o, c, c.threshold), o.pane);
  }

  lemma BackdatedAgain(o: Observation, c: Config, b: seq<Op>, d: seq<Op>, e: seq<Op>, f: seq<Op>)
    requires Clean(o) && c.enabled && c.maxAttempts >= 2 && c.threshold > 0.0
    requires Times(b, o.pane) == [c.threshold] && Fold(b).spent == map[KeyOf(o) := 1]
    requires d == b + [Forget(o.pane)] && e == d + [Look(o, c, 0.0)] && f == e + [Look(o, c, c.threshold)]
    ensures Times(f, o.pane) == [c.threshold, c.threshold]
  {
    TimesExtended(b, Forget(o.pane), o.pane);
    TimesExtended(d, Look(o, c, 0.0), o.pane);
    assert Fold(e).records[o.pane] == Record(o.messageId, o.generation, FingerprintOf(o.text), 0.0, None, 1, "");
    TimesExtended(e, Look(o, c, c.threshold), o.pane);
  }

  lemma {:induction false} SpacedSpan(ts: seq<Time>, gap: Time, i: nat, j: nat)
    requires Spaced(ts, gap) && i <= j < |ts|
    ensures (j - i) as real * gap <= ts[j] - ts[i]
    decreases j
  {
    if i < j {
      SpacedSpan(ts, gap, i, j - 1);
      assert (j - i) as real == (j - 1 - i) as real + 1.0;
      assert ts[j - 1] + gap <= ts[j];
    }
  }

  /** A window of length `w` holds at most 1 + w / min(threshold, cooldown) recoveries. */
  lemma RecoveriesPerWindow(ops: seq<Op>, c: Config, p: Pane, i: nat, j: nat, w: Time)
    requires Uniform(ops, c) && NeverEarly(ops, c) && Closest(c) > 0.0
    requires i <= j < |Times(ops, p)| && Times(ops, p)[j] - Times(ops, p)[i] <= w
    ensures (j - i + 1) as real <= 1.0 + w / Closest(c)
  {
    RecoveriesAreSpaced(ops, c, p);
    SpanBound(Times(ops, p), Closest(c), i, j, w);
  }

  lemma DivideThrough(n: real, g: real, w: real)
    requires g > 0.0 && n * g <= w
    ensures n <= w / g
  {
    assert n == n * g / g;
  }

  lemma SpanBound(ts: seq<Time>, gap: Time, i: nat, j: nat, w: Time)
    requires Spaced(ts, gap) && gap > 0.0 && i <= j < |ts| && ts[j] - ts[i] <= w
    ensures (j - i + 1) as real <= 1.0 + w / gap
  {
    SpacedSpan(ts, gap, i, j);
    DivideThrough((j - i) as real, gap, w);
  }

  // ---------------------------------------------------------------- key presses across crashes

  /** The daemon around the tracker: a live tracker, the one last saved, and how often Enter
      was pressed for each key. */
  datatype Daemon = Daemon(live: State, saved: Saved, presses: map<Key, nat>)

  datatype DaemonOp =
    | Tick(seen: Observation, config: Config, now: Time, saves: bool, presses: bool)
    | Other(op: Op)
    | Save
    | Crash

  /** A recovery is pressed only after the reservation was saved; a crash loses what was not. */
  function DaemonStep(d: Daemon, e: DaemonOp): Daemon {
    match e
    case Tick(o, c, now, saves, presses) =>
      var (t, dec) := Decide(d.live, o, c, now);
      if dec.act != Recovers || !saves then d.(live := t)
      else Daemon(t, AsState(t), if presses then d.presses[KeyOf(o) := Spent(d.presses, KeyOf(o)) + 1] else d.presses)
    case Other(op) => d.(live := Step(d.live, op))
    case Save => d.(saved := AsState(d.live))
    case Crash => d.(live := FromState(d.saved))
  }

  function DaemonFold(es: seq<DaemonOp>): Daemon
    decreases |es|
  {
    if es == [] then Daemon(Empty, AsState(Empty), map[])
    else DaemonStep(DaemonFold(es[..|es| - 1]), es[|es| - 1])
  }

  predicate DisciplinedOp(e: DaemonOp, max: nat) {
    match e
    case Tick(o, c, _, _, _) => Known(o.generation) && c.maxAttempts <= max
    case Other(op) => op.Look? ==> Known(op.seen.generation) && op.config.maxAttempts <= max
    case _ => true
  }

  /** The reservation is durable before the key is pressed, so no sequence of crashes, saves
      and reloads ever presses Enter more than `max` times for one message. */
  lemma {:induction false} PressesWithinBudget(es: seq<DaemonOp>, max: nat, k: Key)
    requires forall e :: e in es ==> DisciplinedOp(e, max)
    ensures var d := DaemonFold(es);
            && Agree(d.live) && Agree(FromState(d.saved))
            && Spent(d.presses, k) <= Spent(FromState(d.saved).spent, k) <= Spent(d.live.spent, k) <= max
    decreases |es|
  {
    if es != [] {
      var n := |es| - 1;
      assert es[n] in es && forall e :: e in es[..n] ==> e in es;
      PressesWithinBudget(es[..n], max, k);
      var d := DaemonFold(es[..n]);
      match es[n]
      case Tick(o, c, now, _, _) => StepKeepsBudget(d.live, Look(o, c, now), max, k);
      case Other(op) => StepKeepsBudget(d.live, op, max, k);
      case _ =>
    }
  }

  // ---------------------------------------------------------------- the tracker itself

  class Tracker {
    var records: map<Pane, Record>
    var spent: map<Key, nat>

    function Now(): State
      reads this
    {
      State(records, spent)
    }

    constructor (from: Saved)
      ensures Now() == FromState(from)
    {
      records := from.records;
      spent := if from.Both? then from.spent else map[];
    }

    method Save() returns (s: Saved)
      ensures s == AsState(Now())
    {
      s := Both(records, spent);
    }

    method Reset(pane: Pane) returns (d: Decision)
      modifies this
      ensures Now() == Drop(old(Now()), pane) && d == Decision(Resets, 0, None, 0.0)
    {
      records := records - {pane};
      d := Decision(Resets, 0, None, 0.0);
    }

    method Reserved(k: Key) returns (n: nat)
      ensures n == Spent(spent, k)
    {
      n := if k in spent then spent[k] else 0;
    }

    method DecideNow(o: Observation, c: Config, now: Time) returns (d: Decision)
      modifies this
      ensures (Now(), d) == Decide(old(Now()), o, c, now)
    {
      if !c.enabled {
        return Decision(Resets, 0, None, 0.0);
      }
      if o.messageId == "" || o.cancelled || o.text == "" || !o.owned || o.dialog || o.status != Ready {
        d := Reset(o.pane);
        return;
      }
      var current := FingerprintOf(o.text);
      if o.pane in records {
        var r := records[o.pane];
        if Known(r.generation) && Known(o.generation) && r.generation != o.generation {
          d := Reset(o.pane);
          return;
        }
        if r.messageId != "" && r.messageId != o.messageId {
          d := Reset(o.pane);
          return;
        }
        if r.fingerprint != current {
          d := Reset(o.pane);
          return;
        }
      }
      if o.pane !in records {
        var already := Reserved(Key(o.pane, o.messageId, o.generation, current));
        records := records[o.pane := Record(o.messageId, o.generation, current, now, None, already, "")];
        return Decision(Waits, 0, Some(now), 0.0);
      }
      d := Judge(o, c, now);
    }

    /** The part of `decide` that weighs an unchanged record. */
    method Judge(o: Observation, c: Config, now: Time) returns (d: Decision)
      requires c.enabled && Clean(o) && o.pane in records && !Differs(records[o.pane], o)
      modifies this
      ensures (Now(), d) == Decide(old(Now()), o, c, now)
    {
      var r := records[o.pane];
      var stale := now - r.firstSeen;
      if r.terminal != "" {
        return Decision(Exhausted, r.attempts, Some(r.firstSeen), stale);
      }
      if stale < c.threshold {
        return Decision(Waits, r.attempts, Some(r.firstSeen), stale);
      }
      if r.attempts >= c.maxAttempts {
        records := records[o.pane := r.(terminal := "exhausted")];
        spent := spent[KeyOf(o) := r.attempts];
        return Decision(Exhausted, r.attempts, Some(r.firstSeen), stale);
      }
      if r.lastAttemptAt.Some? && now - r.lastAttemptAt.value < c.cooldown {
        return Decision(Cools, r.attempts, Some(r.firstSeen), stale);
      }
      r := r.(attempts := r.attempts + 1, lastAttemptAt := Some(now));
      records := records[o.pane := r];
      spent := spent[KeyOf(o) := r.attempts];
      d := Decision(Recovers, r.attempts, Some(r.firstSeen), stale);
    }

    method MarkTerminalNow(pane: Pane, reason: string)
      modifies this
      ensures Now() == Mark(old(Now()), pane, reason)
    {
      if pane in records {
        records := records[pane := records[pane].(terminal := reason)];
      }
    }

    method ForgetNow(pane: Pane)
      modifies this
      ensures Now() == Drop(old(Now()), pane)
    {
      records := records - {pane};
    }
  }
}
