/** The next-job handoff protocol: a durable journal row, a durable inbox receipt, a
    terminal submit that cannot be undone, and a crash allowed between any two of them.

    The protocol is a step relation over one handoff (`Slot`), lifted to a fleet of handoffs
    that share pane locks (`Fleet`).  Two parts of a slot are history: `submits` counts what
    reached the terminal and `reservedAt` keeps the time of every reserved attempt.  */
module Handoff {
  import opened Wrappers

  type Id = string
  type Pane = string
  type Time = real

  /** `maxAttempts` is SUBMIT_ATTEMPTS, `gap` is TURN_END_MIN_GAP_S (any sign). */
  datatype Config = Config(maxAttempts: nat, gap: Time)

  datatype State = Pending | Sending | Sent | Started | Undeliverable | Cancelled

  datatype Turn = Turn(turnId: string, startedAt: Time, handoffId: Id)

  /** The durable journal row of one handoff. */
  datatype Row = Row(id: Id, pane: Pane, state: State, attempt: nat, attemptAt: Option<Time>,
                     observed: Option<Turn>, deliveredAt: Option<Time>, turn: Option<Turn>)

  datatype Notice = Unset | Queued | NoticeSent | NoticeFailed | NoticeUndeliverable

  /** The durable delivery receipt: the notify columns of the inbox row. */
  datatype Receipt = Receipt(notice: Notice, attempt: Option<nat>, at: Time)

  /** Where the one sender of this handoff is.  `Notifying` and `Writing` name the durable
      write that comes next; a target of `None` rewrites the reason and keeps the state.  After
      the `sent` of a confirmed submit the sender is `Binding`: it goes through the handoffs of
      its pane, still inside the guard that turns any failure into `undeliverable`. */
  datatype Control =
    | Idle
    | Reserved
    | Materialised
    | Stamped
    | Typed(ok: bool)
    | Notifying(notice: Notice, next: Option<State>, at: Time)
    | Writing(target: Option<State>, at: Time, guarded: bool)
    | Binding

  datatype Slot = Slot(row: Row, receipt: Option<Receipt>, control: Control,
                       submits: nat, reservedAt: seq<Time>, lost: bool)

  // ---------------------------------------------------------------- retry policy

  datatype Retry = Stop | Wait(nextAt: Time) | Attempt

  function Pow2(n: nat): (p: int)
    ensures p >= 1
  {
    if n == 0 then 1 else 2 * Pow2(n - 1)
  }

  function NonNegative(t: Time): Time {
    if t < 0.0 then 0.0 else t
  }

  /** The delay before attempt `attempt + 1`: the rate floor, doubled once per retry. */
  function Backoff(c: Config, attempt: nat): Time {
    NonNegative(c.gap) * Pow2(if attempt == 0 then 0 else attempt - 1) as real
  }

  function RetryPlan(c: Config, attempt: nat, lastAt: Option<Time>, now: Time): Retry {
    if attempt >= c.maxAttempts then Stop
    else
      var nextAt := lastAt.GetOr(0.0) + Backoff(c, attempt);
      if attempt > 0 && now < nextAt then Wait(nextAt) else Attempt
  }

  // ---------------------------------------------------------------- one handoff

  datatype Action =
    // taken by the sender that takes the pane lock
    | FinishTask
    | Recover
    | Hold
    | GiveUp(now: Time)
    | RejectClaim(now: Time)
    | Reserve(now: Time)
    | Bind
    // taken by that sender while the attempt is in flight
    | Materialise
    | Stamp(now: Time)
    | Pause
    | Submit(typed: bool, confirmed: bool)
    | NoteOutcome(now: Time)
    | Fail
    | Notify(now: Time)
    | Write
    | Release
    | Abort
    // taken by others, at any moment
    | Observe(seen: Turn)
    | CancelIntent
    | EnsureReceipt
    | DeleteReceipt

  predicate Begins(a: Action) {
    a.FinishTask? || a.Recover? || a.Hold? || a.GiveUp? || a.RejectClaim? || a.Reserve?
  }

  predicate Terminal(s: State) {
    s.Started? || s.Undeliverable? || s.Cancelled?
  }

  predicate Matches(s: Slot) {
    s.receipt.Some? && s.receipt.value.attempt == Some(s.row.attempt)
  }

  /** A confirmed delivery with the producer turn that `bind_turn` accepts; only for such a row
      does it look the receipt up. */
  predicate Candidate(r: Row) {
    && r.state == Sent
    && r.deliveredAt.Some?
    && r.observed.Some?
    && r.observed.value.turnId != ""
    && r.observed.value.handoffId == r.id
    && r.attemptAt.Some?
    && r.attemptAt.value <= r.observed.value.startedAt
  }

  predicate Bindable(s: Slot) {
    Candidate(s.row) && s.receipt.Some? && s.receipt.value.notice == NoticeSent
  }

  predicate Enabled(c: Config, s: Slot, a: Action) {
    match a
    case FinishTask => s.control.Idle? && !Terminal(s.row.state)
    case Recover => s.control.Idle? && s.row.state == Sending
    case Hold => s.control.Idle? && s.row.state == Pending
    case GiveUp(now) => s.control.Idle? && s.row.state == Pending
                        && RetryPlan(c, s.row.attempt, s.row.attemptAt, now) == Stop
    case RejectClaim(now) => s.control.Idle? && s.row.state == Pending
                             && RetryPlan(c, s.row.attempt, s.row.attemptAt, now) == Attempt
    case Reserve(now) => s.control.Idle? && s.row.state == Pending
                         && RetryPlan(c, s.row.attempt, s.row.attemptAt, now) == Attempt
    case Bind => (s.control.Idle? || s.control.Binding?) && Bindable(s)
    case Materialise => s.control.Reserved?
    case Stamp(now) => s.control.Materialised?
    case Pause => s.control.Reserved? || s.control.Stamped?
    case Submit(typed, confirmed) => s.control.Stamped? && (confirmed ==> typed)
    case NoteOutcome(now) => s.control.Typed?
    case Fail => s.control.Reserved? || s.control.Materialised? || s.control.Stamped?
                 || s.control.Typed? || s.control.Notifying? || s.control.Writing? || s.control.Binding?
    case Notify(now) => s.control.Notifying?
    case Write => s.control.Writing?
    case Release => s.control.Binding?
    case Abort => !s.control.Idle?
    case Observe(t) => t.handoffId == s.row.id && s.row.attemptAt.Some? && s.row.attemptAt.value <= t.startedAt
    case CancelIntent => true
    case EnsureReceipt => true
    case DeleteReceipt => s.receipt.Some?
  }

  /** `record_notify`: an UPDATE, so it touches nothing when the row is gone; the attempt
      column is only overwritten when an attempt is given. */
  function Noted(r: Option<Receipt>, n: Notice, attempt: Option<nat>, now: Time): Option<Receipt> {
    match r
    case None => None
    case Some(v) => Some(Receipt(n, if attempt.Some? then attempt else v.attempt, now))
  }

  /** `ensure_next_job`: INSERT OR IGNORE, so a replay never replaces a receipt. */
  function Ensured(r: Option<Receipt>): Option<Receipt> {
    if r.Some? then r else Some(Receipt(Unset, None, 0.0))
  }

  /** The final journal write of a delivery: the state, and the delivery time of a `sent`. */
  function Journalled(r: Row, target: Option<State>, at: Time): Row {
    match target
    case None => r
    case Some(t) => if t == Sent then r.(state := Sent, deliveredAt := Some(at)) else r.(state := t)
  }

  /** What restart recovery decides about an interrupted attempt, from the receipt alone. */
  function Recovered(s: Slot): Control {
    if !Matches(s) then Writing(Some(Pending), 0.0, false)
    else if s.receipt.value.notice == NoticeSent then Writing(Some(Sent), s.receipt.value.at, false)
    else Notifying(NoticeUndeliverable, Some(Undeliverable), 0.0)
  }

  function Apply(c: Config, s: Slot, a: Action): Slot
    requires Enabled(c, s, a)
  {
    match a
    case FinishTask => s.(control := Writing(Some(Cancelled), 0.0, false))
    case Recover => s.(control := Recovered(s))
    case Hold => s.(control := Notifying(Queued, None, 0.0))
    case GiveUp(now) => s.(control := Notifying(NoticeUndeliverable, Some(Undeliverable), 0.0))
    case RejectClaim(now) => s.(control := Notifying(NoticeUndeliverable, Some(Undeliverable), 0.0))
    case Reserve(now) =>
      s.(row := s.row.(state := Sending, attempt := s.row.attempt + 1, attemptAt := Some(now)),
         control := Reserved, reservedAt := s.reservedAt + [now])
    case Bind => s.(row := s.row.(state := Started, turn := s.row.observed))
    case Materialise => s.(receipt := Ensured(s.receipt), control := Materialised)
    case Stamp(now) => s.(receipt := Noted(s.receipt, Queued, Some(s.row.attempt), now), control := Stamped)
    case Pause => s.(control := Notifying(Queued, Some(Pending), 0.0))
    case Submit(typed, confirmed) =>
      s.(control := Typed(confirmed), submits := s.submits + if typed then 1 else 0)
    case NoteOutcome(now) =>
      var n := if s.control.ok then NoticeSent else NoticeFailed;
      s.(receipt := Noted(s.receipt, n, None, now),
         control := if s.control.ok then Notifying(NoticeSent, Some(Sent), now)
                    else Notifying(NoticeUndeliverable, Some(Undeliverable), 0.0))
    case Fail => s.(control := Notifying(NoticeUndeliverable, Some(Undeliverable), 0.0))
    case Notify(now) =>
      s.(receipt := Noted(s.receipt, s.control.notice, None, now),
         control := Writing(s.control.next, s.control.at, s.control.notice == NoticeSent))
    case Write =>
      s.(row := Journalled(s.row, s.control.target, s.control.at),
         control := if s.control.guarded then Binding else Idle)
    case Release => s.(control := Idle)
    case Abort => s.(control := Idle)
    case Observe(t) => if s.row.observed.Some? then s else s.(row := s.row.(observed := Some(t)))
    case CancelIntent => s.(row := s.row.(state := Cancelled))
    case EnsureReceipt => s.(receipt := Ensured(s.receipt))
    case DeleteReceipt => s.(receipt := None, lost := s.lost || s.row.state == Sending)
  }

  /** The one environment act that can break the promise: removing the receipt of an attempt
      that is still `sending` while retries remain. */
  predicate Harmless(c: Config, s: Slot, a: Action) {
    a.DeleteReceipt? ==> !(s.row.state == Sending && s.row.attempt < c.maxAttempts)
  }

  // ---------------------------------------------------------------- the invariant

  /** Nothing of this handoff has been typed (or its receipt was lost on the final attempt,
      after which no further attempt can be reserved). */
  predicate Untyped(c: Config, s: Slot) {
    s.submits == 0 || (s.lost && s.row.attempt >= c.maxAttempts)
  }

  predicate Receipted(c: Config, s: Slot) {
    s.row.state == Sending ==> Matches(s) || (s.lost && s.row.attempt >= c.maxAttempts)
  }

  predicate InFlight(s: Slot) {
    s.row.attempt >= 1 && (s.row.state == Sending || s.row.state == Cancelled)
  }

  predicate TargetOk(c: Config, s: Slot, t: Option<State>) {
    t.Some? ==> match t.value
                case Pending => Untyped(c, s)
                case Sent => s.submits == 1
                case Undeliverable => true
                case Cancelled => true
                case _ => false
  }

  predicate ControlInv(c: Config, s: Slot) {
    match s.control
    case Idle => true
    case Reserved => InFlight(s) && s.submits == 0 && !Matches(s)
    case Materialised => && InFlight(s) && s.submits == 0 && !Matches(s)
                         && (s.row.state == Sending ==> s.receipt.Some? || (s.lost && s.row.attempt >= c.maxAttempts))
    case Stamped => InFlight(s) && s.submits == 0 && Receipted(c, s)
    case Typed(ok) => InFlight(s) && Receipted(c, s) && (ok ==> s.submits == 1)
    case Notifying(n, t, _) => TargetOk(c, s, t) && (n == NoticeSent ==> s.submits == 1)
    case Writing(t, _, guarded) => TargetOk(c, s, t) && (guarded ==> s.submits == 1)
    case Binding => s.submits == 1
  }

  predicate StateInv(c: Config, s: Slot) {
    match s.row.state
    case Pending => Untyped(c, s)
    case Sending => s.row.attempt >= 1 && (Matches(s) || Untyped(c, s))
    case Sent => s.submits == 1
    case Started => && s.submits == 1
                    && s.row.turn.Some? && s.row.turn.value.handoffId == s.row.id
                    && s.row.attemptAt.Some? && s.row.attemptAt.value <= s.row.turn.value.startedAt
    case _ => true
  }

  predicate ReceiptInv(s: Slot) {
    s.receipt.Some? ==>
      && (s.receipt.value.attempt.Some? ==> 1 <= s.receipt.value.attempt.value <= s.row.attempt)
      && (s.receipt.value.notice == NoticeSent ==> s.submits == 1)
  }

  /** Consecutive reservations are at least one backoff apart. */
  predicate BackedOff(c: Config, at: seq<Time>) {
    forall k :: 0 < k < |at| ==> at[k - 1] + Backoff(c, k) <= at[k]
  }

  predicate AttemptInv(c: Config, s: Slot) {
    && |s.reservedAt| == s.row.attempt <= c.maxAttempts
    && BackedOff(c, s.reservedAt)
    && s.row.attemptAt == (if s.row.attempt == 0 then None else Some(s.reservedAt[s.row.attempt - 1]))
    && (s.row.attempt == 0 ==> s.submits == 0)
  }

  predicate SlotInv(c: Config, s: Slot) {
    && s.submits <= 1
    && AttemptInv(c, s)
    && ReceiptInv(s)
    && StateInv(c, s)
    && ControlInv(c, s)
  }

  lemma SpacedSnoc(c: Config, at: seq<Time>, now: Time)
    requires BackedOff(c, at)
    requires |at| > 0 ==> at[|at| - 1] + Backoff(c, |at|) <= now
    ensures BackedOff(c, at + [now])
  {
    var b := at + [now];
    forall k | 0 < k < |b| ensures b[k - 1] + Backoff(c, k) <= b[k] {
      if k < |at| { assert at[k - 1] + Backoff(c, k) <= at[k]; }
    }
  }

  lemma StepKeepsAttempts(c: Config, s: Slot, a: Action)
    requires SlotInv(c, s) && Enabled(c, s, a)
    ensures AttemptInv(c, Apply(c, s, a))
  {
    if a.Reserve? {
      SpacedSnoc(c, s.reservedAt, a.now);
    }
  }

  lemma StepKeepsReceipt(c: Config, s: Slot, a: Action)
    requires SlotInv(c, s) && Enabled(c, s, a) && Harmless(c, s, a)
    ensures ReceiptInv(Apply(c, s, a))
  {
    hide BackedOff, Backoff, RetryPlan;
  }

  lemma StepKeepsControl(c: Config, s: Slot, a: Action)
    requires SlotInv(c, s) && Enabled(c, s, a) && Harmless(c, s, a)
    ensures ControlInv(c, Apply(c, s, a))
  {
    hide BackedOff, Backoff;
  }

  /** Every step, crash and interference included, keeps the invariant of a handoff, as long
      as the receipt of a retryable `sending` attempt is not deleted. */
  lemma StepKeepsInv(c: Config, s: Slot, a: Action)
    requires SlotInv(c, s) && Enabled(c, s, a) && Harmless(c, s, a)
    ensures SlotInv(c, Apply(c, s, a))
  {
    StepKeepsAttempts(c, s, a);
    StepKeepsReceipt(c, s, a);
    StepKeepsControl(c, s, a);
    hide AttemptInv, BackedOff, Backoff;
  }

  // ---------------------------------------------------------------- a fleet of handoffs

  type Fleet = map<Id, Slot>

  datatype Event = At(id: Id, action: Action) | Crash | Create(id: Id, pane: Pane)

  function Fresh(id: Id, pane: Pane): Slot {
    Slot(Row(id, pane, Pending, 0, None, None, None, None), None, Idle, 0, [], false)
  }

  predicate PaneFree(f: Fleet, pane: Pane) {
    forall id :: id in f && f[id].row.pane == pane ==> f[id].control.Idle?
  }

  /** Nobody holds the pane lock, or only a sender that is itself binding. */
  predicate PaneBinds(f: Fleet, pane: Pane) {
    forall id :: id in f && f[id].row.pane == pane ==> f[id].control.Idle? || f[id].control.Binding?
  }

  predicate Can(c: Config, f: Fleet, e: Event) {
    match e
    case At(id, a) => && id in f && Enabled(c, f[id], a)
                      && (Begins(a) ==> PaneFree(f, f[id].row.pane))
                      && (a.Bind? ==> PaneBinds(f, f[id].row.pane))
    case Crash => true
    case Create(id, pane) => id !in f
  }

  /** A crash takes every sender away and nothing durable with it. */
  function Halted(f: Fleet): Fleet {
    map id | id in f :: f[id].(control := Idle)
  }

  function Do(c: Config, f: Fleet, e: Event): Fleet
    requires Can(c, f, e)
  {
    match e
    case At(id, a) => f[id := Apply(c, f[id], a)]
    case Crash => Halted(f)
    case Create(id, pane) => f[id := Fresh(id, pane)]
  }

  predicate Legal(c: Config, f: Fleet, es: seq<Event>)
    decreases |es|
  {
    es == [] || (Can(c, f, es[0]) && Legal(c, Do(c, f, es[0]), es[1..]))
  }

  function Run(c: Config, f: Fleet, es: seq<Event>): Fleet
    requires Legal(c, f, es)
    decreases |es|
  {
    if es == [] then f else Run(c, Do(c, f, es[0]), es[1..])
  }

  predicate HarmlessEvent(c: Config, f: Fleet, e: Event)
    requires Can(c, f, e)
  {
    e.At? ==> Harmless(c, f[e.id], e.action)
  }

  /** No event of the run deletes the receipt of a retryable `sending` attempt. */
  predicate Benign(c: Config, f: Fleet, es: seq<Event>)
    requires Legal(c, f, es)
    decreases |es|
  {
    es == [] || (HarmlessEvent(c, f, es[0]) && Benign(c, Do(c, f, es[0]), es[1..]))
  }

  predicate FleetInv(c: Config, f: Fleet) {
    forall id :: id in f ==> f[id].row.id == id && SlotInv(c, f[id])
  }

  lemma FreshInv(c: Config, id: Id, pane: Pane)
    ensures SlotInv(c, Fresh(id, pane))
  {}

  lemma HaltKeepsInv(c: Config, s: Slot)
    requires SlotInv(c, s)
    ensures SlotInv(c, s.(control := Idle))
  {}

  lemma StepKeepsId(c: Config, s: Slot, a: Action)
    requires Enabled(c, s, a)
    ensures Apply(c, s, a).row.id == s.row.id
  {
    hide RetryPlan;
  }

  lemma EventKeepsInv(c: Config, f: Fleet, e: Event)
    requires FleetInv(c, f) && Can(c, f, e) && HarmlessEvent(c, f, e)
    ensures FleetInv(c, Do(c, f, e))
  {
    hide SlotInv, Apply, Enabled, Harmless, PaneFree, PaneBinds;
    match e
    case At(id, a) =>
      StepKeepsInv(c, f[id], a);
      StepKeepsId(c, f[id], a);
    case Crash => forall id | id in f ensures SlotInv(c, f[id].(control := Idle)) { HaltKeepsInv(c, f[id]); }
    case Create(id, pane) => FreshInv(c, id, pane);
  }

  lemma {:induction false} RunKeepsInv(c: Config, f: Fleet, es: seq<Event>)
    requires FleetInv(c, f) && Legal(c, f, es) && Benign(c, f, es)
    ensures FleetInv(c, Run(c, f, es))
    decreases |es|
  {
    if es != [] {
      EventKeepsInv(c, f, es[0]);
      RunKeepsInv(c, Do(c, f, es[0]), es[1..]);
    }
  }

  /** At most one submit per handoff id, in every run of any number of panes, attempts,
      crashes and restarts; and what the durable state then says about that submit. */
  lemma AtMostOnce(c: Config, es: seq<Event>, id: Id)
    requires Legal(c, map[], es) && Benign(c, map[], es) && id in Run(c, map[], es)
    ensures var s := Run(c, map[], es)[id];
            && s.submits <= 1
            && (!s.lost && s.row.state == Pending ==> s.submits == 0)
            && (!s.lost && s.row.state == Sending && !Matches(s) ==> s.submits == 0)
            && (s.row.state == Sent || s.row.state == Started ==> s.submits == 1)
            && (s.receipt.Some? && s.receipt.value.notice == NoticeSent ==> s.submits == 1)
  {
    RunKeepsInv(c, map[], es);
  }

  /** `started` is never invented: one submit reached the terminal, and the producer's turn
      names this handoff and began no earlier than the attempt that was submitted. */
  lemma StartedIsProduced(c: Config, es: seq<Event>, id: Id)
    requires Legal(c, map[], es) && Benign(c, map[], es) && id in Run(c, map[], es)
    requires Run(c, map[], es)[id].row.state == Started
    ensures var s := Run(c, map[], es)[id];
            && s.submits == 1 && s.row.turn.Some? && s.row.turn.value.handoffId == id
            && s.reservedAt != [] && s.reservedAt[|s.reservedAt| - 1] <= s.row.turn.value.startedAt
  {
    RunKeepsInv(c, map[], es);
  }

  /** A typing step only happens in a freshly reserved attempt: nothing has been typed before,
      and the journal says `sending` (or was cancelled by somebody after the reservation). */
  lemma SubmitsOnlyWhenReserved(c: Config, es: seq<Event>, id: Id, typed: bool, confirmed: bool)
    requires Legal(c, map[], es) && Benign(c, map[], es)
    requires Can(c, Run(c, map[], es), At(id, Submit(typed, confirmed)))
    ensures var s := Run(c, map[], es)[id];
            s.submits == 0 && s.row.attempt >= 1 && (s.row.state == Sending || s.row.state == Cancelled)
  {
    RunKeepsInv(c, map[], es);
  }

  /** A handoff at rest in a terminal state never submits again and never leaves the
      terminal states, whatever happens around it, receipt deletions included. */
  lemma {:induction false} TerminalNeverSubmits(c: Config, f: Fleet, es: seq<Event>, id: Id)
    requires Legal(c, f, es)
    requires id in f && Terminal(f[id].row.state) && f[id].control.Idle?
    ensures id in Run(c, f, es)
    ensures var s := Run(c, f, es)[id];
            Terminal(s.row.state) && s.control.Idle? && s.submits == f[id].submits
    decreases |es|
  {
    if es != [] {
      var g := Do(c, f, es[0]);
      assert id in g && Terminal(g[id].row.state) && g[id].control.Idle? && g[id].submits == f[id].submits;
      TerminalNeverSubmits(c, g, es[1..], id);
    }
  }

  /** The pane lock: two handoffs of one pane are never in flight together. */
  predicate OneSender(f: Fleet) {
    forall i, j :: i in f && j in f && i != j && f[i].row.pane == f[j].row.pane
                   ==> f[i].control.Idle? || f[j].control.Idle?
  }

  lemma {:induction false} OneSenderPerPane(c: Config, f: Fleet, es: seq<Event>)
    requires OneSender(f) && Legal(c, f, es)
    ensures OneSender(Run(c, f, es))
    decreases |es|
  {
    if es != [] {
      var g := Do(c, f, es[0]);
      forall i, j | i in g && j in g && i != j && g[i].row.pane == g[j].row.pane
        ensures g[i].control.Idle? || g[j].control.Idle?
      {
        if es[0].At? && !Begins(es[0].action) {
          assert i in f && j in f && f[i].row.pane == f[j].row.pane;
        }
      }
      OneSenderPerPane(c, g, es[1..]);
    }
  }

  lemma {:induction false} Append(c: Config, f: Fleet, es: seq<Event>, e: Event)
    requires Legal(c, f, es) && Can(c, Run(c, f, es), e)
    ensures Legal(c, f, es + [e]) && Run(c, f, es + [e]) == Do(c, Run(c, f, es), e)
    decreases |es|
  {
    if es == [] {
      assert ([e])[1..] == [];
    } else {
      Append(c, Do(c, f, es[0]), es[1..], e);
      assert (es + [e])[1..] == es[1..] + [e];
    }
  }

  lemma {:induction false} AppendBenign(c: Config, f: Fleet, es: seq<Event>, e: Event)
    requires Legal(c, f, es) && Can(c, Run(c, f, es), e) && Legal(c, f, es + [e])
    requires Benign(c, f, es) && HarmlessEvent(c, Run(c, f, es), e)
    ensures Benign(c, f, es + [e])
    decreases |es|
  {
    if es == [] {
      assert ([e])[1..] == [];
    } else {
      assert (es + [e])[1..] == es[1..] + [e];
      AppendBenign(c, Do(c, f, es[0]), es[1..], e);
    }
  }

  // ---------------------------------------------------------------- retry arithmetic over runs

  /** How long after the first reservation the one after `k` retries may come at the earliest. */
  function Earliest(c: Config, k: nat): Time {
    NonNegative(c.gap) * (Pow2(k) - 1) as real
  }

  lemma EarliestGrows(c: Config, k: nat)
    requires k > 0
    ensures Earliest(c, k) == Earliest(c, k - 1) + Backoff(c, k)
  {
    var g, p := NonNegative(c.gap), Pow2(k - 1);
    assert Pow2(k) == 2 * p;
    assert (2 * p - 1) as real == (p - 1) as real + p as real;
    Distribute(g, (p - 1) as real, p as real);
  }

  lemma Distribute(g: real, a: real, b: real)
    ensures g * (a + b) == g * a + g * b
  {}

  lemma {:induction false} BackoffTelescopes(c: Config, at: seq<Time>, k: nat)
    requires BackedOff(c, at) && k < |at|
    ensures at[0] + Earliest(c, k) <= at[k]
  {
    if k == 0 {
      assert Pow2(0) == 1;
    } else {
      BackoffTelescopes(c, at, k - 1);
      EarliestGrows(c, k);
      assert at[k - 1] + Backoff(c, k) <= at[k];
    }
  }

  /** A handoff reserves at most `maxAttempts` attempts, crashes included, and attempt k + 1
      is reserved no earlier than gap * (2^k - 1) after the first one. */
  lemma RetrySchedule(c: Config, es: seq<Event>, id: Id)
    requires Legal(c, map[], es) && Benign(c, map[], es) && id in Run(c, map[], es)
    ensures var s := Run(c, map[], es)[id];
            && |s.reservedAt| == s.row.attempt <= c.maxAttempts
            && forall k :: 0 <= k < |s.reservedAt| ==> s.reservedAt[0] + Earliest(c, k) <= s.reservedAt[k]
  {
    RunKeepsInv(c, map[], es);
    var at := Run(c, map[], es)[id].reservedAt;
    forall k | 0 <= k < |at| ensures at[0] + Earliest(c, k) <= at[k] {
      BackoffTelescopes(c, at, k);
    }
  }

  // ---------------------------------------------------------------- when the promise fails

  /** Some further run, deleting no other retryable receipt, reaches a second submit. */
  ghost predicate CanSubmitTwice(c: Config, f: Fleet, id: Id) {
    exists es :: Legal(c, f, es) && Benign(c, f, es)
                 && id in Run(c, f, es) && Run(c, f, es)[id].submits >= 2
  }

  lemma Prepend(c: Config, f: Fleet, e: Event, es: seq<Event>)
    requires Can(c, f, e) && HarmlessEvent(c, f, e)
    requires Legal(c, Do(c, f, e), es) && Benign(c, Do(c, f, e), es)
    ensures Legal(c, f, [e] + es) && Benign(c, f, [e] + es)
    ensures Run(c, f, [e] + es) == Run(c, Do(c, f, e), es)
  {
    assert ([e] + es)[1..] == es;
  }

  lemma DoubleAfter(c: Config, f: Fleet, e: Event, id: Id)
    requires Can(c, f, e) && HarmlessEvent(c, f, e) && CanSubmitTwice(c, Do(c, f, e), id)
    ensures CanSubmitTwice(c, f, id)
  {
    var g := Do(c, f, e);
    var es :| Legal(c, g, es) && Benign(c, g, es) && id in Run(c, g, es) && Run(c, g, es)[id].submits >= 2;
    Prepend(c, f, e, es);
  }

  lemma SubmitsFromReserved(c: Config, f: Fleet, id: Id)
    requires id in f && f[id].control.Reserved? && f[id].submits == 1
    ensures CanSubmitTwice(c, f, id)
  {
    var f1 := Do(c, f, At(id, Materialise));
    var f2 := Do(c, f1, At(id, Stamp(0.0)));
    var f3 := Do(c, f2, At(id, Submit(true, true)));
    assert Legal(c, f3, []) && Benign(c, f3, []) && Run(c, f3, []) == f3 && f3[id].submits == 2;
    DoubleAfter(c, f2, At(id, Submit(true, true)), id);
    DoubleAfter(c, f1, At(id, Stamp(0.0)), id);
    DoubleAfter(c, f, At(id, Materialise), id);
  }

  /** Reserving, stamping and submitting once more from `pending`. */
  lemma SubmitsFromPending(c: Config, f: Fleet, id: Id)
    requires id in f && PaneFree(f, f[id].row.pane)
    requires f[id].row.state == Pending && f[id].row.attempt < c.maxAttempts && f[id].submits == 1
    ensures CanSubmitTwice(c, f, id)
  {
    var now := f[id].row.attemptAt.GetOr(0.0) + Backoff(c, f[id].row.attempt);
    SubmitsFromReserved(c, Do(c, f, At(id, Reserve(now))), id);
    DoubleAfter(c, f, At(id, Reserve(now)), id);
  }

  /** A submitted attempt whose receipt is gone is replayed by crash and restart. */
  lemma ReplaysWithoutReceipt(c: Config, f: Fleet, id: Id)
    requires id in f && f[id].row.state == Sending && f[id].receipt.None?
    requires f[id].row.attempt < c.maxAttempts && f[id].submits == 1
    ensures CanSubmitTwice(c, f, id)
  {
    var f1 := Do(c, f, Crash);
    var f2 := Do(c, f1, At(id, Recover));
    var f3 := Do(c, f2, At(id, Write));
    SubmitsFromPending(c, f3, id);
    DoubleAfter(c, f2, At(id, Write), id);
    DoubleAfter(c, f1, At(id, Recover), id);
    DoubleAfter(c, f, Crash, id);
  }

  /** The same journal row and receipt, with possibly another sender position and history. */
  predicate SameDurable(s: Slot, t: Slot) {
    s.row == t.row && s.receipt == t.receipt
  }

  /** A sender that has put the message in the inbox and not yet stamped it. */
  lemma ReplaysUnstamped(c: Config, f: Fleet, id: Id)
    requires id in f && f[id].row.state == Sending && f[id].receipt.None?
    requires f[id].control.Materialised? && f[id].row.attempt < c.maxAttempts && f[id].submits == 0
    ensures CanSubmitTwice(c, f, id)
  {
    var f1 := Do(c, f, At(id, Stamp(0.0)));
    var f2 := Do(c, f1, At(id, Submit(true, true)));
    ReplaysWithoutReceipt(c, f2, id);
    DoubleAfter(c, f1, At(id, Submit(true, true)), id);
    DoubleAfter(c, f, At(id, Stamp(0.0)), id);
  }

  lemma DoubleWitness(c: Config, f: Fleet, id: Id) returns (s: Slot)
    requires FleetInv(c, f) && id in f && f[id].receipt.Some?
    requires f[id].row.state == Sending && f[id].row.attempt < c.maxAttempts
    ensures SameDurable(s, f[id]) && SlotInv(c, s)
    ensures CanSubmitTwice(c, f[id := Apply(c, s, DeleteReceipt)], id)
  {
    if Matches(f[id]) {
      s := f[id].(control := Idle, submits := 1);
      ReplaysWithoutReceipt(c, f[id := Apply(c, s, DeleteReceipt)], id);
    } else {
      s := f[id].(control := Materialised);
      ReplaysUnstamped(c, f[id := Apply(c, s, DeleteReceipt)], id);
    }
  }

  /** Exactly when deleting a receipt is safe, judged from what is durable: a handoff whose
      row and receipt read so may be submitted twice afterwards if and only if the row says
      `sending` with a retry left. */
  lemma DeletionExact(c: Config, f: Fleet, id: Id)
    requires FleetInv(c, f) && id in f && f[id].receipt.Some?
    ensures (exists s :: SameDurable(s, f[id]) && SlotInv(c, s)
                         && CanSubmitTwice(c, f[id := Apply(c, s, DeleteReceipt)], id))
            <==> (f[id].row.state == Sending && f[id].row.attempt < c.maxAttempts)
  {
    if f[id].row.state == Sending && f[id].row.attempt < c.maxAttempts {
      var s := DoubleWitness(c, f, id);
    } else {
      forall s | SameDurable(s, f[id]) && SlotInv(c, s)
        ensures !CanSubmitTwice(c, f[id := Apply(c, s, DeleteReceipt)], id)
      {
        var g := f[id := Apply(c, s, DeleteReceipt)];
        StepKeepsInv(c, s, DeleteReceipt);
        forall es | Legal(c, g, es) && Benign(c, g, es) && id in Run(c, g, es)
          ensures Run(c, g, es)[id].submits <= 1
        {
          RunKeepsInv(c, g, es);
        }
      }
    }
  }

  /** The same without the restriction on deletions. */
  ghost predicate TypesTwice(c: Config, f: Fleet, id: Id) {
    exists es :: Legal(c, f, es) && id in Run(c, f, es) && Run(c, f, es)[id].submits >= 2
  }

  lemma TypesTwiceAfter(c: Config, f: Fleet, e: Event, id: Id)
    requires Can(c, f, e) && TypesTwice(c, Do(c, f, e), id)
    ensures TypesTwice(c, f, id)
  {
    var g := Do(c, f, e);
    var es :| Legal(c, g, es) && id in Run(c, g, es) && Run(c, g, es)[id].submits >= 2;
    assert ([e] + es)[1..] == es;
    assert Legal(c, f, [e] + es) && Run(c, f, [e] + es) == Run(c, g, es);
  }

  lemma StampedIsReplayed(c: Config, f: Fleet, id: Id)
    requires id in f && f[id].control.Stamped? && f[id].row.state == Sending && f[id].receipt.Some?
    requires f[id].row.attempt < c.maxAttempts && f[id].submits == 0
    ensures TypesTwice(c, f, id)
  {
    var f1 := Do(c, f, At(id, Submit(true, true)));
    var f2 := Do(c, f1, Crash);
    var f3 := Do(c, f2, At(id, DeleteReceipt));
    ReplaysWithoutReceipt(c, f3, id);
    TypesTwiceAfter(c, f2, At(id, DeleteReceipt), id);
    TypesTwiceAfter(c, f1, Crash, id);
    TypesTwiceAfter(c, f, At(id, Submit(true, true)), id);
  }

  /** From an empty fleet: one submit, a crash, the receipt deleted, and the restart types the
      same prompt again. */
  lemma DeletedReceiptIsReplayed(c: Config, id: Id, pane: Pane)
    requires c.maxAttempts >= 2
    ensures TypesTwice(c, map[], id)
  {
    var f0: Fleet := map[];
    var f1 := Do(c, f0, Create(id, pane));
    var f2 := Do(c, f1, At(id, Reserve(0.0)));
    var f3 := Do(c, f2, At(id, Materialise));
    var f4 := Do(c, f3, At(id, Stamp(0.0)));
    StampedIsReplayed(c, f4, id);
    TypesTwiceAfter(c, f3, At(id, Stamp(0.0)), id);
    TypesTwiceAfter(c, f2, At(id, Materialise), id);
    TypesTwiceAfter(c, f1, At(id, Reserve(0.0)), id);
    TypesTwiceAfter(c, f0, Create(id, pane), id);
  }
}
