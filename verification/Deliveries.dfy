/** What one look at a handoff comes to, by what it finds: each answer of `deliver` in terms of the
    row, the receipt and the surroundings alone. */
module Deliveries {
  import opened Collections
  import opened Wrappers
  import opened Handoff
  import opened NextJobs

  /** When the next retry is due: the rate floor doubled for every attempt after the first. */
  function DueAt(c: Config, r: Row): Time {
    var floor, doublings := if c.gap < 0.0 then 0.0 else c.gap, if r.attempt > 1 then r.attempt - 1 else 0;
    r.attemptAt.GetOr(0.0) + floor * Pow2(doublings) as real
  }

  /** A retry is refused for good at the limit, waits until it is due, and is taken from then on. */
  lemma RetryPlanExactly(c: Config, r: Row, now: Time)
    ensures var plan := RetryPlan(c, r.attempt, r.attemptAt, now);
            && (plan == Stop <==> r.attempt >= c.maxAttempts)
            && (plan.Wait? <==> 0 < r.attempt < c.maxAttempts && now < DueAt(c, r))
            && (plan == Attempt <==> r.attempt < c.maxAttempts && (r.attempt == 0 || DueAt(c, r) <= now))
  {}

  // ---------------------------------------------------------------- handoffs that are not pending

  /** A handoff that has ended is left alone. */
  lemma EndedIsLeft(c: Config, f: Fleet, order: seq<Id>, id: Id, restart: bool, w: World)
    requires id in f && f[id].control.Idle?
    requires f[id].row.state == Started || f[id].row.state == Undeliverable || f[id].row.state == Cancelled
    ensures AfterDeliver(c, f, order, id, restart, w) == (f, Settled)
  {
    assert f[id := f[id]] == f;
  }

  /** The handoff of a finished task is cancelled, whatever else is found, and nothing else is written. */
  lemma FinishedIsCancelled(c: Config, f: Fleet, order: seq<Id>, id: Id, restart: bool, w: World)
    requires id in f && f[id].control.Idle? && w.taskFinished
    requires f[id].row.state == Pending || f[id].row.state == Sending || f[id].row.state == Sent
    ensures var s := f[id];
            AfterDeliver(c, f, order, id, restart, w)
            == if w.survives == Some(0) then (Halted(f), Died)
               else (f[id := s.(row := s.row.(state := Cancelled))], Settled)
  {
    assert Halted(f[id := f[id].(control := Writing(Some(Cancelled), 0.0, false))]) == Halted(f);
  }

  /** An attempt in flight is left to its sender: only after a restart, and only if that sender is dead,
      is it looked at. */
  lemma SendingIsLeft(c: Config, f: Fleet, order: seq<Id>, id: Id, restart: bool, w: World)
    requires id in f && f[id].control.Idle? && f[id].row.state == Sending && !w.taskFinished
    requires !restart || w.ownerAlive
    ensures AfterDeliver(c, f, order, id, restart, w) == (f, Settled)
  {
    assert f[id := f[id]] == f;
  }

  /** How many writes recovery makes: two when it finds out that the attempt was cut short on its way. */
  function RecoveryWrites(s: Slot): nat {
    var r := s.receipt;
    if r.Some? && r.value.attempt == Some(s.row.attempt) && r.value.notice != NoticeSent then 2 else 1
  }

  /** The attempt of a dead sender, after a restart that lives through it: without a receipt of that
      attempt it is as if never made; a receipt of success is believed, with its time; anything else is
      final.  Nothing is typed, no attempt is counted, and no other handoff is touched but by binding. */
  lemma RecoveredExactly(c: Config, f: Fleet, order: seq<Id>, id: Id, w: World)
    requires id in f && f[id].control.Idle? && f[id].row.state == Sending && !w.taskFinished && !w.ownerAlive
    requires w.survives.Some? ==> w.survives.value >= RecoveryWrites(f[id])
    ensures var s, r := f[id], f[id].receipt;
            AfterDeliver(c, f, order, id, true, w)
            == if r.None? || r.value.attempt != Some(s.row.attempt)
               then (f[id := s.(row := s.row.(state := Pending))], Settled)
               else if r.value.notice == NoticeSent
               then Bindings(f[id := s.(row := s.row.(state := Sent, deliveredAt := Some(r.value.at)))], order,
                             s.row.pane, w.binding)
               else (f[id := s.(row := s.row.(state := Undeliverable),
                                receipt := Some(r.value.(notice := NoticeUndeliverable, at := w.now)))], Settled)
  {}

  /** A confirmed handoff is only bound. */
  lemma SentIsBound(c: Config, f: Fleet, order: seq<Id>, id: Id, restart: bool, w: World)
    requires id in f && f[id].control.Idle? && f[id].row.state == Sent && !w.taskFinished
    ensures AfterDeliver(c, f, order, id, restart, w) == Bindings(f, order, f[id].row.pane, w.binding)
  {
    assert f[id := f[id]] == f;
  }

  // ---------------------------------------------------------------- pending handoffs

  /** What a notice leaves of the receipt columns: nothing is inserted, and the attempt stays. */
  function Notified(r: Option<Receipt>, n: Notice, now: Time): Option<Receipt> {
    if r.None? then None else Some(Receipt(n, r.value.attempt, now))
  }

  lemma DispatchedKeepsReserved(c: Config, p: Slot, w: World)
    requires p.control.Stamped?
    ensures var t := Dispatched(c, p, w);
            t.row.attempt == p.row.attempt && t.row.attemptAt == p.row.attemptAt && t.reservedAt == p.reservedAt
  {
    TransmittedFacts(c, p, w);
  }

  lemma ReservedOnce(c: Config, s: Slot, w: World)
    requires s.control.Idle? && Attempts(c, s.row, w)
    ensures var t := Attempted(c, s, w);
            && t.row.attempt == s.row.attempt + (if w.survives == Some(0) then 0 else 1)
            && t.row.attemptAt == (if w.survives == Some(0) then s.row.attemptAt else Some(w.now))
            && t.reservedAt == (if w.survives == Some(0) then s.reservedAt else s.reservedAt + [w.now])
            && (w.survives == Some(0) ==> t == s)
  {
    PreparedReserves(c, s, w);
    var p := Prepared(c, s, w);
    if !DiesPreparing(w) && !w.pausedAtMaterialise && !w.recipientChanged {
      DispatchedKeepsReserved(c, p, w);
      hide Prepared, Dispatched;
    }
  }

  lemma PreparedReserves(c: Config, s: Slot, w: World)
    requires s.control.Idle? && Attempts(c, s.row, w)
    ensures var p := Prepared(c, s, w);
            && p.row.attempt == s.row.attempt + (if w.survives == Some(0) then 0 else 1)
            && p.row.attemptAt == (if w.survives == Some(0) then s.row.attemptAt else Some(w.now))
            && p.reservedAt == (if w.survives == Some(0) then s.reservedAt else s.reservedAt + [w.now])
            && (w.survives == Some(0) ==> p == s)
            && (!DiesPreparing(w) && !w.pausedAtMaterialise && !w.recipientChanged ==> p.control.Stamped?)
  {}

  /** Binding, and the failure of it, leave the reservations and the submits of every handoff. */
  lemma {:induction false} BoundKeepsAttempts(f: Fleet, ids: seq<Id>, pane: Pane, n: nat, id: Id)
    requires id in f && n <= |ids|
    ensures var t := BindFirst(f, ids, pane, n).0[id];
            && t.row.attempt == f[id].row.attempt && t.row.attemptAt == f[id].row.attemptAt
            && t.reservedAt == f[id].reservedAt && t.submits == f[id].submits && t.row.pane == f[id].row.pane
  {
    if n > 0 { BoundKeepsAttempts(f, ids, pane, n - 1, id); }
  }

  lemma BindingKeepsAttempts(g: Fleet, order: seq<Id>, id: Id, w: World)
    requires id in g
    ensures var h := AfterBinding(g, order, id, w).0;
            && id in h && h[id].row.attempt == g[id].row.attempt && h[id].row.attemptAt == g[id].row.attemptAt
            && h[id].reservedAt == g[id].reservedAt && h[id].submits == g[id].submits
            && h[id].row.pane == g[id].row.pane
  {
    BoundKeepsAttempts(g, order, g[id].row.pane, |order|, id);
    if w.binding.Some? && w.binding.value <= |order| {
      BoundKeepsAttempts(g, order, g[id].row.pane, w.binding.value, id);
    }
  }

  /** The same reservations, submits and pane. */
  predicate SameAttempts(a: Slot, b: Slot) {
    && a.row.attempt == b.row.attempt && a.row.attemptAt == b.row.attemptAt && a.reservedAt == b.reservedAt
    && a.submits == b.submits && a.row.pane == b.row.pane
  }

  /** A pending handoff that is not tried keeps its attempts. */
  lemma DeclinedKeepsAttempts(c: Config, s: Slot, restart: bool, w: World)
    requires s.control.Idle? && s.row.state == Pending && !w.taskFinished && !Attempts(c, s.row, w)
    ensures var t := Delivered(c, s, restart, w); SameAttempts(t, s) && t.row.state != Sent
  {
    DeclineNeverTypes(c, s, w);
  }

  /** Exactly when a pending handoff is tried, if the process lives through its first act: the gate is
      open, no turn is running, the claim stands, a retry is left, and it is due.  Otherwise no attempt is
      counted and nothing is typed. */
  lemma TriedExactly(c: Config, f: Fleet, order: seq<Id>, id: Id, restart: bool, w: World)
    requires id in f && f[id].control.Idle? && f[id].row.state == Pending && !w.taskFinished
    ensures var s := f[id];
            var h := AfterDeliver(c, f, order, id, restart, w).0;
            && id in h
            && if !w.gateClosed && !w.turnActive && w.claimValid && s.row.attempt < c.maxAttempts
                  && (s.row.attempt == 0 || DueAt(c, s.row) <= w.now) && w.survives != Some(0)
               then && h[id].row.attempt == s.row.attempt + 1 && h[id].row.attemptAt == Some(w.now)
                    && h[id].reservedAt == s.reservedAt + [w.now]
               else SameAttempts(h[id], s)
  {
    RetryPlanExactly(c, f[id].row, w.now);
    var s, t := f[id], Delivered(c, f[id], restart, w);
    if Attempts(c, s.row, w) {
      ReservedOnce(c, s, w);
      AttemptSpendsOnce(c, s, w);
    } else {
      DeclinedKeepsAttempts(c, s, restart, w);
    }
    hide Delivered, Dies, AfterBinding;
    if !Dies(c, s, restart, w) && t.row.state == Sent { BindingKeepsAttempts(f[id := t], order, id, w); }
  }

  /** Whether anything is written of a pending handoff that is not tried: a new reason to hold it, and that it
      is given up at the limit or without a claim. */
  predicate DeclineWrites(c: Config, s: Slot, w: World) {
    if w.gateClosed then w.reasonChanged
    else && !w.turnActive && !(0 < s.row.attempt < c.maxAttempts && w.now < DueAt(c, s.row))
         && (s.row.attempt >= c.maxAttempts || !w.claimValid)
  }

  /** What becomes of it then: held, with the reason noted; given up; or left alone, as while a turn is running
      or the retry is not due. */
  lemma DeclinedExactly(c: Config, f: Fleet, order: seq<Id>, id: Id, restart: bool, w: World)
    requires id in f && f[id].control.Idle? && f[id].row.state == Pending && !w.taskFinished
    requires w.gateClosed || w.turnActive || !w.claimValid || f[id].row.attempt >= c.maxAttempts
             || (f[id].row.attempt > 0 && w.now < DueAt(c, f[id].row))
    requires DeclineWrites(c, f[id], w) && w.survives.Some? ==> w.survives.value >= 2
    ensures var s := f[id];
            AfterDeliver(c, f, order, id, restart, w)
            == if !DeclineWrites(c, s, w) then (f, Settled)
               else if w.gateClosed then (f[id := s.(receipt := Notified(s.receipt, Queued, w.now))], Settled)
               else (f[id := s.(row := s.row.(state := Undeliverable),
                                receipt := Notified(s.receipt, NoticeUndeliverable, w.now))], Settled)
  {
    assert f[id := f[id]] == f;
    RetryPlanExactly(c, f[id].row, w.now);
    hide RetryPlan, DueAt;
  }

  /** A closed gate and a running turn leave the row as it is, wherever the process dies. */
  lemma HeldRowStays(c: Config, f: Fleet, order: seq<Id>, id: Id, restart: bool, w: World)
    requires id in f && f[id].control.Idle? && f[id].row.state == Pending && !w.taskFinished
    requires w.gateClosed || w.turnActive
    ensures var h := AfterDeliver(c, f, order, id, restart, w).0;
            id in h && h[id].row == f[id].row && h[id].submits == f[id].submits
  {
    DeclineNeverTypes(c, f[id], w);
  }

  /** How a pending handoff is left that is tried, before its pane is bound: what stopped it, and what was
      typed and confirmed. */
  function TriedTo(s: Slot, w: World): Slot {
    var row := s.row.(attempt := s.row.attempt + 1, attemptAt := Some(w.now));
    var reserved := s.(row := row, reservedAt := s.reservedAt + [w.now]);
    var mine := Receipt(Queued, Some(row.attempt), w.now);
    var known := if s.receipt.Some? then s.receipt.value.attempt else None;
    if w.pausedAtMaterialise
    then reserved.(row := row.(state := Pending), receipt := Notified(s.receipt, Queued, w.now))
    else if w.recipientChanged
    then reserved.(row := row.(state := Undeliverable), receipt := Some(Receipt(NoticeUndeliverable, known, w.now)))
    else if w.pausedBeforeSubmit || w.transport == Held
    then reserved.(row := row.(state := Pending), receipt := Some(mine))
    else if w.transport == Confirmed
    then reserved.(row := row.(state := Sent, deliveredAt := Some(w.finishedAt)),
                   receipt := Some(mine.(notice := NoticeSent)),
                   submits := s.submits + 1)
    else reserved.(row := row.(state := Undeliverable), receipt := Some(mine.(notice := NoticeUndeliverable)),
                   submits := s.submits + if w.transport.typed then 1 else 0)
  }

  lemma PreparedIs(c: Config, s: Slot, w: World)
    requires s.control.Idle? && Attempts(c, s.row, w) && w.survives.None? && !w.pausedAtMaterialise
             && !w.recipientChanged
    ensures var row := s.row.(state := Sending, attempt := s.row.attempt + 1, attemptAt := Some(w.now));
            Prepared(c, s, w) == s.(row := row, reservedAt := s.reservedAt + [w.now], control := Stamped,
                                    receipt := Some(Receipt(Queued, Some(row.attempt), w.now)))
  {}

  lemma DispatchedIs(c: Config, p: Slot, w: World)
    requires p.control.Stamped? && p.row.state == Sending && p.receipt.Some? && w.survives.None?
    ensures var r := p.receipt.value.(at := w.now);
            Dispatched(c, p, w)
            == if w.pausedBeforeSubmit || w.transport == Held
               then p.(row := p.row.(state := Pending), receipt := Some(r.(notice := Queued)), control := Idle)
               else if w.transport == Confirmed
               then p.(row := p.row.(state := Sent, deliveredAt := Some(w.finishedAt)), control := Binding,
                       receipt := Some(r.(notice := NoticeSent)), submits := p.submits + 1)
               else p.(row := p.row.(state := Undeliverable), receipt := Some(r.(notice := NoticeUndeliverable)),
                       control := Idle, submits := p.submits + if w.transport.typed then 1 else 0)
  {}

  lemma StoppedIs(c: Config, s: Slot, w: World)
    requires s.control.Idle? && Attempts(c, s.row, w) && w.survives.None?
             && (w.pausedAtMaterialise || w.recipientChanged)
    ensures Attempted(c, s, w) == TriedTo(s, w).(control := Idle)
  {}

  /** How many writes an attempt makes, the submit counted in. */
  function Writes(w: World): nat {
    if w.pausedAtMaterialise then 3 else if w.recipientChanged then 4
    else if w.pausedBeforeSubmit || w.transport == Held then 5 else if w.transport.Raised? then 6 else 7
  }

  lemma SurvivedIsWhole(c: Config, s: Slot, w: World)
    requires s.control.Idle? && Attempts(c, s.row, w) && w.survives.Some? && w.survives.value >= Writes(w)
    ensures Attempted(c, s, w) == Attempted(c, s, w.(survives := None)) && !DiesAttempting(w)
  {
    var v := w.(survives := None);
    assert Prepared(c, s, w) == Prepared(c, s, v);
    hide Prepared, Attempts;
  }

  lemma AttemptedIs(c: Config, s: Slot, w: World)
    requires s.control.Idle? && Attempts(c, s.row, w) && w.survives.None?
    ensures Attempted(c, s, w) == TriedTo(s, w).(control := if TriedTo(s, w).row.state == Sent then Binding else Idle)
  {
    if w.pausedAtMaterialise || w.recipientChanged {
      StoppedIs(c, s, w);
    } else {
      PreparedIs(c, s, w);
      var p := Prepared(c, s, w);
      DispatchedIs(c, p, w);
      hide Prepared, Dispatched, Attempts;
    }
  }

  lemma WholeIs(c: Config, s: Slot, w: World)
    requires s.control.Idle? && Attempts(c, s.row, w) && (w.survives.Some? ==> w.survives.value >= Writes(w))
    ensures var t := TriedTo(s, w);
            && Attempted(c, s, w) == t.(control := if t.row.state == Sent then Binding else Idle)
            && t == t.(control := Idle) && !DiesAttempting(w)
  {
    var v := w.(survives := None);
    if w.survives.Some? { SurvivedIsWhole(c, s, w); }
    assert v == if w.survives.Some? then v else w;
    AttemptedIs(c, s, v);
    assert TriedTo(s, v) == TriedTo(s, w);
    assert TriedTo(s, w).control == Idle;
    hide Attempted, TriedTo, Attempts;
  }

  /** A pending handoff that is tried, in a call that does not die before the binding: exactly one
      reservation, the receipt of this attempt, at most one submit, and the state that the answer of the
      terminal calls for.  A confirmed one goes on to bind its pane. */
  lemma TriedEnds(c: Config, f: Fleet, order: seq<Id>, id: Id, restart: bool, w: World)
    requires id in f && f[id].control.Idle? && f[id].row.state == Pending && !w.taskFinished
    requires w.survives.Some? ==> w.survives.value >= Writes(w)
    requires !w.gateClosed && !w.turnActive && w.claimValid && f[id].row.attempt < c.maxAttempts
    requires f[id].row.attempt == 0 || DueAt(c, f[id].row) <= w.now
    ensures var t := TriedTo(f[id], w);
            AfterDeliver(c, f, order, id, restart, w)
            == if t.row.state == Sent then AfterBinding(f[id := t.(control := Binding)], order, id, w)
              else (f[id := t], Settled)
  {
    RetryPlanExactly(c, f[id].row, w.now);
    WholeIs(c, f[id], w);
    hide Attempted, TriedTo, DiesAttempting, AfterBinding, RetryPlan;
  }

  // ---------------------------------------------------------------- a death in between

  /** The handoff after the first `n` of them, and no sender: the reservation; the message, or a note of the pause;
      the number of the attempt on it, or that its recipient has changed; the submit, or a note of the pause;
      what came of it; the verdict. */
  function Stage(s: Slot, w: World, n: nat): Slot {
    var row := s.row.(state := Sending, attempt := s.row.attempt + 1, attemptAt := Some(w.now));
    var tried := s.(row := row, reservedAt := s.reservedAt + [w.now]);
    var known := if s.receipt.Some? then s.receipt.value else Receipt(Unset, None, 0.0);
    var mine := Receipt(Queued, Some(row.attempt), w.now);
    var typed := w.transport == Confirmed || (w.transport != Held && w.transport.typed);
    var sent := tried.(submits := s.submits + if typed then 1 else 0);
    if n == 0 then s else if n == 1 then tried
    else if w.pausedAtMaterialise then tried.(receipt := Notified(s.receipt, Queued, w.now))
    else if n == 2 then tried.(receipt := Some(known))
    else if w.recipientChanged then tried.(receipt := Some(known.(notice := NoticeUndeliverable, at := w.now)))
    else if n == 3 || w.pausedBeforeSubmit || w.transport == Held then tried.(receipt := Some(mine))
    else if n == 4 then sent.(receipt := Some(mine))
    else if n == 5 && !w.transport.Raised?
    then sent.(receipt := Some(mine.(notice := if w.transport == Confirmed then NoticeSent else NoticeFailed,
                                     at := w.finishedAt)))
    else sent.(receipt := Some(mine.(notice := if w.transport == Confirmed then NoticeSent else NoticeUndeliverable)))
  }

  lemma EarlyStage(c: Config, s: Slot, w: World, n: nat)
    requires s.control.Idle? && Attempts(c, s.row, w) && w.survives == Some(n) && n < Writes(w)
    requires n <= 1 || (n <= 3 && !w.pausedAtMaterialise && !(n == 3 && w.recipientChanged))
    ensures DiesAttempting(w) && Attempted(c, s, w).(control := Idle) == Stage(s, w, n)
  {
    hide Dispatched, Closed;
  }

  lemma StoppedStage(c: Config, s: Slot, w: World, n: nat)
    requires s.control.Idle? && Attempts(c, s.row, w) && w.survives == Some(n) && n < Writes(w)
    requires (w.pausedAtMaterialise && n == 2) || (!w.pausedAtMaterialise && w.recipientChanged && n == 3)
    ensures DiesAttempting(w) && Attempted(c, s, w).(control := Idle) == Stage(s, w, n)
  {
    hide Dispatched;
  }

  lemma LateStage(c: Config, s: Slot, w: World, n: nat)
    requires s.control.Idle? && Attempts(c, s.row, w) && w.survives == Some(n) && n < Writes(w)
    requires n > 3 && !w.pausedAtMaterialise && !w.recipientChanged
    ensures DiesAttempting(w) && Attempted(c, s, w).(control := Idle) == Stage(s, w, n)
  {
    var row := s.row.(state := Sending, attempt := s.row.attempt + 1, attemptAt := Some(w.now));
    var p := s.(row := row, reservedAt := s.reservedAt + [w.now], control := Stamped,
                receipt := Some(Receipt(Queued, Some(row.attempt), w.now)));
    assert Prepared(c, s, w) == p && !DiesPreparing(w);
    DispatchedAt(c, p, w, n);
    hide Prepared, Dispatched, Attempts;
  }

  lemma DispatchedAt(c: Config, p: Slot, w: World, n: nat)
    requires p.control.Stamped? && p.receipt.Some? && w.survives == Some(n) && 3 < n < Writes(w)
    requires !w.pausedAtMaterialise && !w.recipientChanged
    ensures var r := p.receipt.value;
            var typed := w.transport == Confirmed || (w.transport != Held && w.transport.typed);
            var sent := p.(submits := p.submits + if typed then 1 else 0);
            Dispatched(c, p, w).(control := Idle)
            == if w.pausedBeforeSubmit || w.transport == Held
               then p.(receipt := Some(Receipt(Queued, r.attempt, w.now)), control := Idle)
               else if n == 4 then sent.(control := Idle)
               else if n == 5 && !w.transport.Raised?
               then sent.(receipt := Some(Receipt(if w.transport == Confirmed then NoticeSent else NoticeFailed,
                                                  r.attempt, w.finishedAt)), control := Idle)
               else sent.(receipt := Some(Receipt(if w.transport == Confirmed then NoticeSent else NoticeUndeliverable,
                                                  r.attempt, w.now)), control := Idle)
  {}

  /** A process that dies in an attempt leaves exactly its first writes, and no sender of any handoff. */
  lemma DiedExactly(c: Config, f: Fleet, order: seq<Id>, id: Id, restart: bool, w: World, n: nat)
    requires id in f && f[id].control.Idle? && f[id].row.state == Pending && !w.taskFinished
    requires !w.gateClosed && !w.turnActive && w.claimValid && f[id].row.attempt < c.maxAttempts
    requires f[id].row.attempt == 0 || DueAt(c, f[id].row) <= w.now
    requires w.survives == Some(n) && n < Writes(w)
    ensures var (h, e) := AfterDeliver(c, f, order, id, restart, w);
            && e == Died && h.Keys == f.Keys && h[id] == Stage(f[id], w, n)
            && forall o :: o in f && o != id ==> h[o] == f[o].(control := Idle)
  {
    RetryPlanExactly(c, f[id].row, w.now);
    if n <= 1 || (n <= 3 && !w.pausedAtMaterialise && !(n == 3 && w.recipientChanged)) {
      EarlyStage(c, f[id], w, n);
    } else if n <= 3 {
      StoppedStage(c, f[id], w, n);
    } else {
      LateStage(c, f[id], w, n);
    }
    hide Attempted, Stage, DiesAttempting;
  }

  /** A death in recovery leaves all as it was, or the note that the delivery was interrupted, and no sender. */
  lemma RecoveryDies(c: Config, f: Fleet, order: seq<Id>, id: Id, w: World, n: nat)
    requires id in f && f[id].control.Idle? && f[id].row.state == Sending && !w.taskFinished && !w.ownerAlive
    requires w.survives == Some(n) && n < RecoveryWrites(f[id])
    ensures var s, (h, e) := f[id], AfterDeliver(c, f, order, id, true, w);
            && e == Died && h.Keys == f.Keys && (forall o :: o in f && o != id ==> h[o] == f[o].(control := Idle))
            && h[id] == if n == 0 then s
                        else s.(receipt := Some(s.receipt.value.(notice := NoticeUndeliverable, at := w.now)))
  {}

  /** A death in a decline leaves all as it was, or the note, and no sender. */
  lemma DeclineDies(c: Config, f: Fleet, order: seq<Id>, id: Id, restart: bool, w: World, n: nat)
    requires id in f && f[id].control.Idle? && f[id].row.state == Pending && !w.taskFinished
    requires DeclineWrites(c, f[id], w) && w.survives == Some(n) && n <= 1
    ensures var s, (h, e) := f[id], AfterDeliver(c, f, order, id, restart, w);
            var notice := if w.gateClosed then Queued else NoticeUndeliverable;
            && e == Died && h.Keys == f.Keys && (forall o :: o in f && o != id ==> h[o] == f[o].(control := Idle))
            && h[id] == if n == 0 then s else s.(receipt := Notified(s.receipt, notice, w.now))
  {
    RetryPlanExactly(c, f[id].row, w.now);
    DeclineCut(c, f[id], w, n);
    hide Attempts, Declined, DeclineWrites, DiesDeclining, Notified, DueAt;
  }

  lemma DeclineCut(c: Config, s: Slot, w: World, n: nat)
    requires s.control.Idle? && s.row.state == Pending && !w.taskFinished
    requires DeclineWrites(c, s, w) && w.survives == Some(n) && n <= 1
    ensures var notice := if w.gateClosed then Queued else NoticeUndeliverable;
            && !Attempts(c, s.row, w) && DiesDeclining(c, s, w)
            && Declined(c, s, w).(control := Idle)
               == if n == 0 then s else s.(receipt := Notified(s.receipt, notice, w.now))
  {
    RetryPlanExactly(c, s.row, w.now);
    hide RetryPlan, DueAt;
  }

  // ---------------------------------------------------------------- binding

  /** Exactly which handoffs binding starts: those of the pane that are confirmed, with a turn that names
      them and began no earlier than their attempt, and a receipt of success, up to the first of the
      journal that is so but has no receipt. */
  lemma StartedExactly(f: Fleet, ids: seq<Id>, pane: Pane, i: nat)
    requires Distinct(ids) && i < |ids| && ids[i] in f
    requires forall j :: 0 <= j < i ==> !(ids[j] in f && f[ids[j]].row.pane == pane && Missing(f[ids[j]]))
    ensures var r, q := f[ids[i]].row, f[ids[i]].receipt;
            BindAll(f, ids, pane).0[ids[i]]
            == if r.pane == pane && r.state == Sent && r.deliveredAt.Some?
                  && r.observed.Some? && r.observed.value.turnId != "" && r.observed.value.handoffId == r.id
                  && r.attemptAt.Some? && r.attemptAt.value <= r.observed.value.startedAt
                  && q.Some? && q.value.notice == NoticeSent
               then f[ids[i]].(row := r.(state := Started, turn := r.observed)) else f[ids[i]]
  {
    BindsUpToMissing(f, ids, pane, |ids|, i);
    assert Clear(f, ids, pane, i);
  }

  /** And exactly at which row it raises. */
  lemma MissingExactly(s: Slot)
    ensures Missing(s) <==>
              && s.row.state == Sent && s.row.deliveredAt.Some?
              && s.row.observed.Some? && s.row.observed.value.turnId != ""
              && s.row.observed.value.handoffId == s.row.id && s.row.attemptAt.Some?
              && s.row.attemptAt.value <= s.row.observed.value.startedAt && s.receipt.None?
  {}

  /** How the sender of a confirmed submit comes out of it: it lets go of its handoff, or, when the binding
      raised, makes it undeliverable, in two more writes if it lives so long. */
  lemma BoundSender(g: Fleet, order: seq<Id>, id: Id, w: World)
    requires id in g && g[id].control.Binding? && w.binding.None? && (w.survives.Some? ==> w.survives.value >= 7)
    ensures var (h, raised) := BindAll(g, order, g[id].row.pane);
            var noted := h[id].(control := Idle, receipt := Notified(h[id].receipt, NoticeUndeliverable, w.now));
            var (t, e) := AfterBinding(g, order, id, w);
            && t.Keys == g.Keys && (e == Died <==> raised && (w.survives == Some(7) || w.survives == Some(8)))
            && t[id] == (if !raised || w.survives == Some(7) then h[id].(control := Idle)
                         else if w.survives == Some(8) then noted
                         else noted.(row := noted.row.(state := Undeliverable)))
            && (e != Died ==> e == Settled && t == h[id := t[id]])
  {}

  /** A death in the binding leaves what was bound before it, and no sender. */
  lemma BindingDies(g: Fleet, order: seq<Id>, id: Id, w: World, k: nat)
    requires id in g && w.binding == Some(k) && k <= |order| && !BindFirst(g, order, g[id].row.pane, k).1
    ensures var h, (t, e) := BindFirst(g, order, g[id].row.pane, k).0, AfterBinding(g, order, id, w);
            e == Died && t.Keys == g.Keys && forall o :: o in g ==> t[o] == h[o].(control := Idle)
  {
    hide BindFirst, BindAll, Unlocked;
  }

  /** A turn is kept for the handoff it names exactly when that one is of the pane, in flight or confirmed,
      was tried no later than the turn began, and has none yet. */
  lemma TurnKeptExactly(f: Fleet, order: seq<Id>, pane: Pane, seen: Turn, dies: Option<nat>)
    ensures var id := seen.handoffId;
            AfterTurn(f, order, pane, seen, false, dies)
            == (if id != "" && id in f && f[id].row.pane == pane && f[id].row.id == id
                   && (f[id].row.state == Sending || f[id].row.state == Sent) && f[id].row.attemptAt.Some?
                   && f[id].row.attemptAt.value <= seen.startedAt && f[id].row.observed.None?
                then f[id := f[id].(row := f[id].row.(observed := Some(seen)))] else f, Settled)
  {}

  /** And its pane is bound then, if nobody is sending and the turn names any handoff. */
  lemma TurnBinds(f: Fleet, order: seq<Id>, pane: Pane, seen: Turn, dies: Option<nat>)
    ensures AfterTurn(f, order, pane, seen, true, dies)
            == if seen.handoffId == "" then (f, Settled)
               else Bindings(AfterTurn(f, order, pane, seen, false, dies).0, order, pane, dies)
  {}
}
