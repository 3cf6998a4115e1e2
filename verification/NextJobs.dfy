/** The sender of the handoff protocol: `deliver` and `bind_turn`, which update the journal
    and the receipts one durable write at a time under a pane lock, and may die after any of
    them.  The ghost `log` is the run of the protocol that the writes amount to. */
module NextJobs {
  import opened Collections
  import opened Wrappers
  import opened Handoff

  datatype Transport = Held | Confirmed | Unconfirmed(typed: bool) | Raised(typed: bool)

  /** What one `deliver` call finds when it looks around.  `survives` is the number of durable
      acts after which the process dies, if it dies, the binding of the pane not counted; `binding`
      is the row of the journal that it does not come to look at then, if it dies there. */
  datatype World = World(
    taskFinished: bool, ownerAlive: bool, gateClosed: bool, reasonChanged: bool, turnActive: bool,
    claimValid: bool, now: Time,
    pausedAtMaterialise: bool, recipientChanged: bool, pausedBeforeSubmit: bool,
    transport: Transport, finishedAt: Time, survives: Option<nat>, binding: Option<nat>)

  /** How a call ends: quietly, with the process dying, or with an exception for the caller. */
  datatype Ending = Settled | Died | Raised

  /** Does this call reserve a new attempt? */
  predicate Attempts(c: Config, r: Row, w: World) {
    && r.state == Pending && !w.taskFinished && !w.gateClosed && !w.turnActive && w.claimValid
    && RetryPlan(c, r.attempt, r.attemptAt, w.now) == Attempt
  }

  predicate Typing(t: Transport) {
    match t
    case Held => false
    case Confirmed => true
    case Unconfirmed(typed) => typed
    case Raised(typed) => typed
  }

  /** The guarded submit is called. */
  predicate Reaches(w: World) {
    !w.pausedBeforeSubmit && !w.transport.Held?
  }

  function Transmitted(c: Config, s: Slot, w: World): Slot
    requires s.control.Stamped?
  {
    if !Reaches(w) then Apply(c, s, Pause)
    else
      var s1 := Apply(c, s, Submit(Typing(w.transport), w.transport.Confirmed?));
      if w.survives == Some(4) then s1
      else if w.transport.Raised? then Apply(c, s1, Fail)
      else Apply(c, s1, NoteOutcome(w.finishedAt))
  }

  /** A call that dies takes every sender with it. */
  function Left(f: Fleet, e: Ending): Fleet {
    if e == Died then Halted(f) else f
  }

  /** What `Close` leaves of a handoff, by how many of its two writes survive. */
  function Closed(s: Slot, now: Time, survives: Option<nat>): Slot
    requires s.control.Notifying?
  {
    if survives == Some(0) then s
    else
      var t := s.(receipt := Noted(s.receipt, s.control.notice, None, now),
                  control := Writing(s.control.next, s.control.at, s.control.notice == NoticeSent));
      if survives == Some(1) then t else Entered(t)
  }

  /** After the journal write: the sender of a confirmed submit goes on to bind, any other is done. */
  function Entered(s: Slot): Slot
    requires s.control.Writing?
  {
    s.(row := Journalled(s.row, s.control.target, s.control.at), control := if s.control.guarded then Binding else Idle)
  }

  /** What `bind_turn` makes of a handoff of its pane. */
  function Bound(s: Slot): Slot {
    if Bindable(s) then s.(row := s.row.(state := Started, turn := s.row.observed)) else s
  }

  /** The message of a confirmed delivery whose turn was observed is gone: looking it up raises. */
  predicate Missing(s: Slot) {
    Candidate(s.row) && s.receipt.None?
  }

  /** One row of the journal in `bind_turn`, and whether its lookup raises. */
  function BindNext(f: Fleet, id: Id, pane: Pane): (r: (Fleet, bool))
    ensures r.0.Keys == f.Keys
  {
    if id !in f || f[id].row.pane != pane then (f, false)
    else if Missing(f[id]) then (f, true)
    else (f[id := Bound(f[id])], false)
  }

  /** `bind_turn` over the first `n` handoffs of the journal; the first missing message ends it. */
  function BindFirst(f: Fleet, ids: seq<Id>, pane: Pane, n: nat): (r: (Fleet, bool))
    requires n <= |ids|
    ensures r.0.Keys == f.Keys
  {
    if n == 0 then (f, false)
    else
      var (g, raised) := BindFirst(f, ids, pane, n - 1);
      if raised then (g, true) else BindNext(g, ids[n - 1], pane)
  }

  /** `bind_turn`, over the whole journal in its order. */
  function BindAll(f: Fleet, ids: seq<Id>, pane: Pane): (r: (Fleet, bool))
    ensures r.0.Keys == f.Keys
  {
    BindFirst(f, ids, pane, |ids|)
  }

  /** `bind_turn`, and the process perhaps dying in it before the row `dies`. */
  function Bindings(f: Fleet, ids: seq<Id>, pane: Pane, dies: Option<nat>): (r: (Fleet, Ending))
    ensures r.0.Keys == f.Keys
  {
    if dies.Some? && dies.value <= |ids| && !BindFirst(f, ids, pane, dies.value).1
    then (Halted(BindFirst(f, ids, pane, dies.value).0), Died)
    else
      var (g, raised) := BindAll(f, ids, pane);
      (g, if raised then Ending.Raised else Settled)
  }

  lemma {:induction false} BoundKeepsControl(f: Fleet, ids: seq<Id>, pane: Pane, n: nat, id: Id)
    requires id in f && n <= |ids|
    ensures BindFirst(f, ids, pane, n).0[id].control == f[id].control
    ensures BindFirst(f, ids, pane, n).0[id].row.pane == f[id].row.pane
  {
    if n > 0 { BoundKeepsControl(f, ids, pane, n - 1, id); }
  }

  /** Once it has raised, the rest of the journal is not looked at. */
  lemma {:induction false} RaiseStands(f: Fleet, ids: seq<Id>, pane: Pane, m: nat, n: nat)
    requires m <= n <= |ids| && BindFirst(f, ids, pane, m).1
    ensures BindFirst(f, ids, pane, n) == BindFirst(f, ids, pane, m)
    decreases n
  {
    if m < n { RaiseStands(f, ids, pane, m, n - 1); }
  }

  /** How the loop ends that stopped after `n` rows: by an exception, by a death, or at the end. */
  lemma BindingsAfter(f: Fleet, ids: seq<Id>, pane: Pane, dies: Option<nat>, n: nat)
    requires n <= |ids| && (dies.Some? ==> n <= dies.value)
    requires BindFirst(f, ids, pane, n).1 || dies == Some(n) || n == |ids|
    ensures var (g, raised) := BindFirst(f, ids, pane, n);
            Bindings(f, ids, pane, dies)
            == if !raised && dies == Some(n) then (Halted(g), Died) else (g, if raised then Ending.Raised else Settled)
  {
    if BindFirst(f, ids, pane, n).1 {
      RaiseStands(f, ids, pane, n, |ids|);
      if dies.Some? && dies.value <= |ids| { RaiseStands(f, ids, pane, n, dies.value); }
    }
  }

  predicate Stops(f: Fleet, ids: seq<Id>, pane: Pane, k: nat) {
    k < |ids| && ids[k] in f && f[ids[k]].row.pane == pane && Missing(f[ids[k]])
  }

  /** No message is missing among the first `n`. */
  predicate Clear(f: Fleet, ids: seq<Id>, pane: Pane, n: nat) {
    forall k :: 0 <= k < n ==> !Stops(f, ids, pane, k)
  }

  lemma {:induction false} BindLeavesOthers(f: Fleet, ids: seq<Id>, pane: Pane, n: nat, id: Id)
    requires id in f && n <= |ids| && forall k :: 0 <= k < n ==> ids[k] != id
    ensures BindFirst(f, ids, pane, n).0[id] == f[id]
  {
    if n > 0 { BindLeavesOthers(f, ids, pane, n - 1, id); }
  }

  /** The loop raises exactly when some handoff of the pane is a candidate without a message. */
  lemma {:induction false} RaisesExactly(f: Fleet, ids: seq<Id>, pane: Pane, n: nat)
    requires Distinct(ids) && n <= |ids|
    ensures BindFirst(f, ids, pane, n).1 <==> !Clear(f, ids, pane, n)
  {
    if n > 0 {
      RaisesExactly(f, ids, pane, n - 1);
      if ids[n - 1] in f { BindLeavesOthers(f, ids, pane, n - 1, ids[n - 1]); }
      assert Clear(f, ids, pane, n) <==> Clear(f, ids, pane, n - 1) && !Stops(f, ids, pane, n - 1);
    }
  }

  /** Before the first such handoff the bindable ones of the pane are bound; after it nothing is. */
  lemma {:induction false} BindsUpToMissing(f: Fleet, ids: seq<Id>, pane: Pane, n: nat, i: nat)
    requires Distinct(ids) && i < n <= |ids| && ids[i] in f
    ensures BindFirst(f, ids, pane, n).0[ids[i]]
            == if f[ids[i]].row.pane == pane && Clear(f, ids, pane, i + 1) then Bound(f[ids[i]]) else f[ids[i]]
  {
    RaisesExactly(f, ids, pane, n - 1);
    if i < n - 1 {
      BindsUpToMissing(f, ids, pane, n - 1, i);
    } else {
      BindLeavesOthers(f, ids, pane, i, ids[i]);
      assert Clear(f, ids, pane, n) <==> Clear(f, ids, pane, i) && !Stops(f, ids, pane, i);
    }
  }

  predicate DiesPreparing(w: World) {
    && w.survives.Some?
    && (w.survives.value <= 1
        || (!w.pausedAtMaterialise && (w.survives.value == 2 || (!w.recipientChanged && w.survives.value == 3))))
  }

  /** Reserve, materialise and stamp, as far as the process lives. */
  function Prepared(c: Config, s: Slot, w: World): Slot
    requires s.control.Idle? && Attempts(c, s.row, w)
  {
    if w.survives == Some(0) then s
    else
      var s1 := Apply(c, s, Reserve(w.now));
      if w.survives == Some(1) then s1 else PreparedInbox(c, s1, w)
  }

  function PreparedInbox(c: Config, s: Slot, w: World): Slot
    requires s.control.Reserved?
  {
    if w.pausedAtMaterialise then Apply(c, s, Pause)
    else
      var s2 := Apply(c, s, Materialise);
      if w.survives == Some(2) then s2
      else if w.recipientChanged then Apply(c, s2, Fail)
      else Apply(c, s2, Stamp(w.now))
  }

  /** The journal table of a fleet. */
  ghost function Rows(f: Fleet): map<Id, Row> {
    map id | id in f :: f[id].row
  }

  /** The receipt columns of the inbox rows that exist. */
  ghost function Receipts(f: Fleet): map<Id, Receipt> {
    map id | id in f && f[id].receipt.Some? :: f[id].receipt.value
  }

  /** A receipt update in table terms: one row rewritten, or nothing. */
  lemma TablesOfReceipt(f: Fleet, id: Id, was: Slot, t: Slot)
    requires t.row == was.row && t.receipt.Some?
    ensures Rows(f[id := t]) == Rows(f[id := was])
    ensures Receipts(f[id := t]) == Receipts(f[id := was])[id := t.receipt.value]
  {}

  /** The UPDATE behind `record_notify`. */
  function NotedTable(rs: map<Id, Receipt>, id: Id, n: Notice, attempt: Option<nat>, now: Time): map<Id, Receipt> {
    if id in rs then rs[id := Receipt(n, if attempt.Some? then attempt else rs[id].attempt, now)] else rs
  }

  lemma TablesOfNoted(f: Fleet, id: Id, was: Slot, t: Slot, n: Notice, attempt: Option<nat>, now: Time)
    requires t.row == was.row && t.receipt == Noted(was.receipt, n, attempt, now)
    ensures Rows(f[id := t]) == Rows(f[id := was])
    ensures Receipts(f[id := t]) == NotedTable(Receipts(f[id := was]), id, n, attempt, now)
  {
    if was.receipt.Some? { TablesOfReceipt(f, id, was, t); } else { TablesOfSame(f, id, was, t); }
  }

  lemma TablesOfSame(f: Fleet, id: Id, was: Slot, t: Slot)
    requires t.row == was.row && t.receipt == was.receipt
    ensures Rows(f[id := t]) == Rows(f[id := was])
    ensures Receipts(f[id := t]) == Receipts(f[id := was])
  {}

  /** The INSERT OR IGNORE behind `ensure_next_job`. */
  lemma TablesOfEnsured(f: Fleet, id: Id, was: Slot, t: Slot)
    requires t.row == was.row && t.receipt == Ensured(was.receipt)
    ensures Rows(f[id := t]) == Rows(f[id := was])
    ensures var rs := Receipts(f[id := was]);
            Receipts(f[id := t]) == if id in rs then rs else rs[id := Receipt(Unset, None, 0.0)]
  {
    if was.receipt.Some? { TablesOfSame(f, id, was, t); } else { TablesOfReceipt(f, id, was, t); }
  }

  lemma TablesOfRow(f: Fleet, id: Id, was: Slot, t: Slot)
    requires t.receipt == was.receipt
    ensures Rows(f[id := t]) == Rows(f[id := was])[id := t.row]
    ensures Receipts(f[id := t]) == Receipts(f[id := was])
  {}

  function After(survives: Option<nat>, acts: nat): Option<nat> {
    if survives.None? then None else if survives.value < acts then Some(0) else Some(survives.value - acts)
  }

  /** What the call has decided to write once transmission is over. */
  function Conclusion(w: World): Control {
    if !Reaches(w) then Notifying(Queued, Some(Pending), 0.0)
    else if w.transport.Confirmed? then Notifying(NoticeSent, Some(Sent), w.finishedAt)
    else Notifying(NoticeUndeliverable, Some(Undeliverable), 0.0)
  }

  /** How many acts an attempt performs before its two closing writes. */
  function Acts(w: World): nat {
    if w.pausedAtMaterialise then 1 else if w.recipientChanged then 2
    else if !Reaches(w) then 3 else if w.transport.Raised? then 4 else 5
  }

  /** The process dies before the second of the two closing writes. */
  predicate Ends(survives: Option<nat>) {
    survives == Some(0) || survives == Some(1)
  }

  predicate DiesAttempting(w: World) {
    w.survives.Some? && w.survives.value < Acts(w) + 2
  }

  /** One whole attempt, as far as the process lives. */
  function Attempted(c: Config, s: Slot, w: World): Slot
    requires s.control.Idle? && Attempts(c, s.row, w)
  {
    var p := Prepared(c, s, w);
    if DiesPreparing(w) then p
    else if w.pausedAtMaterialise || w.recipientChanged then Closed(p, w.now, After(w.survives, Acts(w)))
    else Dispatched(c, p, w)
  }

  function Dispatched(c: Config, s: Slot, w: World): Slot
    requires s.control.Stamped?
  {
    var t := Transmitted(c, s, w);
    if w.survives == Some(4) && Reaches(w) then t else Closed(t, w.now, After(w.survives, Acts(w)))
  }

  function Written(s: Slot, survives: Option<nat>): Slot
    requires s.control.Writing?
  {
    if survives == Some(0) then s else Entered(s)
  }

  predicate DiesRecovering(s: Slot, w: World) {
    w.survives == Some(0) || (w.survives == Some(1) && Recovered(s).Notifying?)
  }

  function RecoveredTo(c: Config, s: Slot, w: World): Slot
    requires s.control.Idle? && s.row.state == Sending
  {
    var r := Apply(c, s, Recover);
    if r.control.Writing? then Written(r, w.survives) else Closed(r, w.now, w.survives)
  }

  function Declined(c: Config, s: Slot, w: World): Slot
    requires s.control.Idle? && s.row.state == Pending && !w.taskFinished && !Attempts(c, s.row, w)
  {
    if w.gateClosed then
      if w.reasonChanged then Closed(Apply(c, s, Hold), w.now, w.survives) else s
    else if w.turnActive then s
    else match RetryPlan(c, s.row.attempt, s.row.attemptAt, w.now)
         case Wait(_) => s
         case Stop => Closed(Apply(c, s, GiveUp(w.now)), w.now, w.survives)
         case Attempt => Closed(Apply(c, s, RejectClaim(w.now)), w.now, w.survives)
  }

  predicate DiesDeclining(c: Config, s: Slot, w: World) {
    Ends(w.survives)
    && if w.gateClosed then w.reasonChanged
       else !w.turnActive && !RetryPlan(c, s.row.attempt, s.row.attemptAt, w.now).Wait?
  }

  /** The handoff after one `deliver` call, before the producer turn is bound. */
  function Delivered(c: Config, s: Slot, restart: bool, w: World): Slot
    requires s.control.Idle?
  {
    if Terminal(s.row.state) then s
    else if w.taskFinished then Written(Apply(c, s, FinishTask), w.survives)
    else match s.row.state
         case Sending => if restart && !w.ownerAlive then RecoveredTo(c, s, w) else s
         case Pending => if Attempts(c, s.row, w) then Attempted(c, s, w) else Declined(c, s, w)
         case _ => s
  }

  predicate Dies(c: Config, s: Slot, restart: bool, w: World) {
    && !Terminal(s.row.state)
    && if w.taskFinished then w.survives == Some(0)
       else match s.row.state
            case Sending => restart && !w.ownerAlive && DiesRecovering(s, w)
            case Pending => if Attempts(c, s.row, w) then DiesAttempting(w) else DiesDeclining(c, s, w)
            case _ => false
  }

  /** The prompt is typed in this call: the attempt gets past its gates and lives long enough. */
  predicate Types(w: World) {
    && !w.pausedAtMaterialise && !w.recipientChanged && Reaches(w) && Typing(w.transport)
    && (w.survives.Some? ==> w.survives.value > 3)
  }

  /** How an attempt that is not interrupted ends, before the turns of the pane are bound. */
  function Verdict(w: World): State {
    if w.pausedAtMaterialise then Pending
    else if w.recipientChanged then Undeliverable
    else if !Reaches(w) then Pending
    else if w.transport.Confirmed? then Sent else Undeliverable
  }

  /** Where its sender is then. */
  function Rest(w: World): Control {
    if Verdict(w) == Sent then Binding else Idle
  }

  lemma PreparedFacts(c: Config, s: Slot, w: World)
    requires s.control.Idle? && Attempts(c, s.row, w)
    ensures var p := Prepared(c, s, w);
            && p.submits == s.submits && p.row.pane == s.row.pane
            && p.row.attempt == s.row.attempt + (if w.survives == Some(0) then 0 else 1)
            && p.row.state == (if w.survives == Some(0) then Pending else Sending)
            && (!DiesPreparing(w) ==>
                  p.control == if w.pausedAtMaterialise then Notifying(Queued, Some(Pending), 0.0)
                               else if w.recipientChanged then Notifying(NoticeUndeliverable, Some(Undeliverable), 0.0)
                               else Stamped)
  {}

  lemma TransmittedFacts(c: Config, s: Slot, w: World)
    requires s.control.Stamped?
    ensures var t := Transmitted(c, s, w);
            && t.row == s.row && t.submits == s.submits + (if Reaches(w) && Typing(w.transport) then 1 else 0)
            && (!(w.survives == Some(4) && Reaches(w)) ==> t.control == Conclusion(w))
  {}

  lemma DispatchedFacts(c: Config, s: Slot, w: World)
    requires s.control.Stamped? && s.row.state == Sending
    requires !w.pausedAtMaterialise && !w.recipientChanged && (w.survives.Some? ==> w.survives.value > 3)
    ensures var t := Dispatched(c, s, w);
            && t.row.pane == s.row.pane && t.row.attempt == s.row.attempt
            && t.submits == s.submits + (if Types(w) then 1 else 0)
            && (if DiesAttempting(w) then t.row.state == Sending else t.control == Rest(w) && t.row.state == Verdict(w))
  {
    TransmittedFacts(c, s, w);
    if !(w.survives == Some(4) && Reaches(w)) {
    }
  }

  /** One attempt: a reservation that survives is spent for good, at most one submit goes out
      and exactly when the gates and the transport let it, and the journal ends in the verdict
      or, if the process dies, in `sending`. */
  lemma AttemptSpendsOnce(c: Config, s: Slot, w: World)
    requires s.control.Idle? && Attempts(c, s.row, w)
    ensures var t := Attempted(c, s, w);
            && t.row.pane == s.row.pane
            && t.row.attempt == s.row.attempt + (if w.survives == Some(0) then 0 else 1)
            && t.submits == s.submits + (if Types(w) then 1 else 0)
            && (if DiesAttempting(w) then t.row.state == (if w.survives == Some(0) then Pending else Sending)
                else t.control == Rest(w) && t.row.state == Verdict(w))
  {
    PreparedFacts(c, s, w);
    if !DiesPreparing(w) && !w.pausedAtMaterialise && !w.recipientChanged {
      DispatchedFacts(c, Prepared(c, s, w), w);
    }
  }

  /** Recovery never types and never starts an attempt: an attempt whose number is not on the
      receipt goes back to `pending`, a receipt of success is believed, anything else is final. */
  lemma RecoveryNeverTypes(c: Config, s: Slot, w: World)
    requires s.control.Idle? && s.row.state == Sending
    ensures var t := RecoveredTo(c, s, w);
            && t.row.pane == s.row.pane && t.row.attempt == s.row.attempt && t.submits == s.submits
            && (if DiesRecovering(s, w) then t.row.state == Sending
                else t.control.Idle? && t.row.state == if !Matches(s) then Pending
                                                      else if s.receipt.value.notice == NoticeSent then Sent
                                                      else Undeliverable)
  {}

  /** A declined handoff is untouched but for a hold notice, or it is given up for good. */
  lemma DeclineNeverTypes(c: Config, s: Slot, w: World)
    requires s.control.Idle? && s.row.state == Pending && !w.taskFinished && !Attempts(c, s.row, w)
    ensures var t := Declined(c, s, w);
            && t.submits == s.submits
            && (!DiesDeclining(c, s, w) ==> t.control.Idle?)
            && t.row == if DiesDeclining(c, s, w) || w.gateClosed || w.turnActive
                           || RetryPlan(c, s.row.attempt, s.row.attemptAt, w.now).Wait?
                        then s.row else s.row.(state := Undeliverable)
  {}

  /** All of it together, for one `deliver` call. */
  lemma DeliveredFacts(c: Config, s: Slot, restart: bool, w: World)
    requires s.control.Idle?
    ensures var t := Delivered(c, s, restart, w);
            var attempts := !Terminal(s.row.state) && Attempts(c, s.row, w);
            && t.row.pane == s.row.pane
            && (!Dies(c, s, restart, w) ==> t.control == if attempts && !w.taskFinished then Rest(w) else Idle)
            && t.row.attempt == s.row.attempt + (if attempts && w.survives != Some(0) then 1 else 0)
            && t.submits == s.submits + (if attempts && Types(w) then 1 else 0)
  {
    if !Terminal(s.row.state) && !w.taskFinished {
      if s.row.state == Sending {
        RecoveryNeverTypes(c, s, w);
      } else if s.row.state == Pending {
        if Attempts(c, s.row, w) { AttemptSpendsOnce(c, s, w); } else { DeclineNeverTypes(c, s, w); }
      }
    }
  }

  /** The fleet once the turns of the pane are bound.  Inside a confirmed attempt a missing message
      makes the delivery `undeliverable`; after a recovery, or a later look, it reaches the caller. */
  function AfterBinding(g: Fleet, order: seq<Id>, id: Id, w: World): (Fleet, Ending)
    requires id in g
  {
    var (h, e) := Bindings(g, order, g[id].row.pane, w.binding);
    if g[id].control.Binding? && e != Died then Unlocked(h, id, e == Ending.Raised, w) else (h, e)
  }

  /** What the end of a confirmed attempt makes of the exception of its own binding. */
  function Unlocked(h: Fleet, id: Id, raised: bool, w: World): (Fleet, Ending)
    requires id in h
  {
    if !raised then (h[id := h[id].(control := Idle)], Settled)
    else
      var e := if Ends(After(w.survives, 7)) then Died else Settled;
      (Left(h[id := Closed(h[id].(control := Notifying(NoticeUndeliverable, Some(Undeliverable), 0.0)), w.now,
                           After(w.survives, 7))], e), e)
  }

  /** The whole fleet after one `deliver` call. */
  function AfterDeliver(c: Config, f: Fleet, order: seq<Id>, id: Id, restart: bool, w: World): (Fleet, Ending)
    requires id in f && f[id].control.Idle?
  {
    var t := Delivered(c, f[id], restart, w);
    if Dies(c, f[id], restart, w) then (Halted(f[id := t]), Died)
    else if t.row.state != Sent then (f[id := t], Settled)
    else AfterBinding(f[id := t], order, id, w)
  }

  lemma ConfirmedKeepsReceipt(c: Config, s: Slot, w: World)
    requires s.control.Idle? && Attempts(c, s.row, w) && Verdict(w) == Sent && w.survives.None?
    ensures Attempted(c, s, w).receipt.Some? && Attempted(c, s, w).row.id == s.row.id
  {}

  /** Whether some other handoff of the pane waits for its turn to be bound and has lost its message. */
  predicate Spoiled(f: Fleet, id: Id)
    requires id in f
  {
    exists j :: j in f && j != id && f[j].row.pane == f[id].row.pane && Missing(f[j])
  }

  /** Some handoff of the pane waits for its turn to be bound and has lost its message. */
  predicate Blocked(f: Fleet, pane: Pane) {
    exists j :: j in f && f[j].row.pane == pane && Missing(f[j])
  }

  lemma BlockedRaises(f: Fleet, order: seq<Id>, pane: Pane)
    requires Distinct(order) && (forall i :: i in order <==> i in f)
    ensures BindAll(f, order, pane).1 <==> Blocked(f, pane)
  {
    RaisesExactly(f, order, pane, |order|);
    if j :| j in f && f[j].row.pane == pane && Missing(f[j]) {
      var i :| 0 <= i < |order| && order[i] == j;
      assert Stops(f, order, pane, i);
    }
    if !Clear(f, order, pane, |order|) {
      var i :| 0 <= i < |order| && Stops(f, order, pane, i);
      assert order[i] in f && Missing(f[order[i]]);
    }
  }

  /** The process lives through the call. */
  predicate Lives(w: World) {
    w.survives.None? && w.binding.None?
  }

  /** Where the binding leaves the sender of a confirmed submit, in whatever fleet it finds, turns observed
      and messages deleted since the submit included: `undeliverable` if and only if some handoff of the
      pane is without its message, this one counted in; otherwise as it was, or `started`. */
  lemma BindingEnds(g: Fleet, order: seq<Id>, id: Id, w: World)
    requires id in g && g[id].control.Binding? && Lives(w)
    requires Distinct(order) && (forall i :: i in order <==> i in g)
    ensures var (h, e) := AfterBinding(g, order, id, w);
            && e == Settled && id in h && h[id].control.Idle? && h[id].submits == g[id].submits
            && h[id].row.state == if Blocked(g, g[id].row.pane) then Undeliverable
                                  else if Bindable(g[id]) then Started else g[id].row.state
  {
    BlockedRaises(g, order, g[id].row.pane);
    RaisesExactly(g, order, g[id].row.pane, |order|);
    var k :| 0 <= k < |order| && order[k] == id;
    BindsUpToMissing(g, order, g[id].row.pane, |order|, k);
    BoundKeepsControl(g, order, g[id].row.pane, |order|, id);
  }

  /** Exactly when a submit that was confirmed does not end as `sent` or `started`: another handoff
      of the pane waits for its turn to be bound and its message is gone. */
  lemma ConfirmedEnds(c: Config, f: Fleet, order: seq<Id>, id: Id, restart: bool, w: World)
    requires id in f && f[id].control.Idle? && !w.taskFinished
    requires Attempts(c, f[id].row, w) && Verdict(w) == Sent && Lives(w)
    requires Distinct(order) && (forall i :: i in order <==> i in f)
    ensures var (h, e) := AfterDeliver(c, f, order, id, restart, w);
            && e == Settled && id in h && h[id].control.Idle?
            && h[id].submits == f[id].submits + 1
            && (h[id].row.state == Undeliverable <==> Spoiled(f, id))
            && (h[id].row.state != Undeliverable ==> h[id].row.state == Sent || h[id].row.state == Started)
  {
    var t := Attempted(c, f[id], w);
    AttemptSpendsOnce(c, f[id], w);
    ConfirmedKeepsReceipt(c, f[id], w);
    var g := f[id := t];
    assert forall j :: j in f && j != id ==> g[j] == f[j];
    assert t.row.pane == f[id].row.pane && !Missing(t);
    assert Blocked(g, t.row.pane) <==> Spoiled(f, id);
    BindingEnds(g, order, id, w);
    DeliverIsAttempt(c, f, order, id, restart, w);
  }

  lemma DeliverIsAttempt(c: Config, f: Fleet, order: seq<Id>, id: Id, restart: bool, w: World)
    requires id in f && f[id].control.Idle? && !w.taskFinished
    requires Attempts(c, f[id].row, w) && Verdict(w) == Sent && Lives(w)
    ensures AfterDeliver(c, f, order, id, restart, w) == AfterBinding(f[id := Attempted(c, f[id], w)], order, id, w)
  {
    AttemptSpendsOnce(c, f[id], w);
  }

  /** Where a call that lives leaves the sender, and that the pane can be bound then. */
  lemma DeliveredRests(c: Config, f: Fleet, id: Id, restart: bool, w: World)
    requires id in f && PaneFree(f, f[id].row.pane)
    ensures !Dies(c, f[id], restart, w) ==>
              var t := Delivered(c, f[id], restart, w);
              && t.row.pane == f[id].row.pane && PaneBinds(f[id := t], t.row.pane)
              && (t.row.state == Sent ==> (t.control.Binding? <==> f[id].row.state == Pending))
  {
    DeliveredFacts(c, f[id], restart, w);
    var s := f[id];
    if s.row.state == Pending && !w.taskFinished {
      if Attempts(c, s.row, w) { AttemptSpendsOnce(c, s, w); } else { DeclineNeverTypes(c, s, w); }
    }
  }

  function Observed(s: Slot, seen: Turn): Slot {
    s.(row := s.row.(observed := Some(seen)))
  }

  /** The turn names a handoff of the pane that is in flight or sent, and began after its attempt. */
  predicate Answers(f: Fleet, pane: Pane, seen: Turn) {
    var id := seen.handoffId;
    && id != "" && id in f && f[id].row.pane == pane && f[id].row.id == id
    && (f[id].row.state == Sending || f[id].row.state == Sent)
    && f[id].row.attemptAt.Some? && f[id].row.attemptAt.value <= seen.startedAt
  }

  /** A fleet after a producer turn was shown to it: a first turn is kept, a later one is not. */
  function Seen(f: Fleet, pane: Pane, seen: Turn): Fleet {
    if Answers(f, pane, seen) && f[seen.handoffId].row.observed.None?
    then f[seen.handoffId := Observed(f[seen.handoffId], seen)] else f
  }

  /** The fleet after one `observe_turn`: its writing half follows its reading half at once. */
  function AfterTurn(f: Fleet, order: seq<Id>, pane: Pane, seen: Turn, lockFree: bool, dies: Option<nat>)
    : (Fleet, Ending)
  {
    var g := Seen(f, pane, seen);
    if lockFree && seen.handoffId != "" then Bindings(g, order, pane, dies) else (g, Settled)
  }

  class NextJobs {
    const config: Config
    var handoffs: map<Id, Row>
    /** The ids of the journal, oldest first. */
    var order: seq<Id>
    var receipts: map<Id, Receipt>
    ghost var fleet: Fleet
    ghost var log: seq<Event>

    /** The durable tables hold what the run of the protocol says. */
    ghost predicate Durable()
      reads this
    {
      && Legal(config, map[], log) && Run(config, map[], log) == fleet
      && handoffs == Rows(fleet) && receipts == Receipts(fleet)
      && Distinct(order) && (forall id :: id in order <==> id in fleet)
    }

    /** And that run is one the protocol's promises are about. */
    ghost predicate Valid()
      reads this
    {
      Durable() && Benign(config, map[], log)
    }

    constructor (config: Config)
      ensures Valid() && this.config == config && handoffs == map[] && order == [] && log == []
    {
      this.config := config;
      handoffs, order, receipts, fleet, log := map[], [], map[], map[], [];
    }

    /** Every handoff satisfies the protocol's invariant, whatever methods were called: at most one
        submit, at most `maxAttempts` reservations, and the rest of it. */
    lemma KeepsInv()
      requires Valid()
      ensures FleetInv(config, fleet)
      ensures forall id :: id in fleet ==> fleet[id].submits <= 1 && fleet[id].row.attempt <= config.maxAttempts
    {
      RunKeepsInv(config, map[], log);
    }

    ghost method Log(e: Event)
      requires Legal(config, map[], log) && Run(config, map[], log) == fleet && Can(config, fleet, e)
      modifies this`fleet, this`log
      ensures Legal(config, map[], log) && Run(config, map[], log) == fleet
      ensures log == old(log) + [e] && fleet == Do(config, old(fleet), e)
      ensures old(Benign(config, map[], log)) && HarmlessEvent(config, old(fleet), e) ==> Benign(config, map[], log)
    {
      Append(config, map[], log, e);
      if Benign(config, map[], log) && HarmlessEvent(config, fleet, e) {
        AppendBenign(config, map[], log, e);
      }
      fleet, log := Do(config, fleet, e), log + [e];
    }

    /** A step of one handoff in the log. */
    ghost method Step(id: Id, f: Fleet, was: Slot, a: Action)
      requires Legal(config, map[], log) && Run(config, map[], log) == fleet && Benign(config, map[], log)
      requires id in f && fleet == f[id := was] && Can(config, fleet, At(id, a)) && !a.DeleteReceipt?
      modifies this`fleet, this`log
      ensures Legal(config, map[], log) && Run(config, map[], log) == fleet && Benign(config, map[], log)
      ensures old(log) <= log && fleet == f[id := Apply(config, was, a)]
    {
      Log(At(id, a));
      assert f[id := was][id := Apply(config, was, a)] == f[id := Apply(config, was, a)];
    }

    /** The decision to hand a task over commits the intent before any I/O. */
    method RecordIntent(id: Id, pane: Pane)
      requires Valid() && id !in fleet
      modifies this
      ensures Valid() && log == old(log) + [Create(id, pane)] && fleet == old(fleet)[id := Fresh(id, pane)]
      ensures order == old(order) + [id]
    {
      ghost var g := fleet[id := Fresh(id, pane)];
      assert Rows(g) == handoffs[id := Fresh(id, pane).row] && Receipts(g) == receipts;
      handoffs := handoffs[id := Row(id, pane, Pending, 0, None, None, None, None)];
      order := order + [id];
      Log(Create(id, pane));
    }

    /** `update_next_job`: one atomic append to the journal. */
    method UpdateNextJob(id: Id, row: Row, ghost f: Fleet, ghost was: Slot, ghost a: Action)
      requires Valid() && id in f && fleet == f[id := was] && Can(config, fleet, At(id, a)) && !a.DeleteReceipt?
      requires Apply(config, was, a).row == row && Apply(config, was, a).receipt == was.receipt
      modifies this`handoffs, this`fleet, this`log
      ensures Valid() && old(log) <= log && order == old(order) && fleet == f[id := Apply(config, was, a)]
    {
      ghost var t := Apply(config, was, a);
      TablesOfRow(f, id, was, t);
      handoffs := handoffs[id := row];
      Step(id, f, was, a);
    }

    /** `update_next_job` with `expected`: nothing is written when the row has moved on since. */
    method UpdateExpected(id: Id, state: State, attempt: nat, row: Row, ghost f: Fleet, ghost was: Slot,
                          ghost a: Action)
      returns (done: bool)
      requires Valid() && id in f && fleet == f[id := was]
      requires was.row.state == state && was.row.attempt == attempt ==>
                 && Can(config, fleet, At(id, a)) && !a.DeleteReceipt?
                 && Apply(config, was, a).row == row && Apply(config, was, a).receipt == was.receipt
      modifies this`handoffs, this`fleet, this`log
      ensures Valid() && old(log) <= log && order == old(order)
      ensures done == (was.row.state == state && was.row.attempt == attempt)
      ensures fleet == if done then f[id := Apply(config, was, a)] else old(fleet)
      ensures !done ==> log == old(log)
    {
      done := handoffs[id].state == state && handoffs[id].attempt == attempt;
      if done {
        UpdateNextJob(id, row, f, was, a);
      }
    }

    /** `record_notify`: an UPDATE of the receipt columns, no effect when the row is missing. */
    method RecordNotify(id: Id, notice: Notice, attempt: Option<nat>, now: Time, ghost f: Fleet, ghost was: Slot,
                        ghost a: Action)
      requires Valid() && id in f && fleet == f[id := was] && Can(config, fleet, At(id, a)) && !a.DeleteReceipt?
      requires Apply(config, was, a).row == was.row
      requires Apply(config, was, a).receipt == Noted(was.receipt, notice, attempt, now)
      modifies this
      ensures Valid() && old(log) <= log && order == old(order) && fleet == f[id := Apply(config, was, a)]
    {
      ghost var t := Apply(config, was, a);
      Step(id, f, was, a);
      TablesOfNoted(f, id, was, t, notice, attempt, now);
      receipts := NotedTable(receipts, id, notice, attempt, now);
    }

    /** `ensure_next_job`: INSERT OR IGNORE. */
    method EnsureNextJob(id: Id, ghost f: Fleet, ghost was: Slot, ghost a: Action)
      requires Valid() && id in f && fleet == f[id := was] && Can(config, fleet, At(id, a)) && !a.DeleteReceipt?
      requires Apply(config, was, a).row == was.row
      requires Apply(config, was, a).receipt == Ensured(was.receipt)
      modifies this
      ensures Valid() && old(log) <= log && order == old(order) && fleet == f[id := Apply(config, was, a)]
    {
      Step(id, f, was, a);
      TablesOfEnsured(f, id, was, Apply(config, was, a));
      if id !in receipts {
        receipts := receipts[id := Receipt(Unset, None, 0.0)];
      }
    }

    /** A step of the sender that writes nothing durable: a decision, or the terminal submit. */
    method Advance(ghost id: Id, ghost f: Fleet, ghost was: Slot, ghost a: Action)
      requires Valid() && id in f && fleet == f[id := was] && Can(config, fleet, At(id, a)) && !a.DeleteReceipt?
      requires Apply(config, was, a).row == was.row
      requires Apply(config, was, a).receipt == was.receipt
      modifies this`fleet, this`log
      ensures Valid() && old(log) <= log && order == old(order) && fleet == f[id := Apply(config, was, a)]
    {
      TablesOfSame(f, id, was, Apply(config, was, a));
      Step(id, f, was, a);
    }

    method Die()
      requires Valid()
      modifies this`fleet, this`log
      ensures Valid() && old(log) <= log && order == old(order) && fleet == Halted(old(fleet))
    {
      Log(Crash);
    }

    /** Write the receipt, then the journal; die before either if told to. */
    method Close(id: Id, notice: Notice, next: Option<State>, at: Time, now: Time, survives: Option<nat>,
                 ghost f: Fleet, ghost was: Slot)
      returns (e: Ending)
      requires Valid() && id in f && fleet == f[id := was] && was.control == Notifying(notice, next, at)
      modifies this
      ensures Valid() && old(log) <= log && order == old(order)
      ensures e == if Ends(survives) then Died else Settled
      ensures fleet == Left(f[id := Closed(was, now, survives)], e)
    {
      if survives == Some(0) {
        Die();
        return Died;
      }
      RecordNotify(id, notice, None, now, f, was, Notify(now));
      if survives == Some(1) {
        Die();
        return Died;
      }
      UpdateNextJob(id, Journalled(handoffs[id], next, at), f, Apply(config, was, Notify(now)), Write);
      e := Settled;
    }

    /** One handoff of `bind_turn`: the receipt is looked up only for a candidate, and the lookup
        raises when the message is gone. */
    method BindOne(id: Id) returns (raised: bool)
      requires Valid() && id in fleet && PaneBinds(fleet, fleet[id].row.pane)
      modifies this`handoffs, this`fleet, this`log
      ensures Valid() && old(log) <= log && order == old(order)
      ensures raised == Missing(old(fleet)[id])
      ensures fleet == if raised then old(fleet) else old(fleet)[id := Bound(old(fleet)[id])]
    {
      var row := handoffs[id];
      ghost var f, was := fleet, fleet[id];
      assert f[id := was] == f;
      if !Candidate(row) {
        return false;
      }
      if id !in receipts {
        return true;
      }
      if receipts[id].notice == NoticeSent {
        UpdateNextJob(id, row.(state := Started, turn := row.observed), f, was, Bind);
      }
      raised := false;
    }

    method BindRow(n: nat, pane: Pane, ghost f: Fleet) returns (raised: bool)
      requires Valid() && n < |order| && PaneBinds(fleet, pane) && (fleet, false) == BindFirst(f, order, pane, n)
      modifies this`handoffs, this`fleet, this`log
      ensures Valid() && old(log) <= log && order == old(order) && PaneBinds(fleet, pane)
      ensures (fleet, raised) == BindFirst(f, order, pane, n + 1)
    {
      assert order[n] in order;
      raised := false;
      if handoffs[order[n]].pane == pane {
        raised := BindOne(order[n]);
      }
    }

    /** The loop of `bind_turn` over the first rows of the journal; `n` of them are done. */
    method BindRows(pane: Pane, limit: nat) returns (n: nat, raised: bool)
      requires Valid() && PaneBinds(fleet, pane) && limit <= |order|
      modifies this`handoffs, this`fleet, this`log
      ensures Valid() && old(log) <= log && order == old(order)
      ensures n <= limit && (fleet, raised) == BindFirst(old(fleet), order, pane, n) && (raised || n == limit)
    {
      ghost var f := fleet;
      n, raised := 0, false;
      while n < limit && !raised
        invariant n <= limit <= |order|
        invariant Valid() && old(log) <= log && order == old(order) && PaneBinds(fleet, pane)
        invariant (fleet, raised) == BindFirst(f, order, pane, n)
      {
        raised := BindRow(n, pane, f);
        n := n + 1;
      }
    }

    /** `bind_turn`: the confirmed deliveries of the pane whose producer turn was observed become
        `started`, in the order of the journal, up to the first whose message is missing. */
    method BindTurn(pane: Pane, dies: Option<nat>) returns (e: Ending)
      requires Valid() && PaneBinds(fleet, pane)
      modifies this`handoffs, this`fleet, this`log
      ensures Valid() && old(log) <= log && order == old(order)
      ensures (fleet, e) == Bindings(old(fleet), order, pane, dies)
    {
      ghost var f := fleet;
      var n, raised := BindRows(pane, if dies.Some? && dies.value <= |order| then dies.value else |order|);
      BindingsAfter(f, order, pane, dies, n);
      if !raised && dies == Some(n) {
        Die();
        return Died;
      }
      e := if raised then Ending.Raised else Settled;
    }

    /** The first half of an attempt: reserve it in the journal, put the message in the inbox
        and stamp the receipt with the attempt number, in this order. */
    method Prepare(id: Id, w: World, ghost f: Fleet, ghost was: Slot) returns (e: Ending)
      requires Valid() && id in f && fleet == f[id := was] && PaneFree(fleet, was.row.pane)
      requires was.control.Idle? && Attempts(config, was.row, w)
      modifies this
      ensures Valid() && old(log) <= log && order == old(order)
      ensures e == if DiesPreparing(w) then Died else Settled
      ensures fleet == Left(f[id := Prepared(config, was, w)], e)
    {
      if w.survives == Some(0) {
        Die();
        return Died;
      }
      var row := handoffs[id];
      var reserved := UpdateExpected(id, row.state, row.attempt,
                                     row.(state := Sending, attempt := row.attempt + 1, attemptAt := Some(w.now)),
                                     f, was, Reserve(w.now));
      if w.survives == Some(1) {
        Die();
        return Died;
      }
      e := PrepareInbox(id, w, f, Apply(config, was, Reserve(w.now)));
    }

    method PrepareInbox(id: Id, w: World, ghost f: Fleet, ghost was: Slot) returns (e: Ending)
      requires Valid() && id in f && fleet == f[id := was] && was.control.Reserved?
      requires w.survives != Some(0) && w.survives != Some(1)
      modifies this
      ensures Valid() && old(log) <= log && order == old(order)
      ensures e == if DiesPreparing(w) then Died else Settled
      ensures fleet == Left(f[id := PreparedInbox(config, was, w)], e)
    {
      if w.pausedAtMaterialise {
        Advance(id, f, was, Pause);
        return Settled;
      }
      EnsureNextJob(id, f, was, Materialise);
      if w.survives == Some(2) {
        Die();
        return Died;
      }
      ghost var s2 := Apply(config, was, Materialise);
      if w.recipientChanged {
        Advance(id, f, s2, Fail);
        return Settled;
      }
      e := StampReceipt(id, w, f, s2);
    }

    method StampReceipt(id: Id, w: World, ghost f: Fleet, ghost was: Slot) returns (e: Ending)
      requires Valid() && id in f && fleet == f[id := was] && was.control.Materialised?
      modifies this
      ensures Valid() && old(log) <= log && order == old(order)
      ensures e == if w.survives == Some(3) then Died else Settled
      ensures fleet == Left(f[id := Apply(config, was, Stamp(w.now))], e)
    {
      RecordNotify(id, Queued, Some(handoffs[id].attempt), w.now, f, was, Stamp(w.now));
      if w.survives == Some(3) {
        Die();
        return Died;
      }
      e := Settled;
    }

    /** The second half: one guarded submit, and what came of it. */
    method Transmit(id: Id, w: World, ghost f: Fleet, ghost was: Slot) returns (e: Ending)
      requires Valid() && id in f && fleet == f[id := was] && was.control.Stamped?
      modifies this
      ensures Valid() && old(log) <= log && order == old(order)
      ensures e == if w.survives == Some(4) && Reaches(w) then Died else Settled
      ensures fleet == Left(f[id := Transmitted(config, was, w)], e)
    {
      if w.pausedBeforeSubmit || w.transport.Held? {
        Advance(id, f, was, Pause);
        return Settled;
      }
      ghost var submit := Submit(Typing(w.transport), w.transport.Confirmed?);
      Advance(id, f, was, submit);
      if w.survives == Some(4) {
        Die();
        return Died;
      }
      ghost var s1 := Apply(config, was, submit);
      if w.transport.Raised? {
        Advance(id, f, s1, Fail);
        return Settled;
      }
      RecordNotify(id, if w.transport.Confirmed? then NoticeSent else NoticeFailed, None, w.finishedAt, f, s1,
                   NoteOutcome(w.finishedAt));
      e := Settled;
    }

    /** An attempt from its reservation to its last write. */
    method AttemptDelivery(id: Id, w: World, ghost f: Fleet, ghost was: Slot) returns (e: Ending)
      requires Valid() && id in f && fleet == f[id := was] && PaneFree(fleet, was.row.pane)
      requires was.control.Idle? && Attempts(config, was.row, w)
      modifies this
      ensures Valid() && old(log) <= log && order == old(order)
      ensures e == if DiesAttempting(w) then Died else Settled
      ensures fleet == Left(f[id := Attempted(config, was, w)], e)
    {
      e := Prepare(id, w, f, was);
      if e == Died { return; }
      ghost var p := Prepared(config, was, w);
      if w.pausedAtMaterialise || w.recipientChanged {
        e := Abandon(id, w, f, p);
      } else {
        e := Dispatch(id, w, f, p);
      }
    }

    method Abandon(id: Id, w: World, ghost f: Fleet, ghost was: Slot) returns (e: Ending)
      requires Valid() && id in f && fleet == f[id := was] && (w.pausedAtMaterialise || w.recipientChanged)
      requires was.control == if w.pausedAtMaterialise then Notifying(Queued, Some(Pending), 0.0)
                              else Notifying(NoticeUndeliverable, Some(Undeliverable), 0.0)
      modifies this
      ensures Valid() && old(log) <= log && order == old(order)
      ensures e == if Ends(After(w.survives, Acts(w))) then Died else Settled
      ensures fleet == Left(f[id := Closed(was, w.now, After(w.survives, Acts(w)))], e)
    {
      if w.pausedAtMaterialise {
        e := Close(id, Queued, Some(Pending), 0.0, w.now, After(w.survives, 1), f, was);
      } else {
        e := Close(id, NoticeUndeliverable, Some(Undeliverable), 0.0, w.now, After(w.survives, 2), f, was);
      }
    }

    method Dispatch(id: Id, w: World, ghost f: Fleet, ghost was: Slot) returns (e: Ending)
      requires Valid() && id in f && fleet == f[id := was] && was.control.Stamped?
      requires !w.pausedAtMaterialise && !w.recipientChanged && (w.survives.Some? ==> w.survives.value > 3)
      modifies this
      ensures Valid() && old(log) <= log && order == old(order)
      ensures e == if DiesAttempting(w) then Died else Settled
      ensures fleet == Left(f[id := Dispatched(config, was, w)], e)
    {
      TransmittedFacts(config, was, w);
      e := Transmit(id, w, f, was);
      if e == Died { return; }
      e := Conclude(id, w, f, Transmitted(config, was, w));
    }

    method Conclude(id: Id, w: World, ghost f: Fleet, ghost was: Slot) returns (e: Ending)
      requires Valid() && id in f && fleet == f[id := was] && was.control == Conclusion(w)
      requires !w.pausedAtMaterialise && !w.recipientChanged
      modifies this
      ensures Valid() && old(log) <= log && order == old(order)
      ensures e == if Ends(After(w.survives, Acts(w))) then Died else Settled
      ensures fleet == Left(f[id := Closed(was, w.now, After(w.survives, Acts(w)))], e)
    {
      if w.pausedBeforeSubmit || w.transport.Held? {
        e := Close(id, Queued, Some(Pending), 0.0, w.now, After(w.survives, 3), f, was);
      } else if w.transport.Raised? {
        e := Close(id, NoticeUndeliverable, Some(Undeliverable), 0.0, w.now, After(w.survives, 4), f, was);
      } else if w.transport.Confirmed? {
        e := Close(id, NoticeSent, Some(Sent), w.finishedAt, w.now, After(w.survives, 5), f, was);
      } else {
        e := Close(id, NoticeUndeliverable, Some(Undeliverable), 0.0, w.now, After(w.survives, 5), f, was);
      }
    }

    /** A journal write with no receipt before it. */
    method WriteOnly(id: Id, target: Option<State>, at: Time, survives: Option<nat>, ghost f: Fleet, ghost was: Slot)
      returns (e: Ending)
      requires Valid() && id in f && fleet == f[id := was] && was.control == Writing(target, at, false)
      modifies this
      ensures Valid() && old(log) <= log && order == old(order)
      ensures e == if survives == Some(0) then Died else Settled
      ensures fleet == Left(f[id := Written(was, survives)], e)
    {
      if survives == Some(0) {
        Die();
        return Died;
      }
      UpdateNextJob(id, Journalled(handoffs[id], target, at), f, was, Write);
      e := Settled;
    }

    /** Restart found the attempt `sending`: the receipt alone decides, and nothing is replayed
        that may have been typed. */
    method RecoverDelivery(id: Id, w: World, ghost f: Fleet, ghost was: Slot) returns (e: Ending)
      requires Valid() && id in f && fleet == f[id := was] && PaneFree(fleet, was.row.pane)
      requires was.control.Idle? && was.row.state == Sending
      modifies this
      ensures Valid() && old(log) <= log && order == old(order)
      ensures e == if DiesRecovering(was, w) then Died else Settled
      ensures fleet == Left(f[id := RecoveredTo(config, was, w)], e)
    {
      Advance(id, f, was, Recover);
      ghost var r := Apply(config, was, Recover);
      assert id in receipts <==> was.receipt.Some?;
      if id !in receipts || receipts[id].attempt != Some(handoffs[id].attempt) {
        e := WriteOnly(id, Some(Pending), 0.0, w.survives, f, r);
      } else if receipts[id].notice == NoticeSent {
        e := WriteOnly(id, Some(Sent), receipts[id].at, w.survives, f, r);
      } else {
        e := Close(id, NoticeUndeliverable, Some(Undeliverable), 0.0, w.now, w.survives, f, r);
      }
    }

    /** A pending handoff that is not attempted now: held, waiting, given up or rejected. */
    method Decline(id: Id, w: World, ghost f: Fleet, ghost was: Slot) returns (e: Ending)
      requires Valid() && id in f && fleet == f[id := was] && PaneFree(fleet, was.row.pane)
      requires was.control.Idle? && was.row.state == Pending && !w.taskFinished && !Attempts(config, was.row, w)
      modifies this
      ensures Valid() && old(log) <= log && order == old(order)
      ensures e == if DiesDeclining(config, was, w) then Died else Settled
      ensures fleet == Left(f[id := Declined(config, was, w)], e)
    {
      if w.gateClosed {
        if !w.reasonChanged { return Settled; }
        Advance(id, f, was, Hold);
        e := Close(id, Queued, None, 0.0, w.now, w.survives, f, Apply(config, was, Hold));
        return;
      }
      if w.turnActive { return Settled; }
      var plan := RetryPlan(config, handoffs[id].attempt, handoffs[id].attemptAt, w.now);
      if plan.Wait? { return Settled; }
      ghost var a := if plan.Stop? then GiveUp(w.now) else RejectClaim(w.now);
      Advance(id, f, was, a);
      e := Close(id, NoticeUndeliverable, Some(Undeliverable), 0.0, w.now, w.survives, f, Apply(config, was, a));
    }

    /** `deliver` up to its last durable write. */
    method DeliverOnly(id: Id, restart: bool, w: World, ghost f: Fleet, ghost was: Slot) returns (e: Ending)
      requires Valid() && id in f && fleet == f[id := was] && PaneFree(fleet, was.row.pane) && was.control.Idle?
      modifies this
      ensures Valid() && old(log) <= log && order == old(order)
      ensures e == if Dies(config, was, restart, w) then Died else Settled
      ensures fleet == Left(f[id := Delivered(config, was, restart, w)], e)
    {
      var row := handoffs[id];
      e := Settled;
      if Terminal(row.state) {
        return;
      }
      if w.taskFinished {
        Advance(id, f, was, FinishTask);
        e := WriteOnly(id, Some(Cancelled), 0.0, w.survives, f, Apply(config, was, FinishTask));
        return;
      }
      if row.state == Sending {
        if restart && !w.ownerAlive {
          e := RecoverDelivery(id, w, f, was);
        }
      } else if row.state == Pending {
        if Attempts(config, row, w) {
          e := AttemptDelivery(id, w, f, was);
        } else {
          e := Decline(id, w, f, was);
        }
      }
    }

    /** `deliver`: one look at one handoff under its pane lock, then the turns of the pane. */
    method Deliver(id: Id, restart: bool, w: World) returns (e: Ending)
      requires Valid() && id in fleet && PaneFree(fleet, fleet[id].row.pane)
      modifies this
      ensures Valid() && old(log) <= log && order == old(order)
      ensures (fleet, e) == AfterDeliver(config, old(fleet), order, id, restart, w)
    {
      ghost var f, was := fleet, fleet[id];
      assert f[id := was] == f;
      var attempted := handoffs[id].state == Pending;
      DeliveredRests(config, f, id, restart, w);
      e := DeliverOnly(id, restart, w, f, was);
      if e == Settled && handoffs[id].state == Sent {
        e := BindAfter(id, attempted, w);
      }
    }

    /** The `bind_turn` that ends a delivery, and what a missing message makes of it. */
    method BindAfter(id: Id, guarded: bool, w: World) returns (e: Ending)
      requires Valid() && id in fleet && PaneBinds(fleet, fleet[id].row.pane) && guarded == fleet[id].control.Binding?
      modifies this
      ensures Valid() && old(log) <= log && order == old(order)
      ensures (fleet, e) == AfterBinding(old(fleet), order, id, w)
    {
      BoundKeepsControl(fleet, order, fleet[id].row.pane, |order|, id);
      e := BindTurn(handoffs[id].pane, w.binding);
      if guarded && e != Died {
        e := Leave(id, e == Ending.Raised, w);
      }
    }

    /** The end of a confirmed attempt: the lock is given back, or the exception is caught. */
    method Leave(id: Id, raised: bool, w: World) returns (e: Ending)
      requires Valid() && id in fleet && fleet[id].control.Binding?
      modifies this
      ensures Valid() && old(log) <= log && order == old(order)
      ensures (fleet, e) == Unlocked(old(fleet), id, raised, w)
    {
      ghost var h, was := fleet, fleet[id];
      assert h[id := was] == h;
      if raised {
        Advance(id, h, was, Fail);
        e := Close(id, NoticeUndeliverable, Some(Undeliverable), 0.0, w.now, After(w.survives, 7), h,
                   Apply(config, was, Fail));
      } else {
        Advance(id, h, was, Release);
        e := Settled;
      }
    }

    /** The reading half of `observe_turn`: the attempt the turn answers. */
    method ReadTurn(pane: Pane, seen: Turn) returns (attempt: Option<nat>)
      requires Valid()
      ensures attempt.Some? <==> Answers(fleet, pane, seen)
      ensures attempt.Some? ==>
                var s := fleet[seen.handoffId];
                attempt.value == s.row.attempt && 1 <= s.row.attempt <= |s.reservedAt|
                  && s.reservedAt[s.row.attempt - 1] <= seen.startedAt
    {
      KeepsInv();
      attempt := None;
      if seen.handoffId != "" && seen.handoffId in handoffs {
        var row := handoffs[seen.handoffId];
        if row.pane == pane && row.id == seen.handoffId && (row.state == Sending || row.state == Sent)
           && row.attemptAt.Some? && row.attemptAt.value <= seen.startedAt
        {
          attempt := Some(row.attempt);
        }
      }
    }

    /** The writing half, a compare-and-set, however late: it stores the turn only while the attempt
        that was read is still the current one and no turn is stored. */
    method StoreTurn(seen: Turn, attempt: nat) returns (stored: bool)
      requires Valid() && seen.handoffId in fleet
      requires 1 <= attempt <= |fleet[seen.handoffId].reservedAt|
               && fleet[seen.handoffId].reservedAt[attempt - 1] <= seen.startedAt
      modifies this
      ensures Valid() && old(log) <= log && order == old(order)
      ensures stored == (old(fleet)[seen.handoffId].row.attempt == attempt
                         && old(fleet)[seen.handoffId].row.observed.None?)
      ensures fleet == if stored then old(fleet)[seen.handoffId := Observed(old(fleet)[seen.handoffId], seen)]
              else old(fleet)
    {
      var id := seen.handoffId;
      ghost var f, was := fleet, fleet[id];
      assert f[id := was] == f;
      KeepsInv();
      var row := handoffs[id];
      stored := row.attempt == attempt && row.observed.None?;
      if stored {
        UpdateNextJob(id, row.(observed := Some(seen)), f, was, Observe(seen));
      }
    }

    /** `inbox_delete` of a handoff's message, by anybody at any time: the protocol's invariant
        survives exactly the deletions that it can bear. */
    method DeleteMessage(id: Id)
      requires Valid() && id in fleet && fleet[id].receipt.Some?
      modifies this
      ensures Durable() && old(log) <= log && order == old(order)
      ensures fleet == old(fleet)[id := Apply(config, old(fleet)[id], DeleteReceipt)]
      ensures Harmless(config, old(fleet)[id], DeleteReceipt) ==> Valid()
    {
      ghost var f, was := fleet, fleet[id];
      assert f[id := was] == f;
      receipts := receipts - {id};
      Log(At(id, DeleteReceipt));
    }

    /** Somebody cancels the intent in the journal. */
    method CancelNextJob(id: Id)
      requires Valid() && id in fleet
      modifies this
      ensures Valid() && old(log) <= log && order == old(order)
      ensures fleet == old(fleet)[id := Apply(config, old(fleet)[id], CancelIntent)]
    {
      ghost var f, was := fleet, fleet[id];
      assert f[id := was] == f;
      UpdateNextJob(id, handoffs[id].(state := Cancelled), f, was, CancelIntent);
    }

    /** `observe_turn`: the first producer turn that names a handoff in flight or sent is kept with
        it; then the pane is bound if nobody is sending. */
    method ObserveTurn(pane: Pane, seen: Turn, lockFree: bool, dies: Option<nat>) returns (e: Ending)
      requires Valid() && (lockFree ==> PaneFree(fleet, pane))
      modifies this
      ensures Valid() && old(log) <= log && order == old(order)
      ensures (fleet, e) == AfterTurn(old(fleet), order, pane, seen, lockFree, dies)
    {
      e := Settled;
      if seen.handoffId == "" {
        return;
      }
      var attempt := ReadTurn(pane, seen);
      if attempt.Some? {
        var stored := StoreTurn(seen, attempt.value);
      }
      if lockFree {
        e := BindTurn(pane, dies);
      }
    }
  }

  /** A look that finds nothing in the way and a transport that confirms, at time 0. */
  function Clean(): World {
    World(false, true, false, false, false, true, 0.0, false, false, false, Confirmed, 0.0, None, None)
  }

  lemma FreshAttempt(c: Config, id: Id, pane: Pane)
    requires c.maxAttempts >= 1
    ensures Attempts(c, Fresh(id, pane).row, Clean())
    ensures var t := Attempted(c, Fresh(id, pane), Clean());
            && t.row == Row(id, pane, Sent, 1, Some(0.0), None, Some(0.0), None)
            && t.control == Binding && t.submits == 1 && t.receipt.Some?
  {}

  /** A new handoff that is alone in its journal is typed once and rests as `sent`. */
  lemma FirstDelivery(c: Config, id: Id, pane: Pane)
    requires c.maxAttempts >= 1
    ensures var (h, e) := AfterDeliver(c, map[id := Fresh(id, pane)], [id], id, false, Clean());
            && e == Settled && h.Keys == {id} && h[id].control.Idle? && h[id].submits == 1 && h[id].receipt.Some?
            && h[id].row == Row(id, pane, Sent, 1, Some(0.0), None, Some(0.0), None)
  {
    var f: Fleet := map[id := Fresh(id, pane)];
    var t := Attempted(c, f[id], Clean());
    FreshAttempt(c, id, pane);
    DeliverIsAttempt(c, f, [id], id, false, Clean());
    hide AfterDeliver, Attempts, Attempted, Delivered;
    assert BindFirst(f[id := t], [id], pane, 0) == (f[id := t], false);
    assert f[id := t][id := t] == f[id := t];
  }

  method DeliverFirst(c: Config, a: Id, pane: Pane) returns (jobs: NextJobs)
    requires c.maxAttempts >= 1
    ensures fresh(jobs) && jobs.Valid() && jobs.config == c && jobs.fleet.Keys == {a} && jobs.order == [a]
    ensures jobs.fleet[a].control.Idle? && jobs.fleet[a].receipt.Some?
    ensures jobs.fleet[a].row == Row(a, pane, Sent, 1, Some(0.0), None, Some(0.0), None)
  {
    jobs := new NextJobs(c);
    assert jobs.fleet == map[];
    jobs.RecordIntent(a, pane);
    FirstDelivery(c, a, pane);
    var e := jobs.Deliver(a, false, Clean());
  }

  /** The turn is observed while another sender holds the pane, and the message is deleted. */
  method LoseMessage(jobs: NextJobs, a: Id, pane: Pane)
    requires jobs.Valid() && jobs.fleet.Keys == {a} && a != ""
    requires jobs.fleet[a].control.Idle? && jobs.fleet[a].receipt.Some?
    requires jobs.fleet[a].row == Row(a, pane, Sent, 1, Some(0.0), None, Some(0.0), None)
    modifies jobs
    ensures jobs.Valid() && jobs.fleet.Keys == {a} && jobs.order == old(jobs.order)
    ensures Missing(jobs.fleet[a]) && jobs.fleet[a].row.pane == pane && jobs.fleet[a].control.Idle?
  {
    var e := jobs.ObserveTurn(pane, Turn("t", 0.0, a), false, None);
    jobs.DeleteMessage(a);
  }

  /** Two tasks on one pane.  The first is delivered, its turn is observed while the pane is busy,
      and its message is deleted, all of which the protocol allows; then the second is typed and
      confirmed, and its journal row says `undeliverable`. */
  method ConfirmedButUndeliverable(c: Config, a: Id, b: Id, pane: Pane) returns (jobs: NextJobs)
    requires c.maxAttempts >= 1 && a != "" && a != b
    ensures fresh(jobs) && jobs.Valid() && b in jobs.fleet
    ensures jobs.fleet[b].submits == 1 && jobs.fleet[b].row.state == Undeliverable
  {
    jobs := DeliverFirst(c, a, pane);
    LoseMessage(jobs, a, pane);
    DeliverSecond(jobs, a, b, pane);
  }

  method DeliverSecond(jobs: NextJobs, a: Id, b: Id, pane: Pane)
    requires jobs.Valid() && jobs.config.maxAttempts >= 1 && jobs.fleet.Keys == {a} && a != b
    requires Missing(jobs.fleet[a]) && jobs.fleet[a].row.pane == pane && jobs.fleet[a].control.Idle?
    modifies jobs
    ensures jobs.Valid() && b in jobs.fleet
    ensures jobs.fleet[b].submits == 1 && jobs.fleet[b].row.state == Undeliverable
  {
    jobs.RecordIntent(b, pane);
    assert jobs.fleet[a].row.pane == pane && Missing(jobs.fleet[a]);
    assert Spoiled(jobs.fleet, b);
    ConfirmedEnds(jobs.config, jobs.fleet, jobs.order, b, false, Clean());
    var e := jobs.Deliver(b, false, Clean());
  }
}
