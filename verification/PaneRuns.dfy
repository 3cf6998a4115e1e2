/** Whole runs of the sender's calls on its fleet, and what a lost message does to a pane. */
module PaneRuns {
  import opened Collections
  import opened Wrappers
  import opened Handoff
  import opened NextJobs

  /** The journal in its order, with everything else there is of each handoff. */
  datatype Book = Book(fleet: Fleet, order: seq<Id>)

  datatype Call =
    | Look(id: Id, restart: bool, w: World)
    | Observing(pane: Pane, seen: Turn, lockFree: bool, dies: Option<nat>)
    | Intent(id: Id, pane: Pane)
    | Cancel(id: Id)
    | Lose(id: Id)

  ghost predicate Sane(b: Book) {
    Distinct(b.order) && forall id :: id in b.order <==> id in b.fleet
  }

  /** What the callers see to: a look has the pane lock. */
  predicate May(b: Book, m: Call) {
    match m
    case Look(id, _, _) => id in b.fleet && PaneFree(b.fleet, b.fleet[id].row.pane)
    case Observing(pane, _, lockFree, _) => lockFree ==> PaneFree(b.fleet, pane)
    case Intent(id, _) => id !in b.fleet
    case Cancel(id) => id in b.fleet
    case Lose(id) => id in b.fleet
  }

  function After(c: Config, b: Book, m: Call): Book
    requires May(b, m)
  {
    match m
    case Look(id, restart, w) => b.(fleet := AfterDeliver(c, b.fleet, b.order, id, restart, w).0)
    case Observing(pane, seen, lockFree, dies) => b.(fleet := AfterTurn(b.fleet, b.order, pane, seen, lockFree, dies).0)
    case Intent(id, pane) => Book(b.fleet[id := Fresh(id, pane)], b.order + [id])
    case Cancel(id) => b.(fleet := b.fleet[id := Apply(c, b.fleet[id], CancelIntent)])
    case Lose(id) => b.(fleet := b.fleet[id := b.fleet[id].(receipt := None)])
  }

  predicate Legal(c: Config, b: Book, ms: seq<Call>)
    decreases |ms|
  {
    ms == [] || (May(b, ms[0]) && Legal(c, After(c, b, ms[0]), ms[1..]))
  }

  function Run(c: Config, b: Book, ms: seq<Call>): Book
    requires Legal(c, b, ms)
    decreases |ms|
  {
    if ms == [] then b else Run(c, After(c, b, ms[0]), ms[1..])
  }

  /** The handoff at place `k` of the journal is of this pane and waits to be bound without its message. */
  predicate Waits(b: Book, pane: Pane, k: nat) {
    Stops(b.fleet, b.order, pane, k)
  }

  /** And so it does before every call of the run. */
  predicate Throughout(c: Config, b: Book, ms: seq<Call>, pane: Pane, k: nat)
    requires Legal(c, b, ms)
    decreases |ms|
  {
    Waits(b, pane, k) && (ms != [] ==> Throughout(c, After(c, b, ms[0]), ms[1..], pane, k))
  }

  /** No handoff of the pane behind place `k` is `started`, but those of `but`. */
  predicate NoneStarted(b: Book, pane: Pane, k: nat, but: set<Id>) {
    forall i :: k < i < |b.order| && b.order[i] in b.fleet && b.order[i] !in but ==>
      b.fleet[b.order[i]].row.pane == pane ==> b.fleet[b.order[i]].row.state != Started
  }

  // ---------------------------------------------------------------- one call

  lemma AfterKeepsSane(c: Config, b: Book, m: Call)
    requires Sane(b) && May(b, m)
    ensures Sane(After(c, b, m)) && b.order <= After(c, b, m).order
  {
    var t := After(c, b, m);
    if m.Intent? {
      assert m.id !in b.order;
      assert t.order[|b.order|] == m.id;
      forall id ensures id in t.order <==> id in t.fleet {
        if id in b.order {
          var i :| 0 <= i < |b.order| && b.order[i] == id;
          assert t.order[i] == id;
        }
      }
    }
  }

  /** Where the message of an earlier handoff is missing, binding writes no later row. */
  lemma BindsNoneBehind(f: Fleet, ids: seq<Id>, pane: Pane, dies: Option<nat>, p: Pane, k: nat, i: nat)
    requires Distinct(ids) && k < i < |ids| && ids[i] in f && f[ids[i]].row.pane == p
    requires Stops(f, ids, p, k)
    ensures Bindings(f, ids, pane, dies).0[ids[i]].row == f[ids[i]].row
  {
    BindsUpToMissing(f, ids, pane, |ids|, i);
    if dies.Some? && dies.value <= |ids| {
      if i < dies.value {
        BindsUpToMissing(f, ids, pane, dies.value, i);
      } else {
        BindLeavesOthers(f, ids, pane, dies.value, ids[i]);
      }
    }
  }

  lemma DeliveredIsNotStarted(c: Config, s: Slot, restart: bool, w: World)
    requires s.control.Idle?
    ensures Delivered(c, s, restart, w).row.state == Started ==> s.row.state == Started
    ensures s.row.state == Sent && !w.taskFinished ==> Delivered(c, s, restart, w) == s
    ensures s.row.state == Sent && w.taskFinished && !Dies(c, s, restart, w) ==>
              Delivered(c, s, restart, w).row.state == Cancelled
  {
    if !Terminal(s.row.state) && !w.taskFinished {
      if s.row.state == Sending {
        RecoveryNeverTypes(c, s, w);
      } else if s.row.state == Pending {
        if Attempts(c, s.row, w) { AttemptSpendsOnce(c, s, w); } else { DeclineNeverTypes(c, s, w); }
      }
    }
  }

  lemma StillWaits(c: Config, b: Book, id: Id, restart: bool, w: World, pane: Pane, k: nat)
    requires May(b, Look(id, restart, w)) && Waits(b, pane, k)
    requires !Dies(c, b.fleet[id], restart, w) && Delivered(c, b.fleet[id], restart, w).row.state == Sent
    ensures Stops(b.fleet[id := Delivered(c, b.fleet[id], restart, w)], b.order, pane, k)
  {
    DeliveredIsNotStarted(c, b.fleet[id], restart, w);
    DeliveredFacts(c, b.fleet[id], restart, w);
    hide Delivered, Dies, Attempts;
  }

  lemma UnlockedStartsNone(h: Fleet, id: Id, raised: bool, w: World, x: Id)
    requires id in h && x in h
    ensures var t := Unlocked(h, id, raised, w).0[x]; t.row.state == Started ==> h[x].row.state == Started
  {}

  /** The binding at the end of a look makes no handoff behind place `k` `started`. */
  lemma BindingStartsNone(b: Book, id: Id, w: World, pane: Pane, k: nat, i: nat)
    requires Distinct(b.order) && id in b.fleet && Waits(b, pane, k)
    requires k < i < |b.order| && b.order[i] in b.fleet
    requires b.fleet[b.order[i]].row.pane == pane && b.fleet[b.order[i]].row.state != Started
    ensures AfterBinding(b.fleet, b.order, id, w).0[b.order[i]].row.state != Started
  {
    BindsNoneBehind(b.fleet, b.order, b.fleet[id].row.pane, w.binding, pane, k, i);
    var (h, e) := Bindings(b.fleet, b.order, b.fleet[id].row.pane, w.binding);
    UnlockedStartsNone(h, id, e == Ending.Raised, w, b.order[i]);
    hide Bindings, Unlocked, Stops;
  }

  /** A look at any handoff, this one included, does not make it `started`. */
  lemma LookStartsNone(c: Config, b: Book, id: Id, restart: bool, w: World, pane: Pane, k: nat, i: nat)
    requires Distinct(b.order) && May(b, Look(id, restart, w)) && Waits(b, pane, k)
    requires k < i < |b.order| && b.order[i] in b.fleet
    requires b.fleet[b.order[i]].row.pane == pane && b.fleet[b.order[i]].row.state != Started
    ensures AfterDeliver(c, b.fleet, b.order, id, restart, w).0[b.order[i]].row.state != Started
  {
    var t := Delivered(c, b.fleet[id], restart, w);
    DeliveredIsNotStarted(c, b.fleet[id], restart, w);
    DeliveredFacts(c, b.fleet[id], restart, w);
    hide Delivered, Dies, Attempts;
    if !Dies(c, b.fleet[id], restart, w) && t.row.state == Sent {
      StillWaits(c, b, id, restart, w, pane, k);
      BindingStartsNone(b.(fleet := b.fleet[id := t]), id, w, pane, k, i);
    }
  }

  lemma CallStartsNone(c: Config, b: Book, m: Call, pane: Pane, k: nat, i: nat)
    requires Sane(b) && May(b, m) && Waits(b, pane, k)
    requires k < i < |b.order| && b.fleet[b.order[i]].row.pane == pane && b.fleet[b.order[i]].row.state != Started
    ensures After(c, b, m).fleet[b.order[i]].row.state != Started
  {
    match m
    case Look(id, restart, w) =>
      assert b.order[i] in b.order;
      LookStartsNone(c, b, id, restart, w, pane, k, i);
    case Observing(p, seen, lockFree, dies) =>
      var g := Seen(b.fleet, p, seen);
      assert Stops(g, b.order, pane, k);
      BindsNoneBehind(g, b.order, p, dies, pane, k, i);
    case Intent(_, _) =>
    case Cancel(_) =>
    case Lose(_) =>
  }

  // ---------------------------------------------------------------- whole runs

  /** While a confirmed handoff whose turn was observed is without its message, no later handoff of
      its pane is ever started, whatever is called meanwhile. */
  lemma {:induction false} BlockedPaneStartsNothing(c: Config, b: Book, ms: seq<Call>, pane: Pane, k: nat, but: set<Id>)
    requires Sane(b) && Legal(c, b, ms) && Throughout(c, b, ms, pane, k) && NoneStarted(b, pane, k, but)
    ensures NoneStarted(Run(c, b, ms), pane, k, but)
    decreases |ms|
  {
    if ms != [] {
      AfterKeepsSane(c, b, ms[0]);
      CallKeepsNoneStarted(c, b, ms[0], pane, k, but);
      BlockedPaneStartsNothing(c, After(c, b, ms[0]), ms[1..], pane, k, but);
    }
  }

  lemma CallKeepsNoneStarted(c: Config, b: Book, m: Call, pane: Pane, k: nat, but: set<Id>)
    requires Sane(b) && May(b, m) && Waits(b, pane, k) && NoneStarted(b, pane, k, but)
    ensures NoneStarted(After(c, b, m), pane, k, but)
  {
    var t := After(c, b, m);
    AfterKeepsSane(c, b, m);
    forall i | k < i < |t.order| && t.order[i] in t.fleet && t.fleet[t.order[i]].row.pane == pane && t.order[i] !in but
      ensures t.fleet[t.order[i]].row.state != Started
    {
      if i < |b.order| {
        assert t.order[i] == b.order[i] && b.order[i] in b.order;
        CallKeepsPane(c, b, m, b.order[i]);
        CallStartsNone(c, b, m, pane, k, i);
      } else {
        assert m.Intent?;
      }
    }
  }

  lemma LookKeepsPane(c: Config, b: Book, a: Id, restart: bool, w: World, id: Id)
    requires May(b, Look(a, restart, w)) && id in b.fleet
    ensures AfterDeliver(c, b.fleet, b.order, a, restart, w).0[id].row.pane == b.fleet[id].row.pane
  {
    DeliveredFacts(c, b.fleet[a], restart, w);
    var g := b.fleet[a := Delivered(c, b.fleet[a], restart, w)];
    BindingsKeepPane(g, b.order, g[a].row.pane, w.binding, id);
    hide Delivered, Dies, Attempts, BindFirst;
  }

  lemma CallKeepsPane(c: Config, b: Book, m: Call, id: Id)
    requires May(b, m) && id in b.fleet
    ensures id in After(c, b, m).fleet && After(c, b, m).fleet[id].row.pane
            == (if m.Intent? && m.id == id then m.pane else b.fleet[id].row.pane)
  {
    match m
    case Look(a, restart, w) => LookKeepsPane(c, b, a, restart, w, id);
    case Observing(p, seen, _, dies) => BindingsKeepPane(Seen(b.fleet, p, seen), b.order, p, dies, id);
    case Intent(_, _) =>
    case Cancel(_) =>
    case Lose(_) =>
  }

  lemma BindingsKeepPane(f: Fleet, ids: seq<Id>, pane: Pane, dies: Option<nat>, id: Id)
    requires id in f
    ensures Bindings(f, ids, pane, dies).0[id].row.pane == f[id].row.pane
  {
    BoundKeepsControl(f, ids, pane, |ids|, id);
    if dies.Some? && dies.value <= |ids| { BoundKeepsControl(f, ids, pane, dies.value, id); }
  }
}
