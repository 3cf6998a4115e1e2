/** When a reviewed head is final: enough distinct lanes accepted it and none asked for a fix. */
module Quorum {
  import opened Collections
  import opened Wrappers

  type Lane = string

  /** A finished review of the head; the lane is absent when nobody was bound to it. */
  datatype Verdict = Verdict(id: nat, lane: Option<Lane>, accept: bool)

  datatype Status = Pending | Success | Failure | Broken

  datatype Outcome = Outcome(final: bool, accepts: set<Lane>, vetoes: set<Lane>)

  function LaneOf(o: Option<Lane>): set<Lane> {
    if o.Some? && o.value != "" then {o.value} else {}
  }

  /** The distinct lanes with this verdict. */
  function Lanes(rows: seq<Verdict>, accept: bool): set<Lane> {
    if rows == [] then {}
    else
      var last := rows[|rows| - 1];
      Lanes(rows[..|rows| - 1], accept) + if last.accept == accept then LaneOf(last.lane) else {}
  }

  /** `_is_final`, counting the deciding lane among the accepting lanes. */
  function Judge(rows: seq<Verdict>, required: nat, decider: Option<Lane>): Outcome {
    var accepts, vetoes := Lanes(rows, true) + LaneOf(decider), Lanes(rows, false);
    Outcome(vetoes == {} && |accepts| >= required, accepts, vetoes)
  }

  function Desired(rows: seq<Verdict>, required: nat): Status {
    var o := Judge(rows, required, None);
    if o.vetoes != {} then Failure else if o.final then Success else Pending
  }

  // ---------------------------------------------------------------- what the count means

  predicate Accepted(rows: seq<Verdict>, lane: Lane) {
    lane != "" && exists i :: 0 <= i < |rows| && rows[i].accept && rows[i].lane == Some(lane)
  }

  predicate Vetoed(rows: seq<Verdict>, lane: Lane) {
    lane != "" && exists i :: 0 <= i < |rows| && !rows[i].accept && rows[i].lane == Some(lane)
  }

  lemma {:induction false} LanesAreVoices(rows: seq<Verdict>)
    ensures forall l :: l in Lanes(rows, true) <==> Accepted(rows, l)
    ensures forall l :: l in Lanes(rows, false) <==> Vetoed(rows, l)
    decreases |rows|
  {
    if rows != [] {
      var before, last := rows[..|rows| - 1], rows[|rows| - 1];
      LanesAreVoices(before);
      forall l ensures Accepted(rows, l) <==> Accepted(before, l) || (last.accept && l in LaneOf(last.lane)) {
        if i :| 0 <= i < |before| && before[i].accept && before[i].lane == Some(l) { assert rows[i] == before[i]; }
      }
      forall l ensures Vetoed(rows, l) <==> Vetoed(before, l) || (!last.accept && l in LaneOf(last.lane)) {
        if i :| 0 <= i < |before| && !before[i].accept && before[i].lane == Some(l) { assert rows[i] == before[i]; }
      }
    }
  }

  /** A head is final exactly when some set of `required` lanes all accepted it (the deciding one
      counted in) and no lane asked for a fix. */
  lemma FinalExactly(rows: seq<Verdict>, required: nat, decider: Option<Lane>)
    ensures Judge(rows, required, decider).final <==>
            && (forall l :: !Vetoed(rows, l))
            && exists lanes: set<Lane> ::
                 |lanes| == required && forall l :: l in lanes ==> Accepted(rows, l) || l in LaneOf(decider)
  {
    LanesAreVoices(rows);
    var accepts := Lanes(rows, true) + LaneOf(decider);
    if |accepts| >= required {
      var some := Subset(accepts, required);
      assert forall l :: l in some ==> Accepted(rows, l) || l in LaneOf(decider);
    }
    if lanes: set<Lane> :| |lanes| == required && forall l :: l in lanes ==> Accepted(rows, l) || l in LaneOf(decider) {
      assert lanes <= accepts;
      SubsetIsSmaller(lanes, accepts);
    }
    if l :| Vetoed(rows, l) { assert l in Lanes(rows, false); }
    if Lanes(rows, false) != {} {
      var l := SomeMember(Lanes(rows, false));
      assert Vetoed(rows, l);
    }
  }

  lemma {:induction false} Subset<T>(s: set<T>, n: nat) returns (t: set<T>)
    requires n <= |s|
    ensures t <= s && |t| == n
    decreases |s|
  {
    if n == |s| {
      t := s;
    } else {
      var x := SomeMember(s);
      t := Subset(s - {x}, n);
    }
  }

  /** The desired status does not depend on the order or the number of times the same lane spoke. */
  lemma DesiredIsOfTheLanes(a: seq<Verdict>, b: seq<Verdict>, required: nat)
    requires forall l :: (Accepted(a, l) <==> Accepted(b, l)) && (Vetoed(a, l) <==> Vetoed(b, l))
    ensures Desired(a, required) == Desired(b, required)
  {
    LanesAreVoices(a);
    LanesAreVoices(b);
    assert Lanes(a, true) == Lanes(b, true) && Lanes(a, false) == Lanes(b, false);
  }

  /** Counting the deciding lane in makes a difference exactly when it is the one still missing. */
  lemma DecidingLaneTips(rows: seq<Verdict>, required: nat, decider: Lane)
    requires decider != ""
    ensures Judge(rows, required, Some(decider)).final && !Judge(rows, required, None).final
            <==> (forall l :: !Vetoed(rows, l)) && |Lanes(rows, true)| + 1 == required && !Accepted(rows, decider)
  {
    LanesAreVoices(rows);
    var accepts := Lanes(rows, true);
    assert Lanes(rows, true) + LaneOf(None) == accepts;
    if decider in accepts {
      assert accepts + {decider} == accepts;
    } else {
      assert |accepts + {decider}| == |accepts| + 1;
    }
    if Lanes(rows, false) != {} {
      var l := SomeMember(Lanes(rows, false));
      assert Vetoed(rows, l);
    }
  }

  // ---------------------------------------------------------------- a standing veto

  /** Once a lane has asked for a fix no later reading finds the head final, whoever decides and
      whatever follows. */
  lemma VetoStands(rows: seq<Verdict>, k: nat, n: nat, required: nat, decider: Option<Lane>)
    requires k < n <= |rows| && !rows[k].accept && LaneOf(rows[k].lane) != {}
    ensures !Judge(rows[..n], required, decider).final && Desired(rows[..n], required) == Failure
  {
    LanesAreVoices(rows[..n]);
    assert rows[..n][k] == rows[k];
    assert Vetoed(rows[..n], rows[k].lane.value);
  }

  lemma OneMoreVerdict(rows: seq<Verdict>, v: Verdict, accept: bool)
    ensures Lanes(rows + [v], accept) == Lanes(rows, accept) + if v.accept == accept then LaneOf(v.lane) else {}
  {
    assert (rows + [v])[..|rows|] == rows;
  }

  /** Exactly when a needs-fix stops a head: when its reviewer is bound to a lane.  Any other one
      leaves the wanted status and the count as they were. */
  lemma NeedsFixStopsExactly(rows: seq<Verdict>, required: nat, v: Verdict)
    requires !v.accept && Desired(rows, required) != Failure
    ensures Desired(rows + [v], required) == Failure <==> LaneOf(v.lane) != {}
    ensures LaneOf(v.lane) == {} ==>
              forall decider :: Judge(rows + [v], required, decider) == Judge(rows, required, decider)
  {
    OneMoreVerdict(rows, v, true);
    OneMoreVerdict(rows, v, false);
    assert Lanes(rows, true) + {} == Lanes(rows, true);
  }

  /** So a head that one lane accepted is final although another reviewer wants a fix. */
  lemma LanelessNeedsFixIsIgnored(lane: Lane)
    requires lane != ""
    ensures var rows := [Verdict(1, Some(lane), true)];
            && Desired(rows, 1) == Success && Desired(rows + [Verdict(2, None, false)], 1) == Success
            && Judge(rows + [Verdict(2, None, false)], 1, None).final
  {
    var rows := [Verdict(1, Some(lane), true)];
    assert [] + rows == rows;
    OneMoreVerdict([], rows[0], true);
    OneMoreVerdict([], rows[0], false);
    assert LaneOf(rows[0].lane) == {lane} && Judge(rows, 1, None).accepts == {lane};
    NeedsFixStopsExactly(rows, 1, Verdict(2, None, false));
  }
}
