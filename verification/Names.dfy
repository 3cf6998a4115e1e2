/** Addressable pane names: the agent label, made unique. */
module Names {
  import opened Collections
  import opened Text
  import Decimal

  /** The three places a name may come from; empty means absent. */
  datatype Pane = Pane(tag: string, title: string, id: string)

  function Base(p: Pane): string {
    var b := Strip(if p.tag != "" then p.tag else if p.title != "" then p.title
                   else if p.id != "" then p.id else "terminal");
    if b == "" then "terminal" else b
  }

  /** A label is the first of tag, title and id that is not empty, without the blanks around it, and never
      blank: `terminal` stands in for nothing. */
  lemma BaseExactly(p: Pane, given: string)
    requires if p.tag != "" then given == p.tag else if p.title != "" then given == p.title else given == p.id
    ensures Base(p) == (if forall i :: 0 <= i < |given| ==> IsSpace(given[i]) then "terminal" else Strip(given))
    ensures Base(p) != "" && Trimmed(Base(p))
  {
    StripTrims(given);
    AllBlank(given);
    assert StripLeft("terminal") == "terminal" && StripRight("terminal") == "terminal";
  }

  /** Trimming leaves nothing exactly of a blank text. */
  lemma AllBlank(s: string)
    ensures Strip(s) == "" <==> forall i :: 0 <= i < |s| ==> IsSpace(s[i])
  {
    if forall i :: 0 <= i < |s| ==> IsSpace(s[i]) {
      StripTrims(s);
      if Strip(s) != "" { assert Strip(s)[0] in s; }
    } else {
      var i :| 0 <= i < |s| && !IsSpace(s[i]);
      VisibleStays(s, i);
    }
  }

  lemma {:induction false} VisibleStays(s: string, i: nat)
    requires i < |s| && !IsSpace(s[i])
    ensures Strip(s) != ""
    decreases |s|
  {
    if IsSpace(s[0]) {
      VisibleStays(s[1..], i - 1);
    } else {
      FirstStays(s);
    }
  }

  lemma {:induction false} FirstStays(s: string)
    requires s != "" && !IsSpace(s[0])
    ensures StripRight(s) != ""
    decreases |s|
  {
    if IsSpace(s[|s| - 1]) { FirstStays(s[..|s| - 1]); }
  }

  /** Names in use that are a later numbered variant of `base`. */
  ghost function Later(used: set<string>, base: string, n: nat): set<string> {
    set u | u in used && exists j :: j > n && u == Decimal.Suffixed(base, j)
  }

  lemma LaterShrinks(used: set<string>, base: string, n: nat)
    requires Decimal.Suffixed(base, n + 1) in used
    ensures Later(used, base, n + 1) < Later(used, base, n)
  {
    var u := Decimal.Suffixed(base, n + 1);
    assert u in Later(used, base, n);
    forall j | j > n + 1 ensures u != Decimal.Suffixed(base, j) {
      Decimal.SuffixedIsInjective(base, n + 1, j);
    }
  }

  /** The first number after `n` whose variant of `base` is not in use. */
  ghost function FirstFree(used: set<string>, base: string, n: nat): (k: nat)
    ensures k > n && Decimal.Suffixed(base, k) !in used
    ensures forall j :: n < j < k ==> Decimal.Suffixed(base, j) in used
    decreases Later(used, base, n)
  {
    if Decimal.Suffixed(base, n + 1) !in used then n + 1
    else
      LaterShrinks(used, base, n);
      FirstFree(used, base, n + 1)
  }

  function NamesIn(names: seq<string>): set<string> {
    set x | x in names
  }

  /** How often each base has been counted up so far; 1 before the first collision. */
  function CountOf(counts: map<string, nat>, base: string): nat {
    if base in counts then counts[base] else 1
  }

  /** The name for the next pane, and the counters after choosing it. */
  ghost function Choice(names: seq<string>, counts: map<string, nat>, base: string): (string, map<string, nat>) {
    if base !in names then (base, counts)
    else
      var k := FirstFree(NamesIn(names), base, CountOf(counts, base));
      (Decimal.Suffixed(base, k), counts[base := k])
  }

  /** The names and counters after naming the panes in order. */
  ghost function Named(panes: seq<Pane>): (seq<string>, map<string, nat>)
    decreases |panes|
  {
    if panes == [] then ([], map[])
    else
      var (names, counts) := Named(panes[..|panes| - 1]);
      var (name, after) := Choice(names, counts, Base(panes[|panes| - 1]));
      (names + [name], after)
  }

  /** All variants from 2 to `k`, that one left out, are in use. */
  ghost predicate TakenUpTo(names: seq<string>, base: string, k: nat) {
    forall j: nat :: 2 <= j < k ==> Decimal.Suffixed(base, j) in names
  }

  /** A name no earlier pane has: the pane's own label when that is free, otherwise the first free of its
      variants numbered from 2. */
  ghost predicate Fits(base: string, earlier: seq<string>, name: string) {
    && name !in earlier
    && (if base !in earlier then name == base
        else exists k :: k >= 2 && name == Decimal.Suffixed(base, k) && TakenUpTo(earlier, base, k))
  }

  ghost predicate WellNamed(panes: seq<Pane>, names: seq<string>) {
    && |names| == |panes|
    && forall i :: 0 <= i < |panes| ==> Fits(Base(panes[i]), names[..i], names[i])
  }

  lemma WellNamedStep(panes: seq<Pane>, names: seq<string>, pane: Pane, name: string)
    requires WellNamed(panes, names) && Fits(Base(pane), names, name)
    ensures WellNamed(panes + [pane], names + [name])
  {
    forall i | 0 <= i <= |panes|
      ensures Fits(Base((panes + [pane])[i]), (names + [name])[..i], (names + [name])[i])
    {
      assert (names + [name])[..i] == names[..i];
    }
  }

  /** A counter stands at 1 or more, and behind a name for each number from 2 on up to its own. */
  lemma {:induction false} CountsAreTaken(panes: seq<Pane>, b: string)
    ensures var (names, counts) := Named(panes);
            CountOf(counts, b) >= 1 && TakenUpTo(names, b, CountOf(counts, b) + 1)
    decreases |panes|
  {
    if panes != [] {
      var before := panes[..|panes| - 1];
      CountsAreTaken(before, b);
      hide Choice, CountOf, TakenUpTo;
      var (names, counts) := Named(before);
      CountsStep(names, counts, Base(panes[|panes| - 1]), b);
    }
  }

  lemma CountsStep(names: seq<string>, counts: map<string, nat>, base: string, b: string)
    requires CountOf(counts, b) >= 1 && TakenUpTo(names, b, CountOf(counts, b) + 1)
    ensures var (name, after) := Choice(names, counts, base);
            CountOf(after, b) >= 1 && TakenUpTo(names + [name], b, CountOf(after, b) + 1)
  {
    hide Decimal.Suffixed, Later;
    var (name, after) := Choice(names, counts, base);
    var all := names + [name];
    assert name in all && forall x :: x in names ==> x in all;
    forall j: nat | 2 <= j < CountOf(after, b) + 1 ensures Decimal.Suffixed(b, j) in all {
      if j > CountOf(counts, b) && Decimal.Suffixed(b, j) != name {
        assert Decimal.Suffixed(b, j) in NamesIn(names);
      }
    }
  }

  /** One name for every pane, no name twice, and a name is the pane's own label unless an
      earlier pane already has it; then it is the first numbered variant that none has. */
  lemma {:induction false} NamesAreUnique(panes: seq<Pane>)
    ensures WellNamed(panes, Named(panes).0) && Distinct(Named(panes).0)
    decreases |panes|
  {
    if panes != [] {
      var before, pane := panes[..|panes| - 1], panes[|panes| - 1];
      NamesAreUnique(before);
      var (names, counts) := Named(before);
      CountsAreTaken(before, Base(pane));
      ChoiceFits(names, counts, Base(pane));
      WellNamedStep(before, names, pane, Choice(names, counts, Base(pane)).0);
      assert panes == before + [pane];
    }
  }

  lemma ChoiceFits(names: seq<string>, counts: map<string, nat>, base: string)
    requires CountOf(counts, base) >= 1 && TakenUpTo(names, base, CountOf(counts, base) + 1)
    ensures Fits(base, names, Choice(names, counts, base).0)
  {
    if base in names {
      var k := FirstFree(NamesIn(names), base, CountOf(counts, base));
      assert forall j: nat :: CountOf(counts, base) < j < k ==> Decimal.Suffixed(base, j) in NamesIn(names);
      assert TakenUpTo(names, base, k);
    }
  }

  /** The names of the first panes do not depend on the ones after them. */
  lemma {:induction false} NamesAreStable(panes: seq<Pane>, k: nat)
    requires k <= |panes|
    ensures Named(panes[..k]).0 <= Named(panes).0
    decreases |panes|
  {
    if k < |panes| {
      var before := panes[..|panes| - 1];
      NamesAreStable(before, k);
      assert before[..k] == panes[..k];
      assert Named(before).0 <= Named(panes).0;
    } else {
      assert panes[..k] == panes;
    }
  }

  lemma NamedStep(panes: seq<Pane>, n: nat)
    requires n < |panes|
    ensures var (names, counts) := Named(panes[..n]);
            var (name, after) := Choice(names, counts, Base(panes[n]));
            Named(panes[..n + 1]) == (names + [name], after)
  {
    assert panes[..n + 1][..n] == panes[..n];
  }

  lemma NamesInAdded(names: seq<string>, name: string)
    ensures NamesIn(names + [name]) == NamesIn(names) + {name}
  {
    assert forall x :: x in names + [name] <==> x in names || x == name;
  }

  /** `_unique_names` */
  method UniqueNames(panes: seq<Pane>) returns (named: seq<(string, Pane)>)
    ensures |named| == |panes|
    ensures forall i :: 0 <= i < |panes| ==> named[i].1 == panes[i]
    ensures |Named(panes).0| == |panes| && forall i :: 0 <= i < |panes| ==> named[i].0 == Named(panes).0[i]
  {
    hide Base, Choice;
    var used: set<string> := {};
    var seen: map<string, nat> := map[];
    ghost var names: seq<string> := [];
    named := [];
    for n := 0 to |panes|
      invariant |named| == n && |names| == n
      invariant forall i :: 0 <= i < n ==> named[i] == (names[i], panes[i])
      invariant Named(panes[..n]) == (names, seen) && used == NamesIn(names)
    {
      NamedStep(panes, n);
      var candidate;
      candidate, seen := NameFor(Base(panes[n]), used, seen, names);
      used := used + {candidate};
      NamesInAdded(names, candidate);
      names := names + [candidate];
      named := named + [(candidate, panes[n])];
    }
    assert panes[..|panes|] == panes;
  }

  /** The inner loop: the pane's own label, or counting up until a variant is free. */
  method NameFor(base: string, used: set<string>, counts: map<string, nat>, ghost names: seq<string>)
    returns (candidate: string, seen: map<string, nat>)
    requires used == NamesIn(names)
    ensures (candidate, seen) == Choice(names, counts, base)
  {
    seen, candidate := counts, base;
    ghost var start, first := CountOf(counts, base), true;
    while candidate in used
      invariant first ==> candidate == base && seen == counts
      invariant !first ==> base in used && Counting(used, counts, base, seen, candidate)
      decreases first, if first then {} else Later(used, base, seen[base] - 1)
    {
      if !first { LaterShrinks(used, base, seen[base] - 1); }
      seen := seen[base := CountOf(seen, base) + 1];
      candidate := Decimal.Suffixed(base, seen[base]);
      first := false;
    }
  }

  /** Part of the way through counting: the first free variant is still ahead. */
  ghost predicate Counting(used: set<string>, counts: map<string, nat>, base: string,
                           seen: map<string, nat>, candidate: string)
  {
    var start := CountOf(counts, base);
    && base in seen && seen[base] > start && seen == counts[base := seen[base]]
    && candidate == Decimal.Suffixed(base, seen[base])
    && FirstFree(used, base, start) == FirstFree(used, base, seen[base] - 1)
  }
}
