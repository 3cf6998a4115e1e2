/** Handing things out in order: every thing in turn takes the first taker that fits and is still
    free. */
module Matching {
  import opened Collections
  import opened Wrappers

  /** The first taker that is not used and fits. */
  function FirstFit<T, W(==)>(takers: seq<W>, used: set<W>, t: T, fits: (T, W) -> bool): (r: Option<W>)
    decreases |takers|
  {
    if takers == [] then None
    else
      var before, last := FirstFit(takers[..|takers| - 1], used, t, fits), takers[|takers| - 1];
      if before.Some? then before else if last !in used && fits(t, last) then Some(last) else None
  }

  function Greedy<T(==), W(==)>(things: seq<T>, takers: seq<W>, fits: (T, W) -> bool): map<T, W>
    decreases |things|
  {
    if things == [] then map[]
    else
      var m, t := Greedy(things[..|things| - 1], takers, fits), things[|things| - 1];
      var w := FirstFit(takers, m.Values, t, fits);
      if w.Some? then m[t := w.value] else m
  }

  /** The taker has one of the first `n` things. */
  ghost predicate Taken<T, W>(things: seq<T>, m: map<T, W>, n: nat, w: W)
    requires n <= |things|
  {
    exists i :: 0 <= i < n && things[i] in m && m[things[i]] == w
  }

  /** `w` is the taker at `k` or one placed before it. */
  ghost predicate UpTo<W>(takers: seq<W>, k: nat, w: W)
    requires k < |takers|
  {
    exists j :: 0 <= j <= k && takers[j] == w
  }

  /** No fitting taker is passed over: it has an earlier thing, or the thing has a taker that is
      not placed behind it. */
  ghost predicate InOrder<T, W>(things: seq<T>, takers: seq<W>, fits: (T, W) -> bool, m: map<T, W>) {
    forall i, k :: 0 <= i < |things| && 0 <= k < |takers| && fits(things[i], takers[k]) ==>
      Taken(things, m, i, takers[k]) || (things[i] in m && UpTo(takers, k, m[things[i]]))
  }

  ghost predicate OneToOne<T, W>(m: map<T, W>) {
    forall a, b :: a in m && b in m && m[a] == m[b] ==> a == b
  }

  ghost predicate Matched<T, W>(things: seq<T>, takers: seq<W>, fits: (T, W) -> bool, m: map<T, W>) {
    && OneToOne(m)
    && (forall t :: t in m ==> t in things && m[t] in takers && fits(t, m[t]))
    && InOrder(things, takers, fits, m)
  }

  /** Once somebody fits, the takers behind do not matter. */
  lemma {:induction false} FoundStays<T, W>(takers: seq<W>, k: nat, used: set<W>, t: T, fits: (T, W) -> bool)
    requires k <= |takers| && (k == |takers| || FirstFit(takers[..k], used, t, fits).Some?)
    ensures FirstFit(takers, used, t, fits) == FirstFit(takers[..k], used, t, fits)
    decreases |takers|
  {
    if k == |takers| {
      assert takers[..k] == takers;
    } else {
      assert takers[..|takers| - 1][..k] == takers[..k];
      FoundStays(takers[..|takers| - 1], k, used, t, fits);
    }
  }

  lemma {:induction false} FirstFitIsFirst<T, W>(takers: seq<W>, used: set<W>, t: T, fits: (T, W) -> bool)
    requires Distinct(takers)
    ensures var r := FirstFit(takers, used, t, fits);
            if r.None? then forall k :: 0 <= k < |takers| && fits(t, takers[k]) ==> takers[k] in used
            else exists k :: 0 <= k < |takers| && takers[k] == r.value && r.value !in used && fits(t, r.value)
                             && forall j :: 0 <= j < k && fits(t, takers[j]) ==> takers[j] in used
    decreases |takers|
  {
    if takers != [] {
      var before := takers[..|takers| - 1];
      FirstFitIsFirst(before, used, t, fits);
      var r := FirstFit(before, used, t, fits);
      if r.Some? {
        var k :| 0 <= k < |before| && before[k] == r.value && r.value !in used && fits(t, r.value)
                 && forall j :: 0 <= j < k && fits(t, before[j]) ==> before[j] in used;
        assert takers[k] == r.value;
        assert forall j :: 0 <= j < k ==> takers[j] == before[j];
      }
    }
  }

  lemma TakenStays<T, W>(things: seq<T>, m: map<T, W>, more: map<T, W>, n: nat, i: nat, w: W)
    requires i <= n <= |things| && Taken(things[..n], m, i, w)
    requires forall t :: t in m ==> t in more && more[t] == m[t]
    ensures Taken(things, more, i, w)
  {
    var k :| 0 <= k < i && things[..n][k] in m && m[things[..n][k]] == w;
    assert things[k] in more && more[things[k]] == w;
  }

  /** The greedy pass is a one-to-one matching of fitting pairs in which no taker is passed over. */
  lemma {:induction false} GreedyIsMatched<T, W>(things: seq<T>, takers: seq<W>, fits: (T, W) -> bool)
    requires Distinct(things) && Distinct(takers)
    ensures Matched(things, takers, fits, Greedy(things, takers, fits))
    decreases |things|
  {
    if things != [] {
      var n := |things| - 1;
      var before, t := things[..n], things[n];
      GreedyIsMatched(before, takers, fits);
      var m, all := Greedy(before, takers, fits), Greedy(things, takers, fits);
      FirstFitIsFirst(takers, m.Values, t, fits);
      assert t !in before && t !in m;
      assert things == before + [t];
      GreedyStepInOrder(things, takers, fits, m, all);
    }
  }

  lemma GreedyStepInOrder<T, W>(things: seq<T>, takers: seq<W>, fits: (T, W) -> bool, m: map<T, W>, all: map<T, W>)
    requires Distinct(takers) && things != []
    requires var n := |things| - 1;
             && Matched(things[..n], takers, fits, m) && things[n] !in m
             && (var w := FirstFit(takers, m.Values, things[n], fits);
                 all == if w.Some? then m[things[n] := w.value] else m)
    ensures InOrder(things, takers, fits, all)
  {
    var n := |things| - 1;
    var before, t := things[..n], things[n];
    FirstFitIsFirst(takers, m.Values, t, fits);
    forall i, k | 0 <= i < |things| && 0 <= k < |takers| && fits(things[i], takers[k])
      ensures Taken(things, all, i, takers[k]) || (things[i] in all && UpTo(takers, k, all[things[i]]))
    {
      if i < n {
        assert before[i] == things[i];
        if Taken(before, m, i, takers[k]) {
          TakenStays(things, m, all, n, i, takers[k]);
        }
      } else if takers[k] in m.Values {
        TakenStays(things, m, all, n, n, takers[k]);
      }
    }
  }

  /** A thing that stays over: every taker it fits is used, and by an earlier thing. */
  lemma LeftoversHaveNoTaker<T, W>(things: seq<T>, takers: seq<W>, fits: (T, W) -> bool, m: map<T, W>, i: nat, k: nat)
    requires Distinct(things) && Matched(things, takers, fits, m)
    requires i < |things| && k < |takers| && fits(things[i], takers[k]) && things[i] !in m
    ensures takers[k] in m.Values
    ensures forall j :: 0 <= j < |things| && things[j] in m && m[things[j]] == takers[k] ==> j < i
  {
    assert Taken(things, m, i, takers[k]);
  }

  // ---------------------------------------------------------------- there is only one such matching

  ghost predicate Agree<T, W>(things: seq<T>, a: map<T, W>, b: map<T, W>, n: nat)
    requires n <= |things|
  {
    forall i :: 0 <= i < n ==> (things[i] in a <==> things[i] in b) && (things[i] in a ==> a[things[i]] == b[things[i]])
  }

  lemma NotTakenBefore<T, W>(things: seq<T>, takers: seq<W>, fits: (T, W) -> bool, m: map<T, W>, n: nat)
    requires Distinct(things) && Matched(things, takers, fits, m) && n < |things| && things[n] in m
    ensures !Taken(things, m, n, m[things[n]])
  {}

  ghost predicate NotBehind<W>(takers: seq<W>, v: W, w: W) {
    exists k :: 0 <= k < |takers| && takers[k] == w && UpTo(takers, k, v)
  }

  ghost predicate NoWorse<T, W>(takers: seq<W>, m: map<T, W>, g: map<T, W>, t: T) {
    t in m ==> t in g && NotBehind(takers, g[t], m[t])
  }

  /** What one matching gives a thing, the other gives it too, or something placed before it. */
  lemma NextIsNoWorse<T, W>(things: seq<T>, takers: seq<W>, fits: (T, W) -> bool, m: map<T, W>, g: map<T, W>, n: nat)
    requires Distinct(things) && Matched(things, takers, fits, m) && InOrder(things, takers, fits, g)
    requires n < |things| && Agree(things, m, g, n)
    ensures NoWorse(takers, m, g, things[n])
  {
    if things[n] in m {
      var k :| 0 <= k < |takers| && takers[k] == m[things[n]];
      NotTakenBefore(things, takers, fits, m, n);
      assert Taken(things, g, n, takers[k]) ==> Taken(things, m, n, takers[k]);
    }
  }

  lemma NoWorseIsSame<T, W>(takers: seq<W>, m: map<T, W>, g: map<T, W>, t: T)
    requires Distinct(takers) && NoWorse(takers, m, g, t) && NoWorse(takers, g, m, t)
    ensures (t in m <==> t in g) && (t in m ==> m[t] == g[t])
  {
    if t in m {
    }
  }

  lemma NextIsSame<T, W>(things: seq<T>, takers: seq<W>, fits: (T, W) -> bool, m: map<T, W>, g: map<T, W>, n: nat)
    requires Distinct(things) && Distinct(takers) && Matched(things, takers, fits, m)
             && Matched(things, takers, fits, g)
    requires n < |things| && Agree(things, m, g, n)
    ensures (things[n] in m <==> things[n] in g) && (things[n] in m ==> m[things[n]] == g[things[n]])
  {
    NextIsNoWorse(things, takers, fits, m, g, n);
    NextIsNoWorse(things, takers, fits, g, m, n);
    NoWorseIsSame(takers, m, g, things[n]);
  }

  lemma AgreeNext<T, W>(things: seq<T>, a: map<T, W>, b: map<T, W>, n: nat)
    requires n < |things| && Agree(things, a, b, n)
    requires (things[n] in a <==> things[n] in b) && (things[n] in a ==> a[things[n]] == b[things[n]])
    ensures Agree(things, a, b, n + 1)
  {}

  lemma {:induction false} MatchedAgree<T, W>(things: seq<T>, takers: seq<W>, fits: (T, W) -> bool, m: map<T, W>,
                                              g: map<T, W>, n: nat)
    requires Distinct(things) && Distinct(takers) && Matched(things, takers, fits, m)
             && Matched(things, takers, fits, g)
    requires n <= |things|
    ensures Agree(things, m, g, n)
    decreases n
  {
    if n > 0 {
      MatchedAgree(things, takers, fits, m, g, n - 1);
      NextIsSame(things, takers, fits, m, g, n - 1);
      AgreeNext(things, m, g, n - 1);
    }
  }

  /** Whatever passes nobody over is the greedy pass. */
  lemma OnlyGreedyIsMatched<T, W>(things: seq<T>, takers: seq<W>, fits: (T, W) -> bool, m: map<T, W>)
    requires Distinct(things) && Distinct(takers) && Matched(things, takers, fits, m)
    ensures m == Greedy(things, takers, fits)
  {
    GreedyIsMatched(things, takers, fits);
    MatchedAgree(things, takers, fits, m, Greedy(things, takers, fits), |things|);
  }
}
