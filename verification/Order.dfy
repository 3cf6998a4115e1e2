/** Sorting by a rank, a time and a name, as the queues of the fleet are sorted. */
module Order {
  import opened Collections

  datatype Key = Key(rank: int, time: int, name: string)

  /** Lexicographic order of character codes. */
  predicate Less(a: string, b: string)
    decreases |a|
  {
    b != "" && (a == "" || a[0] < b[0] || (a[0] == b[0] && Less(a[1..], b[1..])))
  }

  predicate Before(a: Key, b: Key) {
    a.rank < b.rank || (a.rank == b.rank && (a.time < b.time || (a.time == b.time && Less(a.name, b.name))))
  }

  lemma {:induction false} LessIsTotal(a: string, b: string)
    ensures Less(a, b) || Less(b, a) || a == b
    ensures !(Less(a, b) && Less(b, a)) && !Less(a, a)
    decreases |a|
  {
    if a != "" && b != "" && a[0] == b[0] {
      LessIsTotal(a[1..], b[1..]);
      if a[1..] == b[1..] {
        assert a == [a[0]] + a[1..] && b == [b[0]] + b[1..];
      }
    }
    if a != "" { LessIsTotal(a[1..], a[1..]); }
  }

  lemma {:induction false} LessIsTransitive(a: string, b: string, c: string)
    requires Less(a, b) && Less(b, c)
    ensures Less(a, c)
    decreases |a|
  {
    if a != "" && a[0] == b[0] && b[0] == c[0] {
      LessIsTransitive(a[1..], b[1..], c[1..]);
    }
  }

  lemma BeforeIsTotal(a: Key, b: Key)
    ensures Before(a, b) || Before(b, a) || a == b
    ensures !(Before(a, b) && Before(b, a))
  {
    LessIsTotal(a.name, b.name);
  }

  lemma BeforeIsTransitive(a: Key, b: Key, c: Key)
    requires Before(a, b) && Before(b, c)
    ensures Before(a, c)
  {
    if Less(a.name, b.name) && Less(b.name, c.name) {
      LessIsTransitive(a.name, b.name, c.name);
    }
  }

  /** A text is before another when it is the beginning of it, or smaller at the first place where they
      differ. */
  lemma {:induction false} LessExactly(a: string, b: string, k: nat)
    requires k <= |a| && k <= |b| && a[..k] == b[..k] && (k < |a| && k < |b| ==> a[k] != b[k])
    ensures Less(a, b) <==> (k == |a| && k < |b|) || (k < |a| && k < |b| && a[k] < b[k])
    decreases k
  {
    if k > 0 {
      assert a[..k][0] == b[..k][0];
      assert a[1..][..k - 1] == a[..k][1..] && b[1..][..k - 1] == b[..k][1..];
      LessExactly(a[1..], b[1..], k - 1);
    }
  }

  predicate Sorted(keys: map<string, Key>, s: seq<string>) {
    && (forall i :: 0 <= i < |s| ==> s[i] in keys)
    && (forall i, j :: 0 <= i < j < |s| ==> Before(keys[s[i]], keys[s[j]]))
  }

  /** Every key carries its own name, so no two keys are the same. */
  predicate Named(keys: map<string, Key>) {
    forall n :: n in keys ==> keys[n].name == n
  }

  predicate First(keys: map<string, Key>, left: set<string>, n: string) {
    n in left && n in keys && forall o :: o in left ==> o in keys && (o == n || Before(keys[n], keys[o]))
  }

  lemma {:induction false} FirstExists(keys: map<string, Key>, left: set<string>)
    requires Named(keys) && left <= keys.Keys && left != {}
    ensures exists n :: First(keys, left, n)
    decreases |left|
  {
    var x := SomeMember(left);
    var rest := left - {x};
    assert left == rest + {x};
    if rest == {} {
      assert First(keys, left, x);
    } else {
      FirstExists(keys, rest);
      var y :| First(keys, rest, y);
      BeforeIsTotal(keys[x], keys[y]);
      if Before(keys[y], keys[x]) {
        assert First(keys, left, y);
      } else {
        forall o | o in rest ensures Before(keys[x], keys[o]) {
          if o != y { BeforeIsTransitive(keys[x], keys[y], keys[o]); }
        }
        assert First(keys, left, x);
      }
    }
  }

  method Sort(keys: map<string, Key>) returns (s: seq<string>)
    requires Named(keys)
    ensures Sorted(keys, s) && forall n :: n in s <==> n in keys
  {
    s := [];
    var left := keys.Keys;
    while left != {}
      invariant left <= keys.Keys && Sorted(keys, s)
      invariant forall n :: n in keys <==> n in s || n in left
      invariant forall i, o :: 0 <= i < |s| && o in left ==> Before(keys[s[i]], keys[o])
      invariant forall n :: n in s ==> n in keys
      decreases left
    {
      FirstExists(keys, left);
      var n :| First(keys, left, n);
      s := s + [n];
      left := left - {n};
    }
  }

  /** A sorted list has nobody twice. */
  lemma SortedIsDistinct(keys: map<string, Key>, s: seq<string>)
    requires Sorted(keys, s)
    ensures forall i, j :: 0 <= i < j < |s| ==> s[i] != s[j]
  {
    forall i, j | 0 <= i < j < |s| ensures s[i] != s[j] {
      BeforeIsTotal(keys[s[i]], keys[s[j]]);
    }
  }

  /** The first of some names. */
  function FirstName(names: set<string>): (n: string)
    requires names != {}
    ensures n in names && forall m :: m in names ==> m == n || Less(n, m)
  {
    var keys := map n | n in names :: Key(0, 0, n);
    FirstNameExists(names, keys);
    var n :| First(keys, names, n);
    n
  }

  lemma FirstNameExists(names: set<string>, keys: map<string, Key>)
    requires names != {} && keys == map n | n in names :: Key(0, 0, n)
    ensures exists n :: First(keys, names, n)
    ensures forall n, m :: First(keys, names, n) && First(keys, names, m) ==> n == m
  {
    assert names <= keys.Keys;
    FirstExists(keys, names);
    forall n, m | First(keys, names, n) && First(keys, names, m) ensures n == m {
      BeforeIsTotal(keys[n], keys[m]);
    }
  }
}
