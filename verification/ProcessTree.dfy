/** A process and its descendants, from the child-to-parent table. */
module ProcessTree {
  import opened Collections

  type Pid = int

  /** `x` comes to `root` by following exactly `n` parent links. */
  ghost predicate Climbs(ppids: map<Pid, Pid>, root: Pid, x: Pid, n: nat)
    decreases n
  {
    if n == 0 then x == root else x in ppids && Climbs(ppids, root, ppids[x], n - 1)
  }

  /** `x` is `root` or one of its descendants. */
  ghost predicate Descends(ppids: map<Pid, Pid>, root: Pid, x: Pid) {
    exists n: nat :: Climbs(ppids, root, x, n)
  }

  predicate Ascending(s: seq<int>) {
    forall i, j :: 0 <= i < j < |s| ==> s[i] < s[j]
  }

  lemma ClimbsFromChild(ppids: map<Pid, Pid>, root: Pid, x: Pid)
    requires x in ppids && Descends(ppids, root, ppids[x])
    ensures Descends(ppids, root, x)
  {
    var n: nat :| Climbs(ppids, root, ppids[x], n);
    assert Climbs(ppids, root, x, n + 1);
  }

  /** A set closed under children contains everything that climbs to one of its members. */
  lemma {:induction false} ClosedContains(ppids: map<Pid, Pid>, root: Pid, seen: set<Pid>, x: Pid, n: nat)
    requires root in seen && forall c :: c in ppids && ppids[c] in seen ==> c in seen
    requires Climbs(ppids, root, x, n)
    ensures x in seen
    decreases n
  {
    if n > 0 {
      ClosedContains(ppids, root, seen, ppids[x], n - 1);
    }
  }

  /** The children table lists each process under its parent, once. */
  predicate IsChildren(ppids: map<Pid, Pid>, children: map<Pid, seq<Pid>>, done: set<Pid>) {
    && (forall p, c :: p in children && c in children[p] ==> c in done && c in ppids && ppids[c] == p)
    && (forall c :: c in done && c in ppids ==> ppids[c] in children && c in children[ppids[c]])
  }

  method ChildrenOf(ppids: map<Pid, Pid>) returns (children: map<Pid, seq<Pid>>)
    ensures IsChildren(ppids, children, ppids.Keys)
  {
    children := map[];
    var todo := ppids.Keys;
    while todo != {}
      invariant todo <= ppids.Keys
      invariant IsChildren(ppids, children, ppids.Keys - todo)
      decreases todo
    {
      ghost var some := SomeMember(todo);
      var child :| child in todo;
      todo := todo - {child};
      var parent := ppids[child];
      var known := if parent in children then children[parent] else [];
      children := children[parent := known + [child]];
    }
  }

  lemma Spliced(a: seq<int>, x: int, b: seq<int>)
    ensures forall y :: y in a + [x] + b <==> y == x || y in a + b
  {
    forall y | y in a + [x] + b ensures y == x || y in a + b {}
    forall y | y == x || y in a + b ensures y in a + [x] + b {
      assert (a + [x] + b)[|a|] == x;
    }
  }

  method Inserted(r: seq<int>, x: int) returns (q: seq<int>)
    requires Ascending(r) && x !in r
    ensures Ascending(q) && forall y :: y in q <==> y == x || y in r
  {
    var i := 0;
    while i < |r| && r[i] < x
      invariant i <= |r| && forall k :: 0 <= k < i ==> r[k] < x
    {
      i := i + 1;
    }
    assert i < |r| ==> r[i] in r;
    assert r == r[..i] + r[i..];
    Spliced(r[..i], x, r[i..]);
    q := r[..i] + [x] + r[i..];
  }

  method SortedList(s: set<int>) returns (r: seq<int>)
    ensures Ascending(r) && forall x :: x in r <==> x in s
  {
    r := [];
    var todo := s;
    while todo != {}
      invariant todo <= s && Ascending(r)
      invariant forall x :: x in r <==> x in s - todo
      decreases todo
    {
      ghost var some := SomeMember(todo);
      var x :| x in todo;
      todo := todo - {x};
      r := Inserted(r, x);
    }
  }

  /** `tree_of`: exactly the reflexive-transitive closure of the child relation from `pid`,
      ascending and without duplicates, on any table, cyclic ones included. */
  method TreeOf(pid: Pid, ppids: map<Pid, Pid>) returns (members: seq<Pid>)
    ensures Ascending(members)
    ensures forall x :: x in members <==> Descends(ppids, pid, x)
  {
    var children := ChildrenOf(ppids);
    var seen, stack := {}, [pid];
    assert Climbs(ppids, pid, pid, 0);
    while stack != []
      invariant seen <= ppids.Keys + {pid}
      invariant forall x :: x in stack ==> x in ppids.Keys + {pid}
      invariant forall x :: x in seen || x in stack ==> Descends(ppids, pid, x)
      invariant pid in seen || pid in stack
      invariant forall c :: c in ppids && ppids[c] in seen ==> c in seen || c in stack
      decreases ppids.Keys + {pid} - seen, |stack|
    {
      var current := stack[|stack| - 1];
      ghost var below := stack[..|stack| - 1];
      assert forall x :: x in stack ==> x in below || x == current;
      assert current in stack;
      stack := stack[..|stack| - 1];
      if current in seen {
        continue;
      }
      seen := seen + {current};
      if current in children {
        forall x | x in children[current] ensures Descends(ppids, pid, x) {
          ClimbsFromChild(ppids, pid, x);
        }
        stack := stack + children[current];
      }
    }
    forall x | Descends(ppids, pid, x) ensures x in seen {
      var n: nat :| Climbs(ppids, pid, x, n);
      ClosedContains(ppids, pid, seen, x, n);
    }
    members := SortedList(seen);
  }

  /** The tree of a member lies inside the tree, and the whole tree of the root contains its
      own root: the relation the method computes is reflexive and transitive. */
  lemma {:induction false} DescendsIsTransitive(ppids: map<Pid, Pid>, a: Pid, b: Pid, c: Pid, n: nat)
    requires Descends(ppids, a, b) && Climbs(ppids, b, c, n)
    ensures Descends(ppids, a, c)
    decreases n
  {
    if n > 0 {
      DescendsIsTransitive(ppids, a, b, ppids[c], n - 1);
      ClimbsFromChild(ppids, a, c);
    }
  }
}
