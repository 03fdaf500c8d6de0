/** A partial predecessor map: each task that has a predecessor names exactly one. */
module LineageGraph {
  import opened Wrappers

  type Predecessors = map<string, string>

  /** The ancestor after `n` predecessor links, if the walk gets that far. */
  ghost function Walk(m: Predecessors, t: string, n: nat): Option<string>
    decreases n, t
  {
    if n == 0 then Some(t)
    else if t in m then Walk(m, m[t], n - 1)
    else None
  }

  /** The walk from `t` leaves the map. */
  ghost predicate Ends(m: Predecessors, t: string) {
    exists n: nat :: Walk(m, t, n).None?
  }

  ghost predicate Acyclic(m: Predecessors) {
    forall t {:trigger Ends(m, t)} :: t in m ==> Ends(m, t)
  }

  ghost predicate InjectiveMap(m: Predecessors) {
    forall a, b :: a in m && b in m && m[a] == m[b] ==> a == b
  }

  lemma {:induction false} WalkOn(m: Predecessors, t: string, i: nat, j: nat)
    ensures Walk(m, t, i + j) == if Walk(m, t, i).None? then None else Walk(m, Walk(m, t, i).value, j)
    decreases i
  {
    if i > 0 && t in m {
      WalkOn(m, m[t], i - 1, j);
    }
  }

  lemma WalkOne(m: Predecessors, t: string, n: nat)
    requires Walk(m, t, n).Some?
    ensures Walk(m, t, n + 1) == if Walk(m, t, n).value in m then Some(m[Walk(m, t, n).value]) else None
  {
    WalkOn(m, t, n, 1);
    var u := Walk(m, t, n).value;
    if u in m {
      assert Walk(m, u, 1) == Walk(m, m[u], 0);
    }
  }

  lemma {:induction false} TrappedWalk(m: Predecessors, trap: set<string>, t: string, n: nat)
    requires t in trap && forall x :: x in trap ==> x in m && m[x] in trap
    ensures Walk(m, t, n).Some?
    decreases n
  {
    if n > 0 {
      TrappedWalk(m, trap, m[t], n - 1);
    }
  }

  lemma TrappedNeverEnds(m: Predecessors, trap: set<string>, t: string)
    requires t in trap && forall x :: x in trap ==> x in m && m[x] in trap
    ensures !Ends(m, t)
  {
    forall n: nat ensures Walk(m, t, n).Some? {
      TrappedWalk(m, trap, t, n);
    }
  }

  /** The search along predecessors stops, and reports exactly the tasks that lead into a cycle. */
  method LeadsIntoCycle(m: Predecessors, t: string) returns (cyclic: bool)
    ensures cyclic <==> !Ends(m, t)
  {
    var seen: set<string> := {};
    var current := t;
    ghost var n: nat := 0;
    while current in m
      invariant seen <= m.Keys
      invariant Walk(m, t, n) == Some(current)
      invariant current == t || t in seen
      invariant forall x :: x in seen ==> x in m && (m[x] in seen || m[x] == current)
      decreases |m.Keys - seen|
    {
      if current in seen {
        TrappedNeverEnds(m, seen, t);
        return true;
      }
      assert m.Keys - (seen + {current}) == (m.Keys - seen) - {current};
      seen := seen + {current};
      WalkOne(m, t, n);
      current := m[current];
      n := n + 1;
    }
    WalkOne(m, t, n);
    return false;
  }

  /** Under an injective map two tasks with a common ancestor lie on one line. */
  lemma {:induction false} CommonAncestorComparable(m: Predecessors, a: string, b: string, i: nat, j: nat)
    requires InjectiveMap(m)
    requires Walk(m, a, i).Some? && Walk(m, a, i) == Walk(m, b, j)
    ensures i >= j ==> Walk(m, a, i - j) == Some(b)
    ensures j >= i ==> Walk(m, b, j - i) == Some(a)
    decreases i + j
  {
    if i > 0 && j > 0 {
      WalkOn(m, a, i - 1, 1);
      WalkOn(m, b, j - 1, 1);
      var p, q := Walk(m, a, i - 1).value, Walk(m, b, j - 1).value;
      WalkOne(m, a, i - 1);
      WalkOne(m, b, j - 1);
      assert m[p] == m[q];
      CommonAncestorComparable(m, a, b, i - 1, j - 1);
    }
  }

  /** When no predecessor is live, live tasks with a common ancestor are the same task. */
  lemma LiveTasksAreLast(m: Predecessors, live: set<string>, a: string, b: string, i: nat, j: nat)
    requires InjectiveMap(m) && forall t :: t in m ==> m[t] !in live
    requires a in live && b in live
    requires Walk(m, a, i).Some? && Walk(m, a, i) == Walk(m, b, j)
    ensures a == b
  {
    CommonAncestorComparable(m, a, b, i, j);
    if i > j {
      DescendsFromPredecessor(m, a, i - j);
    } else if j > i {
      DescendsFromPredecessor(m, b, j - i);
    }
  }

  /** Every proper ancestor is some task's predecessor. */
  lemma DescendsFromPredecessor(m: Predecessors, t: string, k: nat)
    requires k > 0 && Walk(m, t, k).Some?
    ensures exists u :: u in m && m[u] == Walk(m, t, k).value
  {
    WalkOn(m, t, k - 1, 1);
    WalkOne(m, t, k - 1);
    assert m[Walk(m, t, k - 1).value] == Walk(m, t, k).value;
  }
}
