/**
 The alias map of the paper registry as a functional graph: every known paper points at the paper
 it is an alias of, and a paper that points at itself is canonical.
 */
module AliasForest {

  type Aliases = map<string, string>

  /** The alias link of a known paper. */
  function Next(c: Aliases, p: string): string
    requires p in c
  {
    c[p]
  }

  ghost predicate Closed(c: Aliases) {
    forall p {:trigger Next(c, p)} :: p in c ==> Next(c, p) in c
  }

  predicate IsRoot(c: Aliases, p: string)
    requires p in c
  {
    Next(c, p) == p
  }

  /** The paper reached after following `n` alias links. */
  ghost function Walk(c: Aliases, p: string, n: nat): string
    requires Closed(c) && p in c
    ensures Walk(c, p, n) in c
    decreases n, p
  {
    if n == 0 then p else Walk(c, Next(c, p), n - 1)
  }

  ghost predicate Reaches(c: Aliases, p: string, q: string)
    requires Closed(c) && p in c
  {
    exists n: nat :: Walk(c, p, n) == q
  }

  ghost predicate ReachesRoot(c: Aliases, p: string)
    requires Closed(c) && p in c
  {
    exists n: nat :: IsRoot(c, Walk(c, p, n))
  }

  ghost predicate Forest(c: Aliases) {
    Closed(c) && forall p {:trigger ReachesRoot(c, p)} :: p in c ==> ReachesRoot(c, p)
  }

  /** The canonical paper: the root that following aliases ends in. */
  ghost function CanonicalOf(c: Aliases, p: string): (r: string)
    requires Closed(c) && p in c && ReachesRoot(c, p)
    ensures r in c && IsRoot(c, r) && Reaches(c, p, r)
  {
    var n: nat :| IsRoot(c, Walk(c, p, n));
    Walk(c, p, n)
  }

  lemma {:induction false} RootStays(c: Aliases, p: string, n: nat)
    requires Closed(c) && p in c && IsRoot(c, p)
    ensures Walk(c, p, n) == p
  {
    if n > 0 {
      RootStays(c, p, n - 1);
    }
  }

  lemma {:induction false} WalkFurther(c: Aliases, p: string, m: nat, n: nat)
    requires Closed(c) && p in c
    ensures Walk(c, p, m + n) == Walk(c, Walk(c, p, m), n)
    decreases m
  {
    if m > 0 {
      WalkFurther(c, Next(c, p), m - 1, n);
    }
  }

  /** A walk meets at most one root. */
  lemma RootUnique(c: Aliases, p: string, m: nat, n: nat)
    requires Closed(c) && p in c
    requires IsRoot(c, Walk(c, p, m)) && IsRoot(c, Walk(c, p, n))
    ensures Walk(c, p, m) == Walk(c, p, n)
  {
    if m <= n {
      WalkFurther(c, p, m, n - m);
      RootStays(c, Walk(c, p, m), n - m);
    } else {
      WalkFurther(c, p, n, m - n);
      RootStays(c, Walk(c, p, n), m - n);
    }
  }

  lemma CanonicalIsTheRootReached(c: Aliases, p: string, r: string)
    requires Closed(c) && p in c && r in c && IsRoot(c, r) && Reaches(c, p, r)
    ensures ReachesRoot(c, p) && CanonicalOf(c, p) == r
  {
    var n: nat :| Walk(c, p, n) == r;
    assert IsRoot(c, Walk(c, p, n));
    var q := CanonicalOf(c, p);
    var m: nat :| Walk(c, p, m) == q;
    RootUnique(c, p, m, n);
  }

  /** The canonical paper of a canonical paper is itself. */
  lemma CanonicalIdempotent(c: Aliases, p: string)
    requires Forest(c) && p in c
    ensures CanonicalOf(c, CanonicalOf(c, p)) == CanonicalOf(c, p)
  {
    var r := CanonicalOf(c, p);
    assert Walk(c, r, 0) == r;
    CanonicalIsTheRootReached(c, r, r);
  }

  lemma RootIsItsOwnCanonical(c: Aliases, p: string)
    requires Forest(c) && p in c
    ensures IsRoot(c, p) <==> CanonicalOf(c, p) == p
  {
    if IsRoot(c, p) {
      assert Walk(c, p, 0) == p;
      CanonicalIsTheRootReached(c, p, p);
    }
  }

  /** A set of non-roots that links never leave cannot reach a root. */
  lemma {:induction false} TrappedWalk(c: Aliases, trap: set<string>, p: string, n: nat)
    requires Closed(c) && trap <= c.Keys && p in trap
    requires forall x {:trigger Next(c, x)} :: x in trap ==> Next(c, x) in trap && Next(c, x) != x
    ensures Walk(c, p, n) in trap
    decreases n
  {
    if n > 0 {
      TrappedWalk(c, trap, Next(c, p), n - 1);
    }
  }

  lemma TrappedNeverReachesRoot(c: Aliases, trap: set<string>, p: string)
    requires Closed(c) && trap <= c.Keys && p in trap
    requires forall x {:trigger Next(c, x)} :: x in trap ==> Next(c, x) in trap && Next(c, x) != x
    ensures !ReachesRoot(c, p)
  {
    forall n: nat ensures !IsRoot(c, Walk(c, p, n)) {
      TrappedWalk(c, trap, p, n);
    }
  }

  lemma StepReachesRoot(c: Aliases, p: string)
    requires Closed(c) && p in c && ReachesRoot(c, Next(c, p))
    ensures ReachesRoot(c, p)
  {
    var n: nat :| IsRoot(c, Walk(c, Next(c, p), n));
    assert Walk(c, p, n + 1) == Walk(c, Next(c, p), n);
  }

  /** Redirecting a set of papers keeps the forest if the redirected papers still reach roots. */
  lemma {:induction false} RedirectReaches(c: Aliases, d: Aliases, moved: set<string>, p: string, n: nat)
    requires Closed(c) && Closed(d) && c.Keys == d.Keys && p in c
    requires forall x {:trigger Next(d, x)} :: x in c && x !in moved ==> Next(d, x) == Next(c, x)
    requires forall x {:trigger ReachesRoot(d, x)} :: x in moved && x in d ==> ReachesRoot(d, x)
    requires IsRoot(c, Walk(c, p, n))
    ensures ReachesRoot(d, p)
    decreases n
  {
    if p in moved {
    } else if n == 0 {
      assert IsRoot(d, Walk(d, p, 0));
    } else {
      RedirectReaches(c, d, moved, Next(c, p), n - 1);
      StepReachesRoot(d, p);
    }
  }

  lemma RedirectKeepsForest(c: Aliases, d: Aliases, moved: set<string>)
    requires Forest(c) && Closed(d) && c.Keys == d.Keys
    requires forall x {:trigger Next(d, x)} :: x in c && x !in moved ==> Next(d, x) == Next(c, x)
    requires forall x {:trigger ReachesRoot(d, x)} :: x in moved && x in d ==> ReachesRoot(d, x)
    ensures Forest(d)
  {
    forall p | p in d ensures ReachesRoot(d, p) {
      assert ReachesRoot(c, p);
      var n: nat :| IsRoot(c, Walk(c, p, n));
      RedirectReaches(c, d, moved, p, n);
    }
  }

  /** Pointing a set of papers at one root keeps the forest: merges never close a cycle. */
  lemma CollapseKeepsForest(c: Aliases, d: Aliases, moved: set<string>, hub: string)
    requires Forest(c) && c.Keys == d.Keys && hub in c
    requires forall x {:trigger Next(d, x)} :: x in c ==> Next(d, x) == if x in moved || x == hub then hub else Next(c, x)
    ensures Forest(d)
  {
    forall x | x in moved + {hub} && x in d ensures ReachesRoot(d, x) {
      assert IsRoot(d, Walk(d, hub, 0));
      StepReachesRoot(d, x);
    }
    RedirectKeepsForest(c, d, moved + {hub});
  }

  /** Making papers canonical again keeps the forest: splits never close a cycle. */
  lemma DetachKeepsForest(c: Aliases, d: Aliases, moved: set<string>)
    requires Forest(c) && c.Keys == d.Keys
    requires forall x {:trigger Next(d, x)} :: x in c ==> Next(d, x) == if x in moved then x else Next(c, x)
    ensures Forest(d)
  {
    forall x | x in moved && x in d ensures ReachesRoot(d, x) {
      assert IsRoot(d, Walk(d, x, 0));
    }
    RedirectKeepsForest(c, d, moved);
  }

  lemma {:induction false} UntouchedWalk(c: Aliases, d: Aliases, subject: string, p: string, n: nat)
    requires Closed(c) && Closed(d) && c.Keys == d.Keys && p in c
    requires forall x {:trigger Next(d, x)} :: x in c && x != subject ==> Next(d, x) == Next(c, x)
    requires !Reaches(c, p, subject)
    ensures Walk(d, p, n) == Walk(c, p, n) != subject
    decreases n
  {
    assert Walk(c, p, 0) != subject;
    if n > 0 {
      forall k: nat ensures Walk(c, Next(c, p), k) != subject {
        assert Walk(c, p, k + 1) == Walk(c, Next(c, p), k);
      }
      UntouchedWalk(c, d, subject, Next(c, p), n - 1);
    }
  }

  /** Aliasing `subject` to `target` closes a cycle exactly when `target` already leads to `subject`. */
  lemma AliasKeepsForest(c: Aliases, d: Aliases, subject: string, target: string)
    requires Forest(c) && c.Keys == d.Keys && subject in c && target in c && subject != target
    requires forall x {:trigger Next(d, x)} :: x in c ==> Next(d, x) == if x == subject then target else Next(c, x)
    ensures Forest(d) <==> !Reaches(c, target, subject)
    ensures !Forest(d) ==> !ReachesRoot(d, subject)
  {
    if Reaches(c, target, subject) {
      var trap := set x | x in c && Reaches(c, x, subject);
      forall x | x in trap ensures Next(d, x) in trap && Next(d, x) != x {
        if x != subject {
          var n: nat :| Walk(c, x, n) == subject;
          assert n > 0;
          assert Walk(c, Next(c, x), n - 1) == subject;
          if Next(c, x) == x {
            RootStays(c, x, n);
          }
        }
      }
      assert Walk(c, subject, 0) == subject;
      TrappedNeverReachesRoot(d, trap, subject);
    } else {
      assert ReachesRoot(c, target);
      var n: nat :| IsRoot(c, Walk(c, target, n));
      UntouchedWalk(c, d, subject, target, n);
      assert Next(d, Walk(d, target, n)) == Next(c, Walk(c, target, n));
      assert IsRoot(d, Walk(d, target, n));
      StepReachesRoot(d, subject);
      RedirectKeepsForest(c, d, {subject});
    }
  }

  /** The cycle search: follows links from one paper until a root or a repetition. */
  method FollowsIntoCycle(c: Aliases, p: string) returns (cyclic: bool)
    requires Closed(c) && p in c
    ensures cyclic <==> !ReachesRoot(c, p)
  {
    var seen: set<string> := {};
    var current := p;
    ghost var n: nat := 0;
    while Next(c, current) != current
      invariant current in c && seen <= c.Keys
      invariant current == Walk(c, p, n)
      invariant p == current || p in seen
      invariant forall x {:trigger Next(c, x)} :: x in seen ==> Next(c, x) != x && (Next(c, x) in seen || Next(c, x) == current)
      decreases |c.Keys - seen|
    {
      if current in seen {
        TrappedNeverReachesRoot(c, seen, p);
        return true;
      }
      assert c.Keys - (seen + {current}) == (c.Keys - seen) - {current};
      seen := seen + {current};
      WalkFurther(c, p, n, 1);
      assert Walk(c, current, 1) == Walk(c, Next(c, current), 0);
      current := Next(c, current);
      n := n + 1;
    }
    return false;
  }

  /** The acyclicity check over every known paper. */
  method RequireAcyclic(c: Aliases) returns (acyclic: bool)
    requires Closed(c)
    ensures acyclic <==> Forest(c)
  {
    var todo := c.Keys;
    while todo != {}
      invariant todo <= c.Keys
      invariant forall p {:trigger ReachesRoot(c, p)} :: p in c && p !in todo ==> ReachesRoot(c, p)
    {
      var p :| p in todo;
      var cyclic := FollowsIntoCycle(c, p);
      if cyclic {
        return false;
      }
      todo := todo - {p};
    }
    return true;
  }

  /**
   Resolution of one paper. On a cycle the search gives up on a paper that is not canonical, so a
   canonical result is returned exactly when one is reachable.
   */
  method Resolve(c: Aliases, p: string) returns (r: string)
    requires Closed(c) && p in c
    ensures r in c && Reaches(c, p, r)
    ensures IsRoot(c, r) <==> ReachesRoot(c, p)
    ensures ReachesRoot(c, p) ==> r == CanonicalOf(c, p)
  {
    var seen: set<string> := {};
    r := p;
    ghost var n: nat := 0;
    while Next(c, r) != r
      invariant r in c && seen <= c.Keys
      invariant r == Walk(c, p, n)
      invariant p == r || p in seen
      invariant forall x {:trigger Next(c, x)} :: x in seen ==> Next(c, x) != x && (Next(c, x) in seen || Next(c, x) == r)
      decreases |c.Keys - seen|
    {
      if r in seen {
        TrappedNeverReachesRoot(c, seen, p);
        return;
      }
      assert c.Keys - (seen + {r}) == (c.Keys - seen) - {r};
      seen := seen + {r};
      WalkFurther(c, p, n, 1);
      assert Walk(c, r, 1) == Walk(c, Next(c, r), 0);
      r := Next(c, r);
      n := n + 1;
    }
    assert IsRoot(c, Walk(c, p, n));
    CanonicalIsTheRootReached(c, p, r);
  }
}
