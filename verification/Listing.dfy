/** Sorted listings of finite sets of names: what `sorted(...)` over a directory or a key set yields. */
module Listing {
  import opened StringOrder

  ghost predicate IsLeast(m: string, s: set<string>) {
    m in s && forall y :: y in s ==> Leq(m, y)
  }

  lemma {:induction false} LeastExists(s: set<string>) returns (m: string)
    requires s != {}
    ensures IsLeast(m, s)
    decreases |s|
  {
    var x :| x in s;
    if s == {x} {
      LeqReflexive(x);
      m := x;
    } else {
      var rest := s - {x};
      assert |rest| < |s| && rest != {};
      var r := LeastExists(rest);
      LeqTotal(x, r);
      m := if Leq(x, r) then x else r;
      forall y | y in s ensures Leq(m, y) {
        if y == x {
          LeqReflexive(x);
        } else if m == x {
          LeqTransitive(x, r, y);
        }
      }
    }
  }

  ghost function Least(s: set<string>): (m: string)
    requires s != {}
    ensures IsLeast(m, s)
  {
    assert exists m :: IsLeast(m, s) by {
      var m := LeastExists(s);
    }
    var m :| IsLeast(m, s);
    m
  }

  lemma LeastUnique(s: set<string>, a: string, b: string)
    requires IsLeast(a, s) && IsLeast(b, s)
    ensures a == b
  {
    LeqAntisymmetric(a, b);
  }

  ghost function Sorted(s: set<string>): seq<string> {
    if s == {} then [] else [Least(s)] + Sorted(s - {Least(s)})
  }

  ghost predicate Ascending(l: seq<string>) {
    forall i, j :: 0 <= i < j < |l| ==> Leq(l[i], l[j]) && l[i] != l[j]
  }

  lemma {:induction false} SortedMembers(s: set<string>)
    ensures forall x :: x in Sorted(s) <==> x in s
    ensures |Sorted(s)| == |s|
  {
    if s != {} {
      var m := Least(s);
      SortedMembers(s - {m});
    }
  }

  lemma {:induction false} SortedAscends(s: set<string>)
    ensures Ascending(Sorted(s))
  {
    if s != {} {
      var m := Least(s);
      var rest := Sorted(s - {m});
      SortedAscends(s - {m});
      SortedMembers(s - {m});
      forall j | 0 <= j < |rest| ensures Leq(m, rest[j]) && m != rest[j] {
        assert rest[j] in rest;
      }
    }
  }

  lemma SortedListsSet(s: set<string>)
    ensures forall x :: x in Sorted(s) <==> x in s
    ensures Ascending(Sorted(s))
    ensures |Sorted(s)| == |s|
  {
    SortedMembers(s);
    SortedAscends(s);
  }

  lemma {:induction false} AscendingIsSorted(l: seq<string>, s: set<string>)
    requires Ascending(l) && forall x :: x in l <==> x in s
    ensures l == Sorted(s)
  {
    if l == [] {
      assert s == {};
    } else {
      assert l[0] in s;
      assert IsLeast(l[0], s) by {
        forall y | y in s ensures Leq(l[0], y) {
          var i :| 0 <= i < |l| && l[i] == y;
          if i == 0 {
            LeqReflexive(y);
          }
        }
      }
      LeastUnique(s, l[0], Least(s));
      forall x ensures x in l[1..] <==> x in s - {l[0]} {
        if x in s - {l[0]} {
          var i :| 0 <= i < |l| && l[i] == x;
          assert l[1..][i - 1] == x;
        }
      }
      AscendingIsSorted(l[1..], s - {l[0]});
    }
  }

  method PickLeast(s: set<string>) returns (m: string)
    requires s != {}
    ensures IsLeast(m, s)
  {
    m :| m in s;
    LeqReflexive(m);
    var todo := s - {m};
    while todo != {}
      invariant m in s && todo <= s
      invariant forall y :: y in s && y !in todo ==> Leq(m, y)
    {
      var x :| x in todo;
      todo := todo - {x};
      LeqTotal(m, x);
      LeqReflexive(x);
      if !Leq(m, x) {
        forall y | y in s && y !in todo ensures Leq(x, y) {
          if y != x {
            LeqTransitive(x, m, y);
          }
        }
        m := x;
      }
    }
  }

  /** Lists a set of names in ascending order. */
  method List(s: set<string>) returns (l: seq<string>)
    ensures l == Sorted(s)
  {
    l := [];
    var todo := s;
    while todo != {}
      invariant todo <= s
      invariant Sorted(s) == l + Sorted(todo)
    {
      var m := PickLeast(todo);
      LeastUnique(todo, m, Least(todo));
      l := l + [m];
      todo := todo - {m};
    }
  }

  /** The findings of a check run over a listing, in order. */
  function Gather<T>(names: seq<string>, check: string -> seq<T>): seq<T> {
    if names == [] then [] else Gather(names[..|names| - 1], check) + check(names[|names| - 1])
  }

  lemma {:induction false} GatherEmpty<T>(names: seq<string>, check: string -> seq<T>)
    ensures Gather(names, check) == [] <==> forall x :: x in names ==> check(x) == []
  {
    if names != [] {
      GatherEmpty(names[..|names| - 1], check);
      assert names == names[..|names| - 1] + [names[|names| - 1]];
    }
  }

  method GatherEach<T>(s: set<string>, check: string -> seq<T>) returns (found: seq<T>)
    ensures found == Gather(Sorted(s), check)
    ensures found == [] <==> forall x :: x in s ==> check(x) == []
  {
    var names := List(s);
    found := [];
    for i := 0 to |names|
      invariant found == Gather(names[..i], check)
    {
      assert names[..i + 1][..i] == names[..i];
      found := found + check(names[i]);
    }
    assert names[..|names|] == names;
    GatherEmpty(names, check);
    SortedListsSet(s);
  }
}
