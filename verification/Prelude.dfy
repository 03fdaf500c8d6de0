/** Shared vocabulary: optional values, string order, sorting, de-duplication. */
module Wrappers {

  datatype Option<+T> = None | Some(value: T)

  datatype Result<+T, +E> = Ok(value: T) | Err(error: E)

  /** A collision-free digest: equal digests come from equal records. */
  ghost predicate Injective<T(!new), U(!new)>(f: T -> U) {
    forall a: T, b: T :: f(a) == f(b) ==> a == b
  }
}

/** Strings in code-point order, the order Python's `sorted` uses on `str`. */
module StringOrder {

  predicate Leq(a: string, b: string) {
    if a == [] then true
    else if b == [] then false
    else a[0] < b[0] || (a[0] == b[0] && Leq(a[1..], b[1..]))
  }

  lemma {:induction false} LeqReflexive(a: string)
    ensures Leq(a, a)
  {
    if a != [] {
      LeqReflexive(a[1..]);
    }
  }

  lemma {:induction false} LeqTotal(a: string, b: string)
    ensures Leq(a, b) || Leq(b, a)
  {
    if a != [] && b != [] {
      LeqTotal(a[1..], b[1..]);
    }
  }

  lemma {:induction false} LeqAntisymmetric(a: string, b: string)
    requires Leq(a, b) && Leq(b, a)
    ensures a == b
  {
    if a != [] && b != [] {
      LeqAntisymmetric(a[1..], b[1..]);
      assert a == [a[0]] + a[1..] && b == [b[0]] + b[1..];
    }
  }

  lemma {:induction false} LeqTransitive(a: string, b: string, c: string)
    requires Leq(a, b) && Leq(b, c)
    ensures Leq(a, c)
  {
    if a != [] && b != [] && c != [] && a[0] == b[0] && b[0] == c[0] {
      LeqTransitive(a[1..], b[1..], c[1..]);
    }
  }
}

/** Stable sorting by a total preorder, as Python's `sorted` does it. */
module Sorting {

  ghost predicate TotalPreorder<T(!new)>(leq: (T, T) -> bool) {
    && (forall x, y :: leq(x, y) || leq(y, x))
    && (forall x, y, z :: leq(x, y) && leq(y, z) ==> leq(x, z))
  }

  /** Antisymmetric on the elements at hand: the sort key identifies the element. */
  ghost predicate KeyIdentifies<T(!new)>(s: seq<T>, leq: (T, T) -> bool) {
    forall x, y :: x in s && y in s && leq(x, y) && leq(y, x) ==> x == y
  }

  predicate IsSorted<T>(s: seq<T>, leq: (T, T) -> bool) {
    forall i, j :: 0 <= i < j < |s| ==> leq(s[i], s[j])
  }

  /** Inserts before the first element that is not smaller. */
  function Insert<T>(x: T, s: seq<T>, leq: (T, T) -> bool): seq<T> {
    if s == [] then [x]
    else if leq(x, s[0]) then [x] + s
    else [s[0]] + Insert(x, s[1..], leq)
  }

  function Sorted<T>(s: seq<T>, leq: (T, T) -> bool): seq<T> {
    if s == [] then [] else Insert(s[0], Sorted(s[1..], leq), leq)
  }

  lemma {:induction false} InsertContents<T>(x: T, s: seq<T>, leq: (T, T) -> bool)
    ensures multiset(Insert(x, s, leq)) == multiset(s) + multiset{x}
  {
    if s != [] {
      assert s == [s[0]] + s[1..];
      if !leq(x, s[0]) {
        InsertContents(x, s[1..], leq);
      }
    }
  }

  lemma {:induction false} InsertSorted<T(!new)>(x: T, s: seq<T>, leq: (T, T) -> bool)
    requires TotalPreorder(leq) && IsSorted(s, leq)
    ensures IsSorted(Insert(x, s, leq), leq)
  {
    if s != [] {
      if leq(x, s[0]) {
        forall j | 0 <= j < |s| ensures leq(x, s[j]) {
          assert j == 0 || leq(s[0], s[j]);
        }
      } else {
        var rest := Insert(x, s[1..], leq);
        InsertSorted(x, s[1..], leq);
        InsertContents(x, s[1..], leq);
        forall j | 0 <= j < |rest| ensures leq(s[0], rest[j]) {
          assert rest[j] in multiset(rest);
          assert rest[j] == x || rest[j] in s[1..];
        }
      }
    }
  }

  lemma {:induction false} SortedPermutes<T>(s: seq<T>, leq: (T, T) -> bool)
    ensures multiset(Sorted(s, leq)) == multiset(s)
  {
    if s != [] {
      SortedPermutes(s[1..], leq);
      InsertContents(s[0], Sorted(s[1..], leq), leq);
      assert s == [s[0]] + s[1..];
    }
  }

  lemma SameContents<T>(a: seq<T>, b: seq<T>)
    requires multiset(a) == multiset(b)
    ensures |a| == |b|
    ensures forall x :: x in a <==> x in b
  {
    assert |multiset(a)| == |a| && |multiset(b)| == |b|;
    forall x ensures x in a <==> x in b {
      assert x in a <==> x in multiset(a);
      assert x in b <==> x in multiset(b);
    }
  }

  /** Sorting permutes, and orders whenever the key order is a total preorder. */
  lemma SortedContents<T>(s: seq<T>, leq: (T, T) -> bool)
    ensures multiset(Sorted(s, leq)) == multiset(s)
    ensures |Sorted(s, leq)| == |s|
    ensures forall x :: x in Sorted(s, leq) <==> x in s
  {
    SortedPermutes(s, leq);
    SameContents(Sorted(s, leq), s);
  }

  lemma {:induction false} SortedOrders<T(!new)>(s: seq<T>, leq: (T, T) -> bool)
    requires TotalPreorder(leq)
    ensures IsSorted(Sorted(s, leq), leq)
  {
    if s != [] {
      SortedOrders(s[1..], leq);
      InsertSorted(s[0], Sorted(s[1..], leq), leq);
    }
  }

  lemma HeadIsLeast<T>(s: seq<T>, x: T, leq: (T, T) -> bool)
    requires IsSorted(s, leq) && x in s && leq(x, x)
    ensures leq(s[0], x)
  {
    var i :| 0 <= i < |s| && s[i] == x;
  }

  lemma TailContents<T>(s: seq<T>)
    requires s != []
    ensures multiset(s[1..]) == multiset(s) - multiset{s[0]}
  {
    assert s == [s[0]] + s[1..];
  }

  /** Sorted permutations of one another are equal when the key identifies the element. */
  lemma {:induction false} SortedUnique<T(!new)>(a: seq<T>, b: seq<T>, leq: (T, T) -> bool)
    requires IsSorted(a, leq) && IsSorted(b, leq)
    requires forall x :: x in a ==> leq(x, x)
    requires multiset(a) == multiset(b)
    requires KeyIdentifies(a, leq)
    ensures a == b
  {
    assert |multiset(a)| == |multiset(b)|;
    if a != [] {
      assert a[0] in multiset(b) && b[0] in multiset(a);
      HeadIsLeast(a, b[0], leq);
      HeadIsLeast(b, a[0], leq);
      assert a[0] == b[0];
      TailContents(a);
      TailContents(b);
      SortedUnique(a[1..], b[1..], leq);
      assert a == [a[0]] + a[1..] && b == [b[0]] + b[1..];
    }
  }

  /** Sorting forgets the input order when the key identifies the element. */
  lemma SortedOrderIndependent<T(!new)>(s: seq<T>, t: seq<T>, leq: (T, T) -> bool)
    requires TotalPreorder(leq)
    requires multiset(s) == multiset(t)
    requires KeyIdentifies(s, leq)
    ensures Sorted(s, leq) == Sorted(t, leq)
  {
    SortedContents(s, leq);
    SortedContents(t, leq);
    SortedOrders(s, leq);
    SortedOrders(t, leq);
    SortedUnique(Sorted(s, leq), Sorted(t, leq), leq);
  }
}

/** Order-preserving removal of repeated diagnostics. */
module Deduplication {

  function FirstOccurrences<T(==)>(items: seq<T>): seq<T> {
    if items == [] then []
    else
      var init, last := items[..|items| - 1], items[|items| - 1];
      FirstOccurrences(init) + if last in init then [] else [last]
  }

  lemma {:induction false} FirstOccurrencesContents<T>(items: seq<T>)
    ensures forall x :: x in FirstOccurrences(items) <==> x in items
    ensures forall i, j :: 0 <= i < j < |FirstOccurrences(items)| ==>
      FirstOccurrences(items)[i] != FirstOccurrences(items)[j]
    ensures FirstOccurrences(items) == [] <==> items == []
  {
    if items != [] {
      var init, last := items[..|items| - 1], items[|items| - 1];
      FirstOccurrencesContents(init);
      assert items == init + [last];
      if items != [] {
        assert last in items;
      }
    }
  }

  /** Keeps the first report of each fault and drops its repetitions. */
  method Deduplicate<T(==)>(items: seq<T>) returns (result: seq<T>)
    ensures result == FirstOccurrences(items)
  {
    var seen: set<T> := {};
    result := [];
    for i := 0 to |items|
      invariant seen == set x | x in items[..i]
      invariant result == FirstOccurrences(items[..i])
    {
      assert items[..i + 1][..i] == items[..i];
      if items[i] !in seen {
        seen := seen + {items[i]};
        result := result + [items[i]];
      }
    }
    assert items[..|items|] == items;
  }
}

/** Findings gathered part by part. */
module Concatenation {

  function Flatten<T>(parts: seq<seq<T>>, n: nat): seq<T>
    requires n <= |parts|
  {
    if n == 0 then [] else Flatten(parts, n - 1) + parts[n - 1]
  }

  lemma {:induction false} FlattenContents<T>(parts: seq<seq<T>>, n: nat, x: T)
    requires n <= |parts|
    ensures x in Flatten(parts, n) <==> exists k :: 0 <= k < n && x in parts[k]
  {
    if n > 0 {
      FlattenContents(parts, n - 1, x);
    }
  }

  lemma {:induction false} FlattenEmpty<T>(parts: seq<seq<T>>, n: nat)
    requires n <= |parts|
    ensures Flatten(parts, n) == [] <==> forall i :: 0 <= i < n ==> parts[i] == []
  {
    if n > 0 {
      FlattenEmpty(parts, n - 1);
    }
  }
}

/** Order-preserving selection, and sequences whose elements have distinct keys. */
module Selection {

  function Filter<T>(s: seq<T>, keep: T -> bool): seq<T> {
    if s == [] then []
    else
      var last := s[|s| - 1];
      Filter(s[..|s| - 1], keep) + if keep(last) then [last] else []
  }

  lemma {:induction false} FilterContents<T(!new)>(s: seq<T>, keep: T -> bool)
    ensures forall x :: x in Filter(s, keep) <==> x in s && keep(x)
  {
    if s != [] {
      FilterContents(s[..|s| - 1], keep);
      assert s == s[..|s| - 1] + [s[|s| - 1]];
    }
  }

  lemma {:induction false} FilterCount<T(!new)>(s: seq<T>, keep: T -> bool, x: T)
    ensures multiset(Filter(s, keep))[x] == if keep(x) then multiset(s)[x] else 0
  {
    if s != [] {
      FilterCount(s[..|s| - 1], keep, x);
      assert s == s[..|s| - 1] + [s[|s| - 1]];
    }
  }

  lemma FilterPermutes<T(!new)>(a: seq<T>, b: seq<T>, keep: T -> bool)
    requires multiset(a) == multiset(b)
    ensures multiset(Filter(a, keep)) == multiset(Filter(b, keep))
  {
    forall x ensures multiset(Filter(a, keep))[x] == multiset(Filter(b, keep))[x] {
      FilterCount(a, keep, x);
      FilterCount(b, keep, x);
    }
    assert multiset(Filter(a, keep)) == multiset(Filter(b, keep));
  }

  /** No two positions hold elements with the same key. */
  ghost predicate DistinctBy<T, K>(s: seq<T>, key: T -> K) {
    forall i, j :: 0 <= i < j < |s| ==> key(s[i]) != key(s[j])
  }

  lemma {:induction false} FilterDistinct<T(!new), K>(s: seq<T>, keep: T -> bool, key: T -> K)
    requires DistinctBy(s, key)
    ensures DistinctBy(Filter(s, keep), key)
  {
    if s != [] {
      var init, last := s[..|s| - 1], s[|s| - 1];
      FilterDistinct(init, keep, key);
      FilterContents(init, keep);
      forall x | x in Filter(init, keep) ensures key(x) != key(last) {
        assert x in init;
        var k :| 0 <= k < |init| && init[k] == x;
        assert s[k] == x;
      }
    }
  }

  lemma KeyIdentifiesElement<T(!new), K>(s: seq<T>, key: T -> K, x: T, y: T)
    requires DistinctBy(s, key) && x in s && y in s && key(x) == key(y)
    ensures x == y
  {
    var i :| 0 <= i < |s| && s[i] == x;
    var j :| 0 <= j < |s| && s[j] == y;
  }

  lemma {:induction false} DistinctCountsOnce<T(!new), K>(s: seq<T>, key: T -> K, x: T)
    requires DistinctBy(s, key)
    ensures multiset(s)[x] <= 1
  {
    if s != [] {
      var init := s[..|s| - 1];
      assert s == init + [s[|s| - 1]];
      DistinctCountsOnce(init, key, x);
      if x in init {
        var k :| 0 <= k < |init| && init[k] == x;
        assert s[k] == x;
      }
    }
  }

  lemma RepeatedCountsTwice<T(!new)>(s: seq<T>, i: nat, j: nat)
    requires i < j < |s| && s[i] == s[j]
    ensures multiset(s)[s[i]] >= 2
  {
    assert s == s[..j] + [s[j]] + s[j + 1..];
    assert s[i] == s[..j][i];
    assert s[i] in multiset(s[..j]);
  }

  /** Distinctness of keys does not depend on the order. */
  lemma DistinctPermutes<T(!new), K>(a: seq<T>, b: seq<T>, key: T -> K)
    requires DistinctBy(a, key) && multiset(a) == multiset(b)
    ensures DistinctBy(b, key)
  {
    forall i, j | 0 <= i < j < |b| ensures key(b[i]) != key(b[j]) {
      assert b[i] in multiset(a) && b[j] in multiset(a);
      DistinctCountsOnce(a, key, b[i]);
      if b[i] == b[j] {
        RepeatedCountsTwice(b, i, j);
        assert false;
      }
      forall x, y | x in a && y in a && key(x) == key(y) ensures x == y {
        KeyIdentifiesElement(a, key, x, y);
      }
    }
  }

  /** Sequences without repetitions and with the same members are permutations of one another. */
  lemma SameMembersSameContents<T(!new), K>(a: seq<T>, b: seq<T>, key: T -> K)
    requires DistinctBy(a, key) && DistinctBy(b, key)
    requires forall x :: x in a <==> x in b
    ensures multiset(a) == multiset(b)
  {
    forall x ensures multiset(a)[x] == multiset(b)[x] {
      DistinctCountsOnce(a, key, x);
      DistinctCountsOnce(b, key, x);
      assert x in a <==> x in multiset(a);
      assert x in b <==> x in multiset(b);
    }
  }
}
