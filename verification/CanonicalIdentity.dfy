/** Equal canonical texts, equal values: what makes the digest of the text an identity. */
module CanonicalIdentity {
  import opened Wrappers
  import opened CanonicalText
  import opened CanonicalJson
  import opened CanonicalDecoding
  import opened Selection
  import Sorting

  function MemberKey(m: Member): Text { m.key }

  /** Every object is a dictionary: distinct keys, all encodable. */
  ghost predicate Dictionary(j: Json) {
    match j
    case Arr(items) => forall i :: 0 <= i < |items| ==> Dictionary(items[i])
    case Obj(members) => DistinctBy(members, MemberKey) && forall i :: 0 <= i < |members| ==> DictionaryMember(members[i])
    case _ => true
  }

  ghost predicate DictionaryMember(m: Member) { Encodable(m.key) && Dictionary(m.value) }

  /** The same value: objects compare as mappings, whatever order their keys were inserted in. */
  ghost predicate Same(a: Json, b: Json)
    decreases a
  {
    match a
    case Arr(items) => b.Arr? && |items| == |b.items| && forall i :: 0 <= i < |items| ==> Same(items[i], b.items[i])
    case Obj(members) =>
      && b.Obj?
      && (forall i {:trigger HasSame(members[i], b.members)} :: 0 <= i < |members| ==> HasSame(members[i], b.members))
      && (forall k {:trigger IsSameOf(b.members[k], members)} :: 0 <= k < |b.members| ==> IsSameOf(b.members[k], members))
    case _ => a == b
  }

  ghost predicate SameMember(m: Member, n: Member)
    decreases m, 0
  {
    m.key == n.key && Same(m.value, n.value)
  }

  ghost predicate HasSame(m: Member, members: seq<Member>)
    decreases m, 1
  {
    exists k :: 0 <= k < |members| && SameMember(m, members[k])
  }

  ghost predicate IsSameOf(n: Member, members: seq<Member>)
    decreases members
  {
    exists i :: 0 <= i < |members| && SameMember(members[i], n)
  }

  // ----- Normal forms of members -----

  lemma {:induction false} NormMembersAt(members: seq<Member>, i: nat)
    requires i < |members|
    ensures |NormMembers(members)| == |members| && NormMembers(members)[i] == NormMember(members[i])
  {
    if i > 0 {
      NormMembersAt(members[1..], i - 1);
    } else if |members| > 1 {
      NormMembersAt(members[1..], 0);
    }
  }

  lemma NormMembersLength(members: seq<Member>)
    ensures |NormMembers(members)| == |members|
  {
    if members != [] {
      NormMembersAt(members, 0);
    }
  }

  lemma {:induction false} NormItemsAt(items: seq<Json>, i: nat)
    requires i < |items|
    ensures |NormItems(items)| == |items| && NormItems(items)[i] == Norm(items[i])
  {
    if i > 0 {
      NormItemsAt(items[1..], i - 1);
    } else if |items| > 1 {
      NormItemsAt(items[1..], 0);
    }
  }

  lemma NormItemsLength(items: seq<Json>)
    ensures |NormItems(items)| == |items|
  {
    if items != [] {
      NormItemsAt(items, 0);
    }
  }

  lemma NormMemberPresent(members: seq<Member>, i: nat)
    requires i < |members|
    ensures NormMember(members[i]) in NormMembers(members)
  {
    NormMembersAt(members, i);
  }

  lemma NormMemberFound(members: seq<Member>, m: Member) returns (i: nat)
    requires m in NormMembers(members)
    ensures i < |members| && NormMember(members[i]) == m
  {
    i :| 0 <= i < |NormMembers(members)| && NormMembers(members)[i] == m;
    NormMembersLength(members);
    NormMembersAt(members, i);
  }

  lemma NormMembersDistinct(members: seq<Member>)
    requires DistinctBy(members, MemberKey)
    ensures DistinctBy(NormMembers(members), MemberKey)
  {
    NormMembersLength(members);
    forall i, j | 0 <= i < j < |members| ensures MemberKey(NormMembers(members)[i]) != MemberKey(NormMembers(members)[j]) {
      NormMembersAt(members, i);
      NormMembersAt(members, j);
      assert MemberKey(members[i]) != MemberKey(members[j]);
    }
  }

  // ----- The key order -----

  lemma KeyOrder()
    ensures Sorting.TotalPreorder(KeyLeq)
  {
    forall x, y ensures KeyLeq(x, y) || KeyLeq(y, x) {
      LexTotal(SortKey(x.key), SortKey(y.key));
    }
    forall x, y, z | KeyLeq(x, y) && KeyLeq(y, z) ensures KeyLeq(x, z) {
      LexTransitive(SortKey(x.key), SortKey(y.key), SortKey(z.key));
    }
  }

  lemma KeysIdentify(members: seq<Member>)
    requires DistinctBy(members, MemberKey) && forall m :: m in members ==> Encodable(m.key)
    ensures Sorting.KeyIdentifies(members, KeyLeq)
  {
    forall x, y | x in members && y in members && KeyLeq(x, y) && KeyLeq(y, x) ensures x == y {
      LexAntisymmetric(SortKey(x.key), SortKey(y.key));
      SortKeyInjective(x.key, y.key);
      KeyIdentifiesElement(members, MemberKey, x, y);
    }
  }

  // ----- Equal normal forms are the same value -----

  lemma {:induction false} NormEqualIsSame(a: Json, b: Json)
    requires Norm(a) == Norm(b)
    ensures Same(a, b)
  {
    match a
    case Arr(items) =>
      NormItemsLength(items);
      NormItemsLength(b.items);
      forall i | 0 <= i < |items| ensures Same(items[i], b.items[i]) {
        NormItemsAt(items, i);
        NormItemsAt(b.items, i);
        NormEqualIsSame(items[i], b.items[i]);
      }
    case Obj(members) =>
      SortedSameMembers(NormMembers(members), NormMembers(b.members));
      forall i | 0 <= i < |members| ensures HasSame(members[i], b.members) {
        NormMemberPresent(members, i);
        var k := NormMemberFound(b.members, NormMember(members[i]));
        MemberNormEqual(members[i], b.members[k]);
      }
      forall k | 0 <= k < |b.members| ensures IsSameOf(b.members[k], members) {
        NormMemberPresent(b.members, k);
        var i := NormMemberFound(members, NormMember(b.members[k]));
        MemberNormEqual(members[i], b.members[k]);
      }
    case _ =>
  }

  lemma {:induction false} MemberNormEqual(m: Member, n: Member)
    requires NormMember(m) == NormMember(n)
    ensures SameMember(m, n)
  {
    NormEqualIsSame(m.value, n.value);
  }

  lemma SortedSameMembers(p: seq<Member>, q: seq<Member>)
    requires Sorting.Sorted(p, KeyLeq) == Sorting.Sorted(q, KeyLeq)
    ensures forall m :: m in p <==> m in q
  {
    Sorting.SortedContents(p, KeyLeq);
    Sorting.SortedContents(q, KeyLeq);
  }

  // ----- The same value has equal normal forms -----

  lemma {:induction false} SameIsNormEqual(a: Json, b: Json)
    requires Dictionary(a) && Dictionary(b) && Same(a, b)
    ensures Norm(a) == Norm(b)
  {
    match a
    case Arr(items) =>
      NormItemsLength(items);
      NormItemsLength(b.items);
      forall i | 0 <= i < |items| ensures NormItems(items)[i] == NormItems(b.items)[i] {
        NormItemsAt(items, i);
        NormItemsAt(b.items, i);
        SameIsNormEqual(items[i], b.items[i]);
      }
      assert NormItems(items) == NormItems(b.items);
    case Obj(members) =>
      forall m | m in NormMembers(members) ensures m in NormMembers(b.members) {
        var i := NormMemberFound(members, m);
        assert HasSame(members[i], b.members);
        var k :| 0 <= k < |b.members| && SameMember(members[i], b.members[k]);
        SameMemberNormEqual(members[i], b.members[k]);
        NormMemberPresent(b.members, k);
      }
      forall m | m in NormMembers(b.members) ensures m in NormMembers(members) {
        var k := NormMemberFound(b.members, m);
        assert IsSameOf(b.members[k], members);
        var i :| 0 <= i < |members| && SameMember(members[i], b.members[k]);
        SameMemberNormEqual(members[i], b.members[k]);
        NormMemberPresent(members, i);
      }
      SortedNormAgree(members, b.members);
    case _ =>
  }

  lemma {:induction false} SameMemberNormEqual(m: Member, n: Member)
    requires DictionaryMember(m) && DictionaryMember(n) && SameMember(m, n)
    ensures NormMember(m) == NormMember(n)
  {
    SameIsNormEqual(m.value, n.value);
  }

  /** Objects with the same members in any order are sorted into the same sequence. */
  lemma SortedNormAgree(x: seq<Member>, y: seq<Member>)
    requires DistinctBy(x, MemberKey) && DistinctBy(y, MemberKey)
    requires forall i :: 0 <= i < |x| ==> DictionaryMember(x[i])
    requires forall m :: m in NormMembers(x) <==> m in NormMembers(y)
    ensures Sorting.Sorted(NormMembers(x), KeyLeq) == Sorting.Sorted(NormMembers(y), KeyLeq)
  {
    var p, q := NormMembers(x), NormMembers(y);
    NormMembersDistinct(x);
    NormMembersDistinct(y);
    SameMembersSameContents(p, q, MemberKey);
    forall m | m in p ensures Encodable(m.key) {
      var i := NormMemberFound(x, m);
    }
    KeysIdentify(p);
    KeyOrder();
    Sorting.SortedOrderIndependent(p, q, KeyLeq);
  }

  // ----- The text is an identity -----

  /** Canonical texts are equal exactly when the values are the same up to the order of object keys. */
  lemma CanonicalTextIsIdentity(a: Json, b: Json)
    requires Dictionary(a) && Dictionary(b)
    ensures Render(a) == Render(b) <==> Same(a, b)
  {
    if Render(a) == Render(b) {
      RenderedDecodes(a);
      RenderedDecodes(b);
      NormEqualIsSame(a, b);
    }
    if Same(a, b) {
      SameIsNormEqual(a, b);
      RenderIsPrint(a);
      RenderIsPrint(b);
    }
  }

  // ----- From the printer's input -----

  function PairKey(p: Pair): Option<Text> { p.key }

  /** Every mapping has distinct keys, as Python's dictionaries do. */
  ghost predicate HasDicts(v: Value) {
    match v
    case ListValue(items) => forall i :: 0 <= i < |items| ==> HasDicts(items[i])
    case MapValue(pairs) => DistinctBy(pairs, PairKey) && forall i :: 0 <= i < |pairs| ==> HasDictsPair(pairs[i])
    case _ => true
  }

  ghost predicate HasDictsPair(p: Pair) { HasDicts(p.value) }

  lemma {:induction false} CanonicalIsDictionary(v: Value)
    requires HasDicts(v) && Canonical(v).Ok?
    ensures Dictionary(Canonical(v).value)
  {
    match v
    case ListValue(items) => ItemsAreDictionaries(items);
    case MapValue(pairs) => PairsAreDictionaries(pairs);
    case _ =>
  }

  lemma {:induction false} ItemsAreDictionaries(items: seq<Value>)
    requires (forall i :: 0 <= i < |items| ==> HasDicts(items[i])) && CanonicalItems(items).Ok?
    ensures forall i :: 0 <= i < |CanonicalItems(items).value| ==> Dictionary(CanonicalItems(items).value[i])
  {
    if items != [] {
      CanonicalIsDictionary(items[0]);
      ItemsAreDictionaries(items[1..]);
    }
  }

  lemma {:induction false} PairIsDictionary(p: Pair)
    requires HasDictsPair(p) && CanonicalPair(p).Ok?
    ensures DictionaryMember(CanonicalPair(p).value) && p.key == Some(CanonicalPair(p).value.key)
  {
    CanonicalIsDictionary(p.value);
  }

  lemma {:induction false} PairsAreDictionaries(pairs: seq<Pair>)
    requires DistinctBy(pairs, PairKey) && CanonicalPairs(pairs).Ok?
    requires forall i :: 0 <= i < |pairs| ==> HasDictsPair(pairs[i])
    ensures var members := CanonicalPairs(pairs).value;
      && |members| == |pairs|
      && (forall i :: 0 <= i < |members| ==> DictionaryMember(members[i]) && pairs[i].key == Some(members[i].key))
      && DistinctBy(members, MemberKey)
  {
    if pairs != [] {
      PairIsDictionary(pairs[0]);
      assert forall i, j :: 0 <= i < j < |pairs[1..]| ==> pairs[1..][i] == pairs[i + 1] && pairs[1..][j] == pairs[j + 1];
      PairsAreDictionaries(pairs[1..]);
      var members := CanonicalPairs(pairs).value;
      assert members[1..] == CanonicalPairs(pairs[1..]).value;
      forall i | 0 <= i < |pairs| ensures DictionaryMember(members[i]) && pairs[i].key == Some(members[i].key) {
        if i > 0 {
          assert members[i] == members[1..][i - 1] && pairs[i] == pairs[1..][i - 1];
        }
      }
      forall i, j | 0 <= i < j < |members| ensures MemberKey(members[i]) != MemberKey(members[j]) {
        assert PairKey(pairs[i]) != PairKey(pairs[j]);
      }
    }
  }

  // ----- Normalisation loses nothing -----

  lemma {:induction false} CanonicalInjective(v: Value, w: Value)
    requires Canonical(v).Ok? && Canonical(v) == Canonical(w)
    ensures v == w
  {
    match v
    case ListValue(items) => ItemsInjective(items, w.items);
    case MapValue(pairs) => PairsInjective(pairs, w.pairs);
    case _ =>
  }

  lemma {:induction false} ItemsInjective(v: seq<Value>, w: seq<Value>)
    requires CanonicalItems(v).Ok? && CanonicalItems(v) == CanonicalItems(w)
    ensures v == w
  {
    if v != [] && w != [] {
      var x, y := CanonicalItems(v).value, CanonicalItems(w).value;
      assert x[0] == y[0] && x[1..] == CanonicalItems(v[1..]).value && y[1..] == CanonicalItems(w[1..]).value;
      CanonicalInjective(v[0], w[0]);
      ItemsInjective(v[1..], w[1..]);
      assert v == [v[0]] + v[1..] && w == [w[0]] + w[1..];
    }
  }

  lemma {:induction false} PairInjective(p: Pair, q: Pair)
    requires CanonicalPair(p).Ok? && CanonicalPair(p) == CanonicalPair(q)
    ensures p == q
  {
    CanonicalInjective(p.value, q.value);
  }

  lemma {:induction false} PairsInjective(v: seq<Pair>, w: seq<Pair>)
    requires CanonicalPairs(v).Ok? && CanonicalPairs(v) == CanonicalPairs(w)
    ensures v == w
  {
    if v != [] && w != [] {
      var x, y := CanonicalPairs(v).value, CanonicalPairs(w).value;
      assert x[0] == y[0] && x[1..] == CanonicalPairs(v[1..]).value && y[1..] == CanonicalPairs(w[1..]).value;
      PairInjective(v[0], w[0]);
      PairsInjective(v[1..], w[1..]);
      assert v == [v[0]] + v[1..] && w == [w[0]] + w[1..];
    }
  }

  /** For accepted inputs the canonical text, hence any injective digest of it, identifies the value. */
  lemma CanonicalJsonIsIdentity(v: Value, w: Value, digest: Text -> string)
    requires HasDicts(v) && HasDicts(w) && Accepts(v) && Accepts(w)
    requires Injective(digest)
    ensures CanonicalForm(v).Ok? && CanonicalForm(w).Ok? && Canonical(v).Ok? && Canonical(w).Ok?
    ensures digest(CanonicalForm(v).value) == digest(CanonicalForm(w).value) <==>
      Same(Canonical(v).value, Canonical(w).value)
  {
    AcceptedExactly(v);
    AcceptedExactly(w);
    CanonicalIsDictionary(v);
    CanonicalIsDictionary(w);
    CanonicalTextIsIdentity(Canonical(v).value, Canonical(w).value);
  }
}
