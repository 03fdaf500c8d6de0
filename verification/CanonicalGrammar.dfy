/** Canonical text against the grammar of JSON (RFC 8259), and normalisation against the value it is given. */
module CanonicalGrammar {
  import opened Wrappers
  import opened CanonicalText
  import opened CanonicalEscapes
  import opened CanonicalJson
  import Sorting

  // ----- Normalisation -----

  /** A normalised value is the value it came from: the same constants, strings, items and pairs, in order. */
  ghost predicate Keeps(v: Value, j: Json)
    decreases j
  {
    match j
    case Null => v == NullValue
    case Bool(b) => v == BoolValue(b)
    case Num(n) => v == IntValue(n) && -9007199254740991 <= n <= 9007199254740991
    case Str(s) => v == StringValue(s)
    case Arr(items) =>
      v.ListValue? && |v.items| == |items| && forall i :: 0 <= i < |items| ==> Keeps(v.items[i], items[i])
    case Obj(members) =>
      && v.MapValue? && |v.pairs| == |members|
      && forall i :: 0 <= i < |members| ==> v.pairs[i].key == Some(members[i].key) && Keeps(v.pairs[i].value, members[i].value)
  }

  /** Normalisation keeps the value. */
  lemma {:induction false} CanonicalKeeps(v: Value)
    requires Canonical(v).Ok?
    ensures Keeps(v, Canonical(v).value)
  {
    match v
    case ListValue(items) => ItemsKept(items);
    case MapValue(pairs) => PairsKept(pairs);
    case _ =>
  }

  lemma {:induction false} ItemsKept(items: seq<Value>)
    requires CanonicalItems(items).Ok?
    ensures var r := CanonicalItems(items).value;
      |r| == |items| && forall i :: 0 <= i < |items| ==> Keeps(items[i], r[i])
  {
    if items != [] {
      CanonicalKeeps(items[0]);
      ItemsKept(items[1..]);
    }
  }

  lemma {:induction false} PairsKept(pairs: seq<Pair>)
    requires CanonicalPairs(pairs).Ok?
    ensures var r := CanonicalPairs(pairs).value;
      && |r| == |pairs|
      && forall i :: 0 <= i < |pairs| ==> pairs[i].key == Some(r[i].key) && Keeps(pairs[i].value, r[i].value)
  {
    if pairs != [] {
      PairKept(pairs[0]);
      PairsKept(pairs[1..]);
    }
  }

  lemma {:induction false} PairKept(p: Pair)
    requires CanonicalPair(p).Ok?
    ensures p.key == Some(CanonicalPair(p).value.key) && Keeps(p.value, CanonicalPair(p).value.value)
  {
    CanonicalKeeps(p.value);
  }

  // ----- Numbers -----

  predicate IsDigit(c: Code) { '0' as int <= c <= '9' as int }

  /** The number a row of decimal digits stands for. */
  function ValueOf(t: Text): int {
    if t == [] then 0 else 10 * ValueOf(t[..|t| - 1]) + (t[|t| - 1] - '0' as int)
  }

  /** Digits without a leading zero, unless there is just one. */
  predicate IsNatural(t: Text, n: int) {
    && t != [] && (forall i :: 0 <= i < |t| ==> IsDigit(t[i]))
    && (|t| > 1 ==> t[0] != '0' as int) && ValueOf(t) == n
  }

  /** An integer: a natural number, or a minus and one other than zero. */
  predicate IsNumber(t: Text, n: int) {
    IsNatural(t, n) || (t != [] && t[0] == '-' as int && n < 0 && IsNatural(t[1..], -n))
  }

  lemma {:induction false} DecimalIsNatural(n: nat)
    ensures IsNatural(Decimal(n), n)
    ensures n > 0 ==> Decimal(n)[0] != '0' as int
  {
    if n >= 10 {
      DecimalIsNatural(n / 10);
      assert Decimal(n)[..|Decimal(n)| - 1] == Decimal(n / 10);
    } else {
      assert Decimal(n)[..0] == [];
    }
  }

  // ----- The grammar -----

  function Codes(s: string): Text { seq(|s|, i requires 0 <= i < |s| => s[i] as int) }

  ghost predicate IsString(t: Text, s: Text) {
    |t| >= 2 && t[0] == '"' as int && t[|t| - 1] == '"' as int && Writes(t[1..|t| - 1], s)
  }

  /** A text between an opening and a closing character. */
  predicate Between(t: Text, open: char, close: char) {
    |t| >= 2 && t[0] == open as int && t[|t| - 1] == close as int
  }

  /** A JSON text, without white space, that stands for a value, its members in the order given. */
  ghost predicate Says(t: Text, j: Json)
    decreases j, 0
  {
    match j
    case Null => t == Codes("null")
    case Bool(b) => t == if b then Codes("true") else Codes("false")
    case Num(n) => IsNumber(t, n)
    case Str(s) => IsString(t, s)
    case Arr(items) => Between(t, '[', ']') && SaysItems(t[1..|t| - 1], items)
    case Obj(members) => Between(t, '{', '}') && SaysMembers(t[1..|t| - 1], members)
  }

  ghost predicate SaysItems(t: Text, items: seq<Json>)
    decreases items, 1
  {
    if items == [] then t == []
    else if |items| == 1 then Says(t, items[0])
    else exists n :: 0 <= n < |t| && t[n] == ',' as int && Says(t[..n], items[0]) && SaysItems(t[n + 1..], items[1..])
  }

  ghost predicate SaysMember(t: Text, m: Member)
    decreases m, 1
  {
    exists n :: 0 <= n < |t| && t[n] == ':' as int && IsString(t[..n], m.key) && Says(t[n + 1..], m.value)
  }

  ghost predicate SaysMembers(t: Text, members: seq<Member>)
    decreases members, 2
  {
    if members == [] then t == []
    else if |members| == 1 then SaysMember(t, members[0])
    else
      exists n :: 0 <= n < |t| && t[n] == ',' as int && SaysMember(t[..n], members[0]) && SaysMembers(t[n + 1..], members[1..])
  }

  lemma QuotedIsString(s: Text)
    ensures IsString(Quoted(s), s)
  {
    EscapeAllWrites(s);
    assert Quoted(s)[1..|Quoted(s)| - 1] == EscapeAll(s);
  }

  lemma Inside(open: Code, body: Text, close: Code)
    ensures ([open] + body + [close])[1..|body| + 1] == body
  {
  }

  lemma {:induction false} PrintSays(j: Json)
    ensures Says(Print(j), j)
    decreases j, 0
  {
    match j
    case Null =>
    case Bool(b) =>
    case Num(n) =>
      DecimalIsNatural(if n < 0 then -n else n);
      if n < 0 {
        assert IntText(n)[1..] == Decimal(-n);
      }
    case Str(s) => QuotedIsString(s);
    case Arr(items) =>
      PrintItemsSay(items);
      Inside(OpenArray, PrintItems(items), CloseArray);
    case Obj(members) =>
      PrintMembersSay(members);
      Inside(OpenObject, PrintMembers(members), CloseObject);
  }

  lemma {:induction false} PrintItemsSay(items: seq<Json>)
    ensures SaysItems(PrintItems(items), items)
    decreases items, 1
  {
    if items != [] {
      PrintSays(items[0]);
      if |items| > 1 {
        PrintItemsSay(items[1..]);
        var first, t := Print(items[0]), PrintItems(items);
        assert t[|first|] == ',' as int && t[..|first|] == first && t[|first| + 1..] == PrintItems(items[1..]);
      }
    }
  }

  lemma {:induction false} PrintMemberSays(m: Member)
    ensures SaysMember(PrintMember(m), m)
    decreases m, 1
  {
    PrintSays(m.value);
    QuotedIsString(m.key);
    var n, t := |Quoted(m.key)|, PrintMember(m);
    assert t[n] == ':' as int && t[..n] == Quoted(m.key) && t[n + 1..] == Print(m.value);
  }

  lemma {:induction false} PrintMembersSay(members: seq<Member>)
    ensures SaysMembers(PrintMembers(members), members)
    decreases members, 2
  {
    if members != [] {
      PrintMemberSays(members[0]);
      if |members| > 1 {
        PrintMembersSay(members[1..]);
        var first, t := PrintMember(members[0]), PrintMembers(members);
        assert t[|first|] == ',' as int && t[..|first|] == first && t[|first| + 1..] == PrintMembers(members[1..]);
      }
    }
  }

  // ----- The whole -----

  /** Throughout, the members of every object stand in the order of their keys. */
  ghost predicate InKeyOrder(j: Json)
    decreases j
  {
    match j
    case Arr(items) => forall i :: 0 <= i < |items| ==> InKeyOrder(items[i])
    case Obj(members) =>
      && (forall i, k :: 0 <= i < k < |members| ==> LexLeq(SortKey(members[i].key), SortKey(members[k].key)))
      && forall i :: 0 <= i < |members| ==> InKeyOrder(members[i].value)
    case _ => true
  }

  lemma MemberOrder()
    ensures Sorting.TotalPreorder(KeyLeq)
  {
    forall a: Member, b: Member ensures KeyLeq(a, b) || KeyLeq(b, a) {
      LexTotal(SortKey(a.key), SortKey(b.key));
    }
    forall a: Member, b: Member, c: Member | KeyLeq(a, b) && KeyLeq(b, c) ensures KeyLeq(a, c) {
      LexTransitive(SortKey(a.key), SortKey(b.key), SortKey(c.key));
    }
  }

  lemma {:induction false} NormInKeyOrder(j: Json)
    ensures InKeyOrder(Norm(j))
    decreases j, 0
  {
    match j
    case Arr(items) => NormItemsInOrder(items);
    case Obj(members) =>
      NormMembersInOrder(members);
      MemberOrder();
      var normal := NormMembers(members);
      var sorted := Sorting.Sorted(normal, KeyLeq);
      Sorting.SortedOrders(normal, KeyLeq);
      Sorting.SortedContents(normal, KeyLeq);
      forall i | 0 <= i < |sorted| ensures InKeyOrder(sorted[i].value) {
        assert sorted[i] in sorted;
        var k :| 0 <= k < |normal| && normal[k] == sorted[i];
      }
    case _ =>
  }

  lemma {:induction false} NormItemsInOrder(items: seq<Json>)
    ensures forall i :: 0 <= i < |NormItems(items)| ==> InKeyOrder(NormItems(items)[i])
    decreases items, 1
  {
    if items != [] {
      NormInKeyOrder(items[0]);
      NormItemsInOrder(items[1..]);
    }
  }

  lemma {:induction false} NormMembersInOrder(members: seq<Member>)
    ensures forall i :: 0 <= i < |NormMembers(members)| ==> InKeyOrder(NormMembers(members)[i].value)
    decreases members, 2
  {
    if members != [] {
      NormInKeyOrder(members[0].value);
      NormMembersInOrder(members[1..]);
    }
  }

  /**
   The canonical text of an accepted value is a JSON text without white space that stands for the value
   itself, the members of every object in key order.
   */
  lemma CanonicalTextSays(v: Value) returns (j: Json)
    requires CanonicalForm(v).Ok?
    ensures Keeps(v, j) && Says(CanonicalForm(v).value, Norm(j)) && InKeyOrder(Norm(j))
  {
    j := Canonical(v).value;
    CanonicalKeeps(v);
    RenderIsPrint(j);
    PrintSays(Norm(j));
    NormInKeyOrder(j);
  }
}
