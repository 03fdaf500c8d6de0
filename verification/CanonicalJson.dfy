/** Restricted canonical JSON: which values are accepted, and the text they are written as. */
module CanonicalJson {
  import opened Wrappers
  import opened CanonicalText
  import Sorting

  const MaxSafeInteger := 9007199254740991

  /** A Python value as the printer receives it; a mapping is its pairs in insertion order. */
  datatype Value =
    | NullValue
    | BoolValue(b: bool)
    | IntValue(n: int)
    | FloatValue
    | StringValue(s: Text)
    | ListValue(items: seq<Value>)
    | MapValue(pairs: seq<Pair>)
    | OtherValue

  /** A pair whose key is not a string has no key here. */
  datatype Pair = Pair(key: Option<Text>, value: Value)

  /** A normalised value. */
  datatype Json =
    | Null
    | Bool(b: bool)
    | Num(n: int)
    | Str(s: Text)
    | Arr(items: seq<Json>)
    | Obj(members: seq<Member>)

  datatype Member = Member(key: Text, value: Json)

  datatype Fault = UnsafeInteger | FloatForbidden | UnpairedSurrogate | NonStringKey | Unsupported

  // ----- Normalisation -----

  function Canonical(v: Value): Result<Json, Fault> {
    match v
    case NullValue => Ok(Null)
    case BoolValue(b) => Ok(Bool(b))
    case IntValue(n) => if -MaxSafeInteger <= n <= MaxSafeInteger then Ok(Num(n)) else Err(UnsafeInteger)
    case FloatValue => Err(FloatForbidden)
    case StringValue(s) => if Encodable(s) then Ok(Str(s)) else Err(UnpairedSurrogate)
    case ListValue(items) =>
      var r := CanonicalItems(items);
      if r.Ok? then Ok(Arr(r.value)) else Err(r.error)
    case MapValue(pairs) =>
      var r := CanonicalPairs(pairs);
      if r.Ok? then Ok(Obj(r.value)) else Err(r.error)
    case OtherValue => Err(Unsupported)
  }

  function CanonicalItems(items: seq<Value>): Result<seq<Json>, Fault> {
    if items == [] then Ok([])
    else
      var first := Canonical(items[0]);
      if first.Err? then Err(first.error)
      else
        var rest := CanonicalItems(items[1..]);
        if rest.Err? then rest else Ok([first.value] + rest.value)
  }

  function CanonicalPair(p: Pair): Result<Member, Fault> {
    if p.key.None? then Err(NonStringKey)
    else if !Encodable(p.key.value) then Err(UnpairedSurrogate)
    else
      var value := Canonical(p.value);
      if value.Ok? then Ok(Member(p.key.value, value.value)) else Err(value.error)
  }

  function CanonicalPairs(pairs: seq<Pair>): Result<seq<Member>, Fault> {
    if pairs == [] then Ok([])
    else
      var first := CanonicalPair(pairs[0]);
      if first.Err? then Err(first.error)
      else
        var rest := CanonicalPairs(pairs[1..]);
        if rest.Err? then rest else Ok([first.value] + rest.value)
  }

  /** The restricted domain: safe integers, no floats, no lone surrogates, string keys, all the way down. */
  predicate Accepts(v: Value) {
    match v
    case IntValue(n) => -MaxSafeInteger <= n <= MaxSafeInteger
    case FloatValue => false
    case StringValue(s) => Encodable(s)
    case ListValue(items) => forall i :: 0 <= i < |items| ==> Accepts(items[i])
    case MapValue(pairs) => forall i :: 0 <= i < |pairs| ==>
      pairs[i].key.Some? && Encodable(pairs[i].key.value) && Accepts(pairs[i].value)
    case OtherValue => false
    case _ => true
  }

  lemma {:induction false} AcceptedExactly(v: Value)
    ensures Canonical(v).Ok? <==> Accepts(v)
  {
    match v
    case ListValue(items) => ItemsAcceptedExactly(items);
    case MapValue(pairs) => PairsAcceptedExactly(pairs);
    case _ =>
  }

  lemma {:induction false} ItemsAcceptedExactly(items: seq<Value>)
    ensures CanonicalItems(items).Ok? <==> forall i :: 0 <= i < |items| ==> Accepts(items[i])
  {
    if items != [] {
      AcceptedExactly(items[0]);
      ItemsAcceptedExactly(items[1..]);
      assert items == [items[0]] + items[1..];
    }
  }

  predicate AcceptsPair(p: Pair) { p.key.Some? && Encodable(p.key.value) && Accepts(p.value) }

  lemma {:induction false} PairAcceptedExactly(p: Pair)
    ensures CanonicalPair(p).Ok? <==> AcceptsPair(p)
  {
    AcceptedExactly(p.value);
  }

  lemma {:induction false} PairsAcceptedExactly(pairs: seq<Pair>)
    ensures CanonicalPairs(pairs).Ok? <==> forall i :: 0 <= i < |pairs| ==> AcceptsPair(pairs[i])
  {
    if pairs != [] {
      PairAcceptedExactly(pairs[0]);
      PairsAcceptedExactly(pairs[1..]);
      assert pairs == [pairs[0]] + pairs[1..];
    }
  }

  // ----- Sizes, so that rendering may sort before it descends -----

  function Weight(j: Json): nat {
    match j
    case Arr(items) => 1 + ItemsWeight(items)
    case Obj(members) => 1 + MembersWeight(members)
    case _ => 1
  }

  function ItemsWeight(items: seq<Json>): nat {
    if items == [] then 0 else 1 + Weight(items[0]) + ItemsWeight(items[1..])
  }

  function MembersWeight(members: seq<Member>): nat {
    if members == [] then 0 else 1 + Weight(members[0].value) + MembersWeight(members[1..])
  }

  predicate KeyLeq(a: Member, b: Member) { LexLeq(SortKey(a.key), SortKey(b.key)) }

  lemma {:induction false} InsertWeight(m: Member, members: seq<Member>)
    ensures MembersWeight(Sorting.Insert(m, members, KeyLeq)) == 1 + Weight(m.value) + MembersWeight(members)
  {
    if members != [] && !KeyLeq(m, members[0]) {
      InsertWeight(m, members[1..]);
      assert Sorting.Insert(m, members, KeyLeq)[1..] == Sorting.Insert(m, members[1..], KeyLeq);
    } else {
      assert ([m] + members)[1..] == members;
    }
  }

  lemma {:induction false} SortedWeight(members: seq<Member>)
    ensures MembersWeight(Sorting.Sorted(members, KeyLeq)) == MembersWeight(members)
  {
    if members != [] {
      SortedWeight(members[1..]);
      InsertWeight(members[0], Sorting.Sorted(members[1..], KeyLeq));
    }
  }

  // ----- Rendering -----

  const Comma: Code := 44
  const Colon: Code := 58
  const Minus: Code := 45
  const OpenArray: Code := 91
  const CloseArray: Code := 93
  const OpenObject: Code := 123
  const CloseObject: Code := 125

  function NullText(): Text { [110, 117, 108, 108] }

  function BoolText(b: bool): Text { if b then [116, 114, 117, 101] else [102, 97, 108, 115, 101] }

  function Decimal(n: nat): Text {
    if n < 10 then [48 + n] else Decimal(n / 10) + [48 + n % 10]
  }

  function IntText(n: int): Text {
    if n < 0 then [Minus] + Decimal(-n) else Decimal(n)
  }

  /** Sorts the members of every object by the UTF-16 order of their keys while writing. */
  function Render(j: Json): Text
    decreases Weight(j), 0
  {
    match j
    case Null => NullText()
    case Bool(b) => BoolText(b)
    case Num(n) => IntText(n)
    case Str(s) => Quoted(s)
    case Arr(items) => [OpenArray] + RenderItems(items) + [CloseArray]
    case Obj(members) =>
      SortedWeight(members);
      [OpenObject] + RenderMembers(Sorting.Sorted(members, KeyLeq)) + [CloseObject]
  }

  function RenderItems(items: seq<Json>): Text
    decreases ItemsWeight(items), 1
  {
    if items == [] then []
    else if |items| == 1 then Render(items[0])
    else Render(items[0]) + [Comma] + RenderItems(items[1..])
  }

  function RenderMember(m: Member): Text
    decreases Weight(m.value), 1
  {
    Quoted(m.key) + [Colon] + Render(m.value)
  }

  function RenderMembers(members: seq<Member>): Text
    decreases MembersWeight(members), 1
  {
    if members == [] then []
    else if |members| == 1 then RenderMember(members[0])
    else RenderMember(members[0]) + [Comma] + RenderMembers(members[1..])
  }

  function CanonicalForm(v: Value): Result<Text, Fault> {
    var j := Canonical(v);
    if j.Ok? then Ok(Render(j.value)) else Err(j.error)
  }

  // ----- The normal form: members sorted throughout -----

  function Norm(j: Json): Json {
    match j
    case Arr(items) => Arr(NormItems(items))
    case Obj(members) => Obj(Sorting.Sorted(NormMembers(members), KeyLeq))
    case _ => j
  }

  function NormItems(items: seq<Json>): seq<Json> {
    if items == [] then [] else [Norm(items[0])] + NormItems(items[1..])
  }

  function NormMember(m: Member): Member { Member(m.key, Norm(m.value)) }

  function NormMembers(members: seq<Member>): seq<Member> {
    if members == [] then [] else [NormMember(members[0])] + NormMembers(members[1..])
  }

  /** Writing without sorting. */
  function Print(j: Json): Text {
    match j
    case Null => NullText()
    case Bool(b) => BoolText(b)
    case Num(n) => IntText(n)
    case Str(s) => Quoted(s)
    case Arr(items) => [OpenArray] + PrintItems(items) + [CloseArray]
    case Obj(members) => [OpenObject] + PrintMembers(members) + [CloseObject]
  }

  function PrintItems(items: seq<Json>): Text {
    if items == [] then []
    else if |items| == 1 then Print(items[0])
    else Print(items[0]) + [Comma] + PrintItems(items[1..])
  }

  function PrintMember(m: Member): Text { Quoted(m.key) + [Colon] + Print(m.value) }

  function PrintMembers(members: seq<Member>): Text {
    if members == [] then []
    else if |members| == 1 then PrintMember(members[0])
    else PrintMember(members[0]) + [Comma] + PrintMembers(members[1..])
  }

  lemma {:induction false} NormInsert(m: Member, members: seq<Member>)
    ensures NormMembers(Sorting.Insert(m, members, KeyLeq)) ==
      Sorting.Insert(NormMember(m), NormMembers(members), KeyLeq)
  {
    if members != [] {
      assert NormMembers(members)[0] == NormMember(members[0]) && NormMembers(members)[1..] == NormMembers(members[1..]);
      if !KeyLeq(m, members[0]) {
        NormInsert(m, members[1..]);
        assert Sorting.Insert(m, members, KeyLeq)[1..] == Sorting.Insert(m, members[1..], KeyLeq);
      } else {
        assert ([m] + members)[1..] == members;
      }
    }
  }

  /** Normalising the values and sorting the members commute. */
  lemma {:induction false} NormSorted(members: seq<Member>)
    ensures NormMembers(Sorting.Sorted(members, KeyLeq)) == Sorting.Sorted(NormMembers(members), KeyLeq)
  {
    if members != [] {
      NormSorted(members[1..]);
      NormInsert(members[0], Sorting.Sorted(members[1..], KeyLeq));
      assert NormMembers(members)[1..] == NormMembers(members[1..]);
    }
  }

  /** Sorting while writing is writing the normal form. */
  lemma {:induction false} RenderIsPrint(j: Json)
    ensures Render(j) == Print(Norm(j))
    decreases Weight(j), 0
  {
    match j
    case Arr(items) => RenderItemsIsPrint(items);
    case Obj(members) =>
      SortedWeight(members);
      RenderMembersIsPrint(Sorting.Sorted(members, KeyLeq));
      NormSorted(members);
    case _ =>
  }

  lemma {:induction false} RenderItemsIsPrint(items: seq<Json>)
    ensures RenderItems(items) == PrintItems(NormItems(items))
    decreases ItemsWeight(items), 1
  {
    if items != [] {
      RenderIsPrint(items[0]);
      RenderItemsIsPrint(items[1..]);
      assert NormItems(items)[1..] == NormItems(items[1..]);
    }
  }

  lemma {:induction false} RenderMembersIsPrint(members: seq<Member>)
    ensures RenderMembers(members) == PrintMembers(NormMembers(members))
    decreases MembersWeight(members), 1
  {
    if members != [] {
      RenderIsPrint(members[0].value);
      RenderMembersIsPrint(members[1..]);
      assert NormMembers(members)[1..] == NormMembers(members[1..]);
    }
  }

  // ----- Reading objects strictly -----

  ghost predicate KeysDistinct(pairs: seq<Member>) {
    forall i, j :: 0 <= i < j < |pairs| ==> pairs[i].key != pairs[j].key
  }

  /** Keeps the pairs of a JSON object, or names the first key that repeats an earlier one. */
  method StrictJsonObject(pairs: seq<Member>) returns (r: Result<Json, Text>)
    ensures r.Ok? <==> KeysDistinct(pairs)
    ensures r.Ok? ==> r.value == Obj(pairs)
    ensures r.Err? ==> exists k :: 0 <= k < |pairs| && r.error == pairs[k].key && KeysDistinct(pairs[..k]) && Repeated(pairs, k)
  {
    var keys: set<Text> := {};
    var result: seq<Member> := [];
    for k := 0 to |pairs|
      invariant result == pairs[..k] && KeysDistinct(result)
      invariant forall key :: key in keys <==> exists i :: 0 <= i < k && pairs[i].key == key
    {
      if pairs[k].key in keys {
        assert Repeated(pairs, k);
        return Err(pairs[k].key);
      }
      keys := keys + {pairs[k].key};
      result := result + [pairs[k]];
    }
    r := Ok(Obj(result));
  }

  ghost predicate Repeated(pairs: seq<Member>, k: nat)
    requires k < |pairs|
  {
    exists i :: 0 <= i < k && pairs[i].key == pairs[k].key
  }
}
