/** A decoder for canonical texts, and what it shows: the text determines the value up to key order. */
module CanonicalDecoding {
  import opened Wrappers
  import opened CanonicalText
  import opened CanonicalJson

  // ----- Numbers -----

  predicate Digit(c: Code) { 48 <= c <= 57 }

  /** Nothing follows that would prolong a number. */
  predicate Stops(rest: Text) { rest == [] || !Digit(rest[0]) }

  function ReadNat(acc: nat, t: Text): (r: (nat, Text))
    ensures |r.1| <= |t|
    decreases |t|
  {
    if t == [] || !Digit(t[0]) then (acc, t) else ReadNat(acc * 10 + (t[0] - 48), t[1..])
  }

  lemma {:induction false} DecimalReads(n: nat, rest: Text)
    ensures ReadNat(0, Decimal(n) + rest) == ReadNat(n, rest)
    decreases n
  {
    if n >= 10 {
      var d: Code := 48 + n % 10;
      DecimalReads(n / 10, [d] + rest);
      assert Decimal(n) + rest == Decimal(n / 10) + ([d] + rest);
      ReadDigit(n / 10, d, rest);
      assert n / 10 * 10 + n % 10 == n;
    } else {
      ReadDigit(0, 48 + n, rest);
    }
  }

  lemma ReadDigit(acc: nat, d: Code, rest: Text)
    requires Digit(d)
    ensures ReadNat(acc, [d] + rest) == ReadNat(acc * 10 + (d - 48), rest)
  {
    assert ([d] + rest)[1..] == rest;
  }

  lemma {:induction false} DecimalStarts(n: nat)
    ensures Decimal(n) != [] && Digit(Decimal(n)[0])
  {
    if n >= 10 {
      DecimalStarts(n / 10);
    }
  }

  // ----- The decoder -----

  type Parsed = Option<(Json, Text)>

  function Drop(t: Text, word: Text): Option<Text> {
    if word <= t then Some(t[|word|..]) else None
  }

  function ParseNumber(t: Text): (r: Parsed)
    ensures r.Some? ==> |r.value.1| < |t|
  {
    if t == [] then None
    else if t[0] == Minus then
      (if |t| == 1 || !Digit(t[1]) then None
       else var r := ReadNat(0, t[1..]); Some((Num(-(r.0 as int)), r.1)))
    else if Digit(t[0]) then
      (var r := ReadNat(t[0] - 48, t[1..]); Some((Num(r.0), r.1)))
    else None
  }

  function ParseWord(t: Text, word: Text, j: Json): (r: Parsed)
    requires word != []
    ensures r.Some? ==> |r.value.1| < |t|
  {
    if Drop(t, word).Some? then Some((j, Drop(t, word).value)) else None
  }

  function ParseValue(t: Text): (r: Parsed)
    ensures r.Some? ==> |r.value.1| < |t|
    decreases |t|, 0
  {
    if t == [] then None
    else if t[0] == 110 then ParseWord(t, NullText(), Null)
    else if t[0] == 116 then ParseWord(t, BoolText(true), Bool(true))
    else if t[0] == 102 then ParseWord(t, BoolText(false), Bool(false))
    else if t[0] == Quote then
      (var r := ReadChars(t[1..]); if r.None? then None else Some((Str(r.value.0), r.value.1)))
    else if t[0] == OpenArray then
      (var r := ParseArray(t[1..]); if r.None? then None else Some((Arr(r.value.0), r.value.1)))
    else if t[0] == OpenObject then
      (var r := ParseObject(t[1..]); if r.None? then None else Some((Obj(r.value.0), r.value.1)))
    else ParseNumber(t)
  }

  function ParseArray(t: Text): (r: Option<(seq<Json>, Text)>)
    ensures r.Some? ==> |r.value.1| < |t|
    decreases |t|, 2
  {
    if t != [] && t[0] == CloseArray then Some(([], t[1..])) else ParseItems(t)
  }

  function ParseItems(t: Text): (r: Option<(seq<Json>, Text)>)
    ensures r.Some? ==> |r.value.1| < |t|
    decreases |t|, 1
  {
    var first := ParseValue(t);
    if first.None? || first.value.1 == [] then None
    else
      var after := first.value.1;
      if after[0] == CloseArray then Some(([first.value.0], after[1..]))
      else if after[0] != Comma then None
      else
        var rest := ParseItems(after[1..]);
        if rest.None? then None else Some(([first.value.0] + rest.value.0, rest.value.1))
  }

  function ParseMember(t: Text): (r: Option<(Member, Text)>)
    ensures r.Some? ==> |r.value.1| < |t|
    decreases |t|, 1
  {
    if t == [] || t[0] != Quote then None
    else
      var key := ReadChars(t[1..]);
      if key.None? || key.value.1 == [] || key.value.1[0] != Colon then None
      else
        var value := ParseValue(key.value.1[1..]);
        if value.None? then None else Some((Member(key.value.0, value.value.0), value.value.1))
  }

  function ParseObject(t: Text): (r: Option<(seq<Member>, Text)>)
    ensures r.Some? ==> |r.value.1| < |t|
    decreases |t|, 3
  {
    if t != [] && t[0] == CloseObject then Some(([], t[1..])) else ParseMembers(t)
  }

  function ParseMembers(t: Text): (r: Option<(seq<Member>, Text)>)
    ensures r.Some? ==> |r.value.1| < |t|
    decreases |t|, 2
  {
    var first := ParseMember(t);
    if first.None? || first.value.1 == [] then None
    else
      var after := first.value.1;
      if after[0] == CloseObject then Some(([first.value.0], after[1..]))
      else if after[0] != Comma then None
      else
        var rest := ParseMembers(after[1..]);
        if rest.None? then None else Some(([first.value.0] + rest.value.0, rest.value.1))
  }

  /** The value a whole text stands for. */
  function Decode(t: Text): Option<Json> {
    var r := ParseValue(t);
    if r.Some? && r.value.1 == [] then Some(r.value.0) else None
  }

  // ----- Writing in front of a given continuation -----

  function PrintOn(j: Json, rest: Text): Text {
    match j
    case Null => NullText() + rest
    case Bool(b) => BoolText(b) + rest
    case Num(n) => IntText(n) + rest
    case Str(s) => [Quote] + Body(s, rest)
    case Arr(items) => [OpenArray] + ItemsOn(items, rest)
    case Obj(members) => [OpenObject] + MembersOn(members, rest)
  }

  function ItemsOn(items: seq<Json>, rest: Text): Text {
    if items == [] then [CloseArray] + rest
    else if |items| == 1 then PrintOn(items[0], [CloseArray] + rest)
    else PrintOn(items[0], [Comma] + ItemsOn(items[1..], rest))
  }

  function MemberOn(m: Member, rest: Text): Text {
    [Quote] + Body(m.key, [Colon] + PrintOn(m.value, rest))
  }

  function MembersOn(members: seq<Member>, rest: Text): Text {
    if members == [] then [CloseObject] + rest
    else if |members| == 1 then MemberOn(members[0], [CloseObject] + rest)
    else MemberOn(members[0], [Comma] + MembersOn(members[1..], rest))
  }

  lemma {:induction false} PrintOnIsPrint(j: Json, rest: Text)
    ensures PrintOn(j, rest) == Print(j) + rest
  {
    match j
    case Str(s) => assert [Quote] + Body(s, rest) == Quoted(s) + rest;
    case Arr(items) =>
      ItemsOnIsPrint(items, rest);
      assert [OpenArray] + (PrintItems(items) + [CloseArray] + rest) == Print(j) + rest;
    case Obj(members) =>
      MembersOnIsPrint(members, rest);
      assert [OpenObject] + (PrintMembers(members) + [CloseObject] + rest) == Print(j) + rest;
    case _ =>
  }

  lemma {:induction false} ItemsOnIsPrint(items: seq<Json>, rest: Text)
    ensures ItemsOn(items, rest) == PrintItems(items) + [CloseArray] + rest
  {
    if |items| == 1 {
      PrintOnIsPrint(items[0], [CloseArray] + rest);
    } else if |items| > 1 {
      ItemsOnIsPrint(items[1..], rest);
      PrintOnIsPrint(items[0], [Comma] + ItemsOn(items[1..], rest));
    }
  }

  lemma {:induction false} MemberOnIsPrint(m: Member, rest: Text)
    ensures MemberOn(m, rest) == PrintMember(m) + rest
  {
    PrintOnIsPrint(m.value, rest);
    assert MemberOn(m, rest) == Quoted(m.key) + ([Colon] + (Print(m.value) + rest));
  }

  lemma {:induction false} MembersOnIsPrint(members: seq<Member>, rest: Text)
    ensures MembersOn(members, rest) == PrintMembers(members) + [CloseObject] + rest
  {
    if |members| == 1 {
      MemberOnIsPrint(members[0], [CloseObject] + rest);
    } else if |members| > 1 {
      MembersOnIsPrint(members[1..], rest);
      MemberOnIsPrint(members[0], [Comma] + MembersOn(members[1..], rest));
    }
  }

  // ----- Reading back -----

  lemma IntReads(n: int, rest: Text)
    requires Stops(rest)
    ensures ParseValue(IntText(n) + rest) == Some((Num(n), rest))
  {
    var m: nat := if n < 0 then -n else n;
    DecimalReads(m, rest);
    DecimalStarts(m);
    var digits := Decimal(m) + rest;
    if n < 0 {
      assert (IntText(n) + rest)[1..] == digits;
    } else {
      assert IntText(n) + rest == digits;
      assert ReadNat(0, digits) == ReadNat(digits[0] - 48, digits[1..]);
    }
  }

  lemma WordReads(word: Text, rest: Text)
    ensures Drop(word + rest, word) == Some(rest)
  {
  }

  lemma StringReads(s: Text, rest: Text)
    ensures ParseValue([Quote] + Body(s, rest)) == Some((Str(s), rest))
  {
    StringsUnescape(s, rest);
    assert ([Quote] + Body(s, rest))[1..] == Body(s, rest);
  }

  lemma ParseValueArray(t: Text)
    requires ParseArray(t).Some?
    ensures ParseValue([OpenArray] + t) == Some((Arr(ParseArray(t).value.0), ParseArray(t).value.1))
  {
    assert ([OpenArray] + t)[1..] == t;
  }

  lemma ParseValueObject(t: Text)
    requires ParseObject(t).Some?
    ensures ParseValue([OpenObject] + t) == Some((Obj(ParseObject(t).value.0), ParseObject(t).value.1))
  {
    assert ([OpenObject] + t)[1..] == t;
  }

  lemma ItemsEnd(t: Text, j: Json, rest: Text)
    requires ParseValue(t) == Some((j, [CloseArray] + rest))
    ensures ParseItems(t) == Some(([j], rest))
  {
    assert ([CloseArray] + rest)[1..] == rest;
  }

  lemma ItemsStep(t: Text, j: Json, after: Text, items: seq<Json>, rest: Text)
    requires ParseValue(t) == Some((j, [Comma] + after)) && ParseItems(after) == Some((items, rest))
    ensures ParseItems(t) == Some(([j] + items, rest))
  {
    assert ([Comma] + after)[1..] == after;
  }

  lemma MembersEnd(t: Text, m: Member, rest: Text)
    requires ParseMember(t) == Some((m, [CloseObject] + rest))
    ensures ParseMembers(t) == Some(([m], rest))
  {
    assert ([CloseObject] + rest)[1..] == rest;
  }

  lemma MembersStep(t: Text, m: Member, after: Text, members: seq<Member>, rest: Text)
    requires ParseMember(t) == Some((m, [Comma] + after)) && ParseMembers(after) == Some((members, rest))
    ensures ParseMembers(t) == Some(([m] + members, rest))
  {
    assert ([Comma] + after)[1..] == after;
  }

  lemma MemberStep(key: Text, t: Text, j: Json, rest: Text)
    requires ParseValue(t) == Some((j, rest))
    ensures ParseMember([Quote] + Body(key, [Colon] + t)) == Some((Member(key, j), rest))
  {
    StringsUnescape(key, [Colon] + t);
    assert ([Quote] + Body(key, [Colon] + t))[1..] == Body(key, [Colon] + t);
    assert ([Colon] + t)[1..] == t;
  }

  /** Texts of values never begin with a closing bracket. */
  lemma StartsValue(j: Json, rest: Text)
    ensures PrintOn(j, rest) != [] && PrintOn(j, rest)[0] != CloseArray
  {
    if j.Num? {
      DecimalStarts(if j.n < 0 then -j.n else j.n);
    }
  }

  /** A printed value reads back as itself and leaves what follows it. */
  lemma {:induction false} PrintedReads(j: Json, rest: Text)
    requires Stops(rest)
    ensures ParseValue(PrintOn(j, rest)) == Some((j, rest))
  {
    match j
    case Null => WordReads(NullText(), rest);
    case Bool(b) => WordReads(BoolText(b), rest);
    case Num(n) => IntReads(n, rest);
    case Str(s) => StringReads(s, rest);
    case Arr(items) =>
      ArrayReads(items, rest);
      ParseValueArray(ItemsOn(items, rest));
    case Obj(members) =>
      ObjectReads(members, rest);
      ParseValueObject(MembersOn(members, rest));
  }

  lemma {:induction false} ArrayReads(items: seq<Json>, rest: Text)
    ensures ParseArray(ItemsOn(items, rest)) == Some((items, rest))
    decreases items, 1
  {
    if items == [] {
      assert ([CloseArray] + rest)[1..] == rest;
    } else {
      ItemsRead(items, rest);
      StartsValue(items[0], if |items| == 1 then [CloseArray] + rest else [Comma] + ItemsOn(items[1..], rest));
    }
  }

  lemma {:induction false} ItemsRead(items: seq<Json>, rest: Text)
    requires items != []
    ensures ParseItems(ItemsOn(items, rest)) == Some((items, rest))
    decreases items, 0
  {
    if |items| == 1 {
      PrintedReads(items[0], [CloseArray] + rest);
      ItemsEnd(ItemsOn(items, rest), items[0], rest);
      assert items == [items[0]];
    } else {
      var after := ItemsOn(items[1..], rest);
      PrintedReads(items[0], [Comma] + after);
      ItemsRead(items[1..], rest);
      ItemsStep(ItemsOn(items, rest), items[0], after, items[1..], rest);
      assert items == [items[0]] + items[1..];
    }
  }

  lemma {:induction false} MemberReads(m: Member, rest: Text)
    requires Stops(rest)
    ensures ParseMember(MemberOn(m, rest)) == Some((m, rest))
  {
    PrintedReads(m.value, rest);
    MemberStep(m.key, PrintOn(m.value, rest), m.value, rest);
  }

  lemma {:induction false} ObjectReads(members: seq<Member>, rest: Text)
    ensures ParseObject(MembersOn(members, rest)) == Some((members, rest))
    decreases members, 1
  {
    if members == [] {
      assert ([CloseObject] + rest)[1..] == rest;
    } else {
      MembersRead(members, rest);
      assert MembersOn(members, rest)[0] == Quote;
    }
  }

  lemma {:induction false} MembersRead(members: seq<Member>, rest: Text)
    requires members != []
    ensures ParseMembers(MembersOn(members, rest)) == Some((members, rest))
    decreases members, 0
  {
    if |members| == 1 {
      MemberReads(members[0], [CloseObject] + rest);
      MembersEnd(MembersOn(members, rest), members[0], rest);
      assert members == [members[0]];
    } else {
      var after := MembersOn(members[1..], rest);
      MemberReads(members[0], [Comma] + after);
      MembersRead(members[1..], rest);
      MembersStep(MembersOn(members, rest), members[0], after, members[1..], rest);
      assert members == [members[0]] + members[1..];
    }
  }

  /** The canonical text decodes to the normal form of the value. */
  lemma RenderedDecodes(j: Json)
    ensures Decode(Render(j)) == Some(Norm(j))
  {
    RenderIsPrint(j);
    PrintedReads(Norm(j), []);
    PrintOnIsPrint(Norm(j), []);
    assert Print(Norm(j)) + [] == Print(Norm(j));
  }
}
