/** The NUL-separated change stream: how it is written, and the parser that reads it back. */
module DiffStream {
  import opened Wrappers
  import opened StringOrder
  import Sorting

  datatype Kind = Added | Deleted | Modified | TypeChanged | Unmerged | UnknownChange | Renamed | Copied

  datatype Change = Change(kind: Kind, oldPath: Option<string>, newPath: Option<string>)

  datatype ParseError = StatusMissing | RenamePairMissing | PathMissing | PathInvalid

  // ----- Paths -----

  function Split(s: string, separator: char): (parts: seq<string>)
    ensures parts != []
  {
    if s == "" then [""]
    else
      var rest := Split(s[1..], separator);
      if s[0] == separator then [""] + rest else [[s[0]] + rest[0]] + rest[1..]
  }

  predicate ValidGitPath(path: string) {
    && path != "" && '\\' !in path && path[0] != '/'
    && forall part :: part in Split(path, '/') ==> part != "" && part != "." && part != ".."
  }

  // ----- One change in the stream -----

  function KindOf(letter: char): Kind {
    match letter
    case 'A' => Added
    case 'D' => Deleted
    case 'M' => Modified
    case 'T' => TypeChanged
    case 'U' => Unmerged
    case 'R' => Renamed
    case 'C' => Copied
    case _ => UnknownChange
  }

  predicate TwoPaths(kind: Kind) { kind.Renamed? || kind.Copied? }

  function OnePathChange(kind: Kind, path: string): Change {
    if kind.Deleted? then Change(kind, Some(path), None) else Change(kind, None, Some(path))
  }

  /** A status token may carry the path behind a tab. */
  function SplitStatus(token: string): (string, Option<string>) {
    var k := FirstTab(token);
    if k == |token| then (token, None) else (token[..k], Some(token[k + 1..]))
  }

  function FirstTab(s: string): (k: nat)
    ensures k <= |s|
  {
    if s == "" || s[0] == '\t' then 0 else 1 + FirstTab(s[1..])
  }

  function TakeOnePath(kind: Kind, inlinePath: Option<string>, tokens: seq<string>): Result<(Change, nat), ParseError> {
    if inlinePath.None? && tokens == [] then Err(PathMissing)
    else
      var path := if inlinePath.Some? then inlinePath.value else tokens[0];
      if !ValidGitPath(path) then Err(PathInvalid)
      else Ok((OnePathChange(kind, path), if inlinePath.Some? then 0 else 1))
  }

  function TakeTwoPaths(kind: Kind, tokens: seq<string>): Result<(Change, nat), ParseError> {
    if |tokens| < 2 then Err(RenamePairMissing)
    else if !ValidGitPath(tokens[0]) || !ValidGitPath(tokens[1]) then Err(PathInvalid)
    else Ok((Change(kind, Some(tokens[0]), Some(tokens[1])), 2))
  }

  /** The first change of a token list and how many tokens it takes. */
  function TakeChange(tokens: seq<string>): (r: Result<(Change, nat), ParseError>)
    requires tokens != []
    ensures r.Ok? ==> 1 <= r.value.1 <= |tokens|
  {
    var (status, inlinePath) := SplitStatus(tokens[0]);
    if status == "" then Err(StatusMissing)
    else
      var kind := KindOf(status[0]);
      var taken := if TwoPaths(kind) then TakeTwoPaths(kind, tokens[1..]) else TakeOnePath(kind, inlinePath, tokens[1..]);
      if taken.Ok? then Ok((taken.value.0, 1 + taken.value.1)) else Err(taken.error)
  }

  function ParseTokens(tokens: seq<string>): Result<seq<Change>, ParseError>
    decreases |tokens|
  {
    if tokens == [] then Ok([])
    else
      var first := TakeChange(tokens);
      if first.Err? then Err(first.error)
      else
        var rest := ParseTokens(tokens[first.value.1..]);
        if rest.Ok? then Ok([first.value.0] + rest.value) else rest
  }

  function Tokens(raw: string): seq<string> {
    var parts := Split(raw, '\0');
    if parts[|parts| - 1] == "" then parts[..|parts| - 1] else parts
  }

  // ----- The order of changes -----

  function KindName(kind: Kind): string {
    match kind
    case Added => "added"
    case Deleted => "deleted"
    case Modified => "modified"
    case TypeChanged => "type_changed"
    case Unmerged => "unmerged"
    case UnknownChange => "unknown"
    case Renamed => "renamed"
    case Copied => "copied"
  }

  function OrEmpty(path: Option<string>): string { if path.Some? then path.value else "" }

  predicate ChangeLeq(a: Change, b: Change) {
    if OrEmpty(a.oldPath) != OrEmpty(b.oldPath) then Leq(OrEmpty(a.oldPath), OrEmpty(b.oldPath))
    else if OrEmpty(a.newPath) != OrEmpty(b.newPath) then Leq(OrEmpty(a.newPath), OrEmpty(b.newPath))
    else Leq(KindName(a.kind), KindName(b.kind))
  }

  function ParseDiff(raw: string): Result<seq<Change>, ParseError> {
    var parsed := ParseTokens(Tokens(raw));
    if parsed.Ok? then Ok(Sorting.Sorted(parsed.value, ChangeLeq)) else parsed
  }

  function Prepend(changes: seq<Change>, r: Result<seq<Change>, ParseError>): Result<seq<Change>, ParseError> {
    if r.Ok? then Ok(changes + r.value) else r
  }

  /** The parsing loop: takes changes until every token is consumed. */
  method ParseAll(tokens: seq<string>) returns (r: Result<seq<Change>, ParseError>)
    ensures r == ParseTokens(tokens)
  {
    var changes: seq<Change> := [];
    var index := 0;
    assert tokens[0..] == tokens;
    PrependNothing(ParseTokens(tokens));
    while index < |tokens|
      invariant index <= |tokens|
      invariant ParseTokens(tokens) == Prepend(changes, ParseTokens(tokens[index..]))
    {
      var rest := tokens[index..];
      var taken := TakeChange(rest);
      if taken.Err? {
        return Err(taken.error);
      }
      assert rest[taken.value.1..] == tokens[index + taken.value.1..];
      PrependStep(changes, rest, taken.value.0, taken.value.1);
      changes := changes + [taken.value.0];
      index := index + taken.value.1;
    }
    assert tokens[index..] == [] && changes + [] == changes;
    r := Ok(changes);
  }

  lemma PrependNothing(r: Result<seq<Change>, ParseError>)
    ensures Prepend([], r) == r
  {
    if r.Ok? {
      assert [] + r.value == r.value;
    }
  }

  lemma PrependStep(changes: seq<Change>, rest: seq<string>, c: Change, n: nat)
    requires rest != [] && TakeChange(rest) == Ok((c, n))
    ensures Prepend(changes, ParseTokens(rest)) == Prepend(changes + [c], ParseTokens(rest[n..]))
  {
    var r := ParseTokens(rest[n..]);
    if r.Ok? {
      assert changes + ([c] + r.value) == changes + [c] + r.value;
    }
  }

  method ParseDiffStream(raw: string) returns (r: Result<seq<Change>, ParseError>)
    ensures r == ParseDiff(raw)
  {
    r := ParseAll(Tokens(raw));
    if r.Ok? {
      r := Ok(Sorting.Sorted(r.value, ChangeLeq));
    }
  }

  // ----- Writing a stream -----

  /** One written change: its status letter, whatever follows the letter, and whether the path is inline. */
  datatype Written = Written(change: Change, letter: char, score: string, isInline: bool)

  predicate ValidChange(c: Change) {
    if TwoPaths(c.kind) then
      c.oldPath.Some? && c.newPath.Some? && ValidGitPath(c.oldPath.value) && ValidGitPath(c.newPath.value)
    else if c.kind.Deleted? then
      c.newPath.None? && c.oldPath.Some? && ValidGitPath(c.oldPath.value)
    else
      c.oldPath.None? && c.newPath.Some? && ValidGitPath(c.newPath.value)
  }

  /** The status letter of a kind of change; any letter without a meaning of its own stands for an unknown one. */
  predicate Stands(letter: char, kind: Kind) {
    && (kind == Added ==> letter == 'A') && (kind == Deleted ==> letter == 'D') && (kind == Modified ==> letter == 'M')
    && (kind == TypeChanged ==> letter == 'T') && (kind == Unmerged ==> letter == 'U')
    && (kind == Renamed ==> letter == 'R') && (kind == Copied ==> letter == 'C')
    && (kind == UnknownChange ==> letter !in {'A', 'D', 'M', 'T', 'U', 'R', 'C'})
  }

  /** Paths of a valid change hold no NUL, the score no NUL or tab. */
  predicate ValidWritten(x: Written) {
    && ValidChange(x.change) && Stands(x.letter, x.change.kind)
    && x.letter != '\t' && x.letter != '\0' && '\t' !in x.score && '\0' !in x.score
    && '\0' !in OrEmpty(x.change.oldPath) && '\0' !in OrEmpty(x.change.newPath)
    && (x.isInline ==> !TwoPaths(x.change.kind))
  }

  function OnlyPath(c: Change): string { if c.kind.Deleted? then OrEmpty(c.oldPath) else OrEmpty(c.newPath) }

  function StatusOf(x: Written): string { [x.letter] + x.score }

  function WriteTokens(x: Written): seq<string> {
    if TwoPaths(x.change.kind) then [StatusOf(x), OrEmpty(x.change.oldPath), OrEmpty(x.change.newPath)]
    else if x.isInline then [StatusOf(x) + "\t" + OnlyPath(x.change)]
    else [StatusOf(x), OnlyPath(x.change)]
  }

  function WriteAll(items: seq<Written>): seq<string> {
    if items == [] then [] else WriteTokens(items[0]) + WriteAll(items[1..])
  }

  /** Every token followed by a NUL. */
  function Raw(tokens: seq<string>): string {
    if tokens == [] then "" else tokens[0] + "\0" + Raw(tokens[1..])
  }

  function ChangesOf(items: seq<Written>): seq<Change> {
    if items == [] then [] else [items[0].change] + ChangesOf(items[1..])
  }

  // ----- Reading back what was written -----

  lemma {:induction false} TabAfter(a: string, s: string)
    requires '\t' !in a && (s == "" || s[0] == '\t')
    ensures FirstTab(a + s) == |a|
  {
    if a == "" {
      assert a + s == s;
    } else {
      assert (a + s)[1..] == a[1..] + s;
      TabAfter(a[1..], s);
    }
  }

  lemma StatusSplits(x: Written)
    requires ValidWritten(x)
    ensures SplitStatus(StatusOf(x)) == (StatusOf(x), None)
    ensures SplitStatus(StatusOf(x) + "\t" + OnlyPath(x.change)) == (StatusOf(x), Some(OnlyPath(x.change)))
  {
    var status := StatusOf(x);
    TabAfter(status, "");
    assert status + "" == status;
    var tail := "\t" + OnlyPath(x.change);
    TabAfter(status, tail);
    assert status + "\t" + OnlyPath(x.change) == status + tail;
    assert (status + tail)[|status| + 1..] == OnlyPath(x.change);
  }

  lemma TakesWritten(x: Written, rest: seq<string>)
    requires ValidWritten(x)
    ensures TakeChange(WriteTokens(x) + rest) == Ok((x.change, |WriteTokens(x)|))
  {
    StatusSplits(x);
    var tokens := WriteTokens(x) + rest;
    if TwoPaths(x.change.kind) {
      assert tokens[1..][0] == OrEmpty(x.change.oldPath) && tokens[1..][1] == OrEmpty(x.change.newPath);
    } else if !x.isInline {
      assert tokens[1..][0] == OnlyPath(x.change);
    }
  }

  lemma {:induction false} ParsesWritten(items: seq<Written>)
    requires forall i :: 0 <= i < |items| ==> ValidWritten(items[i])
    ensures ParseTokens(WriteAll(items)) == Ok(ChangesOf(items))
  {
    if items != [] {
      var rest := WriteAll(items[1..]);
      TakesWritten(items[0], rest);
      assert (WriteTokens(items[0]) + rest)[|WriteTokens(items[0])|..] == rest;
      ParsesWritten(items[1..]);
    }
  }

  lemma {:induction false} SplitToken(token: string, rest: string)
    requires '\0' !in token
    ensures Split(token + "\0" + rest, '\0') == [token] + Split(rest, '\0')
  {
    var s := token + "\0" + rest;
    if token == "" {
      assert s[1..] == rest;
    } else {
      assert s[1..] == token[1..] + "\0" + rest;
      SplitToken(token[1..], rest);
      assert [s[0]] + token[1..] == token;
    }
  }

  lemma {:induction false} RawSplits(tokens: seq<string>)
    requires forall i :: 0 <= i < |tokens| ==> '\0' !in tokens[i]
    ensures Split(Raw(tokens), '\0') == tokens + [""]
  {
    if tokens != [] {
      SplitToken(tokens[0], Raw(tokens[1..]));
      RawSplits(tokens[1..]);
      assert tokens == [tokens[0]] + tokens[1..];
    }
  }

  lemma {:induction false} WrittenWithoutNul(items: seq<Written>)
    requires forall i :: 0 <= i < |items| ==> ValidWritten(items[i])
    ensures forall token :: token in WriteAll(items) ==> '\0' !in token
  {
    if items != [] {
      WrittenWithoutNul(items[1..]);
    }
  }

  /** Parsing undoes writing, up to the sort: every token is consumed and no change is lost. */
  lemma ParseUndoesWriting(items: seq<Written>)
    requires forall i :: 0 <= i < |items| ==> ValidWritten(items[i])
    ensures ParseDiff(Raw(WriteAll(items))) == Ok(Sorting.Sorted(ChangesOf(items), ChangeLeq))
  {
    var tokens := WriteAll(items);
    WrittenWithoutNul(items);
    RawSplits(tokens);
    assert (tokens + [""])[..|tokens|] == tokens;
    ParsesWritten(items);
  }

  /** Whatever is read, every change names valid paths on the sides its kind has. */
  lemma {:induction false} ParsedAreValid(tokens: seq<string>)
    requires ParseTokens(tokens).Ok?
    ensures forall c :: c in ParseTokens(tokens).value ==> ValidChange(c)
    decreases |tokens|
  {
    if tokens != [] {
      var first := TakeChange(tokens).value;
      ParsedAreValid(tokens[first.1..]);
    }
  }

  // ----- The sort forgets the order of the stream -----

  lemma ChangeOrder()
    ensures Sorting.TotalPreorder(ChangeLeq)
  {
    forall a, b ensures ChangeLeq(a, b) || ChangeLeq(b, a) {
      LeqTotal(OrEmpty(a.oldPath), OrEmpty(b.oldPath));
      LeqTotal(OrEmpty(a.newPath), OrEmpty(b.newPath));
      LeqTotal(KindName(a.kind), KindName(b.kind));
    }
    forall a, b, c | ChangeLeq(a, b) && ChangeLeq(b, c) ensures ChangeLeq(a, c) {
      ChangeLeqTransitive(a, b, c);
    }
  }

  lemma ChangeLeqTransitive(a: Change, b: Change, c: Change)
    requires ChangeLeq(a, b) && ChangeLeq(b, c)
    ensures ChangeLeq(a, c)
  {
    LexStep(OrEmpty(a.oldPath), OrEmpty(b.oldPath), OrEmpty(c.oldPath));
    LexStep(OrEmpty(a.newPath), OrEmpty(b.newPath), OrEmpty(c.newPath));
    LexStep(KindName(a.kind), KindName(b.kind), KindName(c.kind));
  }

  lemma LexStep(x: string, y: string, z: string)
    ensures Leq(x, y) && Leq(y, z) ==> Leq(x, z)
    ensures Leq(x, y) && Leq(y, z) && x == z ==> x == y
  {
    if Leq(x, y) && Leq(y, z) {
      LeqTransitive(x, y, z);
      if x == z {
        LeqAntisymmetric(x, y);
      }
    }
  }

  /** Valid changes with equal sort keys are equal. */
  lemma KeyIdentifiesChange(a: Change, b: Change)
    requires ValidChange(a) && ValidChange(b) && ChangeLeq(a, b) && ChangeLeq(b, a)
    ensures a == b
  {
    LexTie(OrEmpty(a.oldPath), OrEmpty(b.oldPath));
    LexTie(OrEmpty(a.newPath), OrEmpty(b.newPath));
    LexTie(KindName(a.kind), KindName(b.kind));
    NamesDiffer(a.kind, b.kind);
  }

  lemma LexTie(x: string, y: string)
    ensures Leq(x, y) && Leq(y, x) ==> x == y
  {
    if Leq(x, y) && Leq(y, x) {
      LeqAntisymmetric(x, y);
    }
  }

  lemma NamesDiffer(a: Kind, b: Kind)
    ensures KindName(a) == KindName(b) ==> a == b
  {
    assert KindName(a)[0] == KindName(b)[0] && |KindName(a)| == |KindName(b)| && KindName(a)[1] == KindName(b)[1] ==> a == b;
  }

  /** The same changes written in any order parse to the same list. */
  lemma StreamOrderIrrelevant(a: seq<Change>, b: seq<Change>)
    requires (forall c :: c in a ==> ValidChange(c)) && multiset(a) == multiset(b)
    ensures Sorting.Sorted(a, ChangeLeq) == Sorting.Sorted(b, ChangeLeq)
  {
    ChangeOrder();
    forall x, y | x in a && y in a && ChangeLeq(x, y) && ChangeLeq(y, x) ensures x == y {
      KeyIdentifiesChange(x, y);
    }
    Sorting.SortedOrderIndependent(a, b, ChangeLeq);
  }
}
