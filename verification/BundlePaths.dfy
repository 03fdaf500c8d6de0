/** Entry names of exchange bundles: their components, where they land on disk, and their length in bytes. */
module BundlePaths {
  import opened Selection

  // ----- Components -----

  /** The pieces of a name between its slashes. */
  function Components(s: string): (c: seq<string>)
    ensures c != []
  {
    if s == "" then [""]
    else
      var init, last := Components(s[..|s| - 1]), s[|s| - 1];
      if last == '/' then init + [""] else init[..|init| - 1] + [init[|init| - 1] + [last]]
  }

  function Join(parts: seq<string>): string {
    if parts == [] then ""
    else if |parts| == 1 then parts[0]
    else Join(parts[..|parts| - 1]) + "/" + parts[|parts| - 1]
  }

  ghost predicate SlashFree(parts: seq<string>) { forall i :: 0 <= i < |parts| ==> '/' !in parts[i] }

  lemma JoinLonger(parts: seq<string>, part: string)
    requires parts != []
    ensures Join(parts + [part]) == Join(parts) + "/" + part
  {
    assert (parts + [part])[..|parts|] == parts;
  }

  /** Lengthening the last piece lengthens the whole. */
  lemma JoinLastLonger(init: seq<string>, last: string, tail: string)
    ensures Join(init + [last + tail]) == Join(init + [last]) + tail
  {
    if init != [] {
      JoinLonger(init, last + tail);
      JoinLonger(init, last);
      var front := Join(init) + "/";
      assert front + (last + tail) == front + last + tail;
    } else {
      assert init + [last + tail] == [last + tail] && init + [last] == [last];
    }
  }

  lemma {:induction false} JoinComponents(s: string)
    ensures Join(Components(s)) == s
  {
    if s != "" {
      var init, last := s[..|s| - 1], s[|s| - 1];
      JoinComponents(init);
      assert s == init + [last];
      if last == '/' {
        JoinLonger(Components(init), "");
      } else {
        var parts := Components(init);
        assert parts == parts[..|parts| - 1] + [parts[|parts| - 1]];
        JoinLastLonger(parts[..|parts| - 1], parts[|parts| - 1], [last]);
      }
    }
  }

  lemma {:induction false} ComponentsSlashFree(s: string)
    ensures SlashFree(Components(s))
  {
    if s != "" {
      ComponentsSlashFree(s[..|s| - 1]);
    }
  }

  lemma {:induction false} ComponentsAppend(s: string, part: string)
    requires '/' !in part
    ensures Components(s + "/" + part) == Components(s) + [part]
  {
    var whole := s + "/" + part;
    if part == "" {
      assert whole[..|whole| - 1] == s;
    } else {
      var init := part[..|part| - 1];
      ComponentsAppend(s, init);
      assert whole[..|whole| - 1] == s + "/" + init;
      assert part == init + [part[|part| - 1]] && part[|part| - 1] in part;
    }
  }

  lemma {:induction false} ComponentsOne(part: string)
    requires '/' !in part
    ensures Components(part) == [part]
  {
    if part != "" {
      var init := part[..|part| - 1];
      ComponentsOne(init);
      assert part == init + [part[|part| - 1]] && part[|part| - 1] in part;
    }
  }

  lemma {:induction false} ComponentsJoin(parts: seq<string>)
    requires parts != [] && SlashFree(parts)
    ensures Components(Join(parts)) == parts
  {
    var init, last := parts[..|parts| - 1], parts[|parts| - 1];
    assert parts == init + [last];
    if init == [] {
      ComponentsOne(last);
    } else {
      ComponentsJoin(init);
      ComponentsAppend(Join(init), last);
    }
  }

  /** The first parts of a path are where it begins. */
  lemma {:induction false} JoinBegins(parts: seq<string>, i: nat)
    requires 1 <= i <= |parts|
    ensures Join(parts[..i]) <= Join(parts)
    decreases |parts|
  {
    if i == |parts| {
      assert parts[..i] == parts;
    } else {
      var init := parts[..|parts| - 1];
      assert init[..i] == parts[..i] && parts == init + [parts[|parts| - 1]];
      JoinBegins(init, i);
      JoinLonger(init, parts[|parts| - 1]);
    }
  }

  lemma {:induction false} JoinStarts(parts: seq<string>)
    requires parts != [] && parts[0] != ""
    ensures Join(parts) != "" && Join(parts)[0] == parts[0][0]
  {
    JoinBegins(parts, 1);
    assert parts[..1] == [parts[0]];
  }

  // ----- Where a name lands -----

  predicate Real(part: string) { part != "" && part != "." }

  /** The parts of a name as a relative path: empty and dot components do not count. */
  function Parts(s: string): seq<string> { Filter(Components(s), Real) }

  /** The path a name denotes. */
  function Place(s: string): string { Join(Parts(s)) }

  /** A name without empty or dot components. */
  predicate Normal(s: string) { forall part :: part in Components(s) ==> Real(part) }

  lemma {:induction false} FilterAll(s: seq<string>)
    requires forall x :: x in s ==> Real(x)
    ensures Filter(s, Real) == s
  {
    if s != [] {
      var init, last := s[..|s| - 1], s[|s| - 1];
      assert s == init + [last];
      FilterAll(init);
    }
  }

  lemma PartsOf(s: string)
    ensures SlashFree(Parts(s)) && forall part :: part in Parts(s) ==> Real(part)
  {
    ComponentsSlashFree(s);
    FilterContents(Components(s), Real);
    forall i | 0 <= i < |Parts(s)| ensures '/' !in Parts(s)[i] {
      assert Parts(s)[i] in Parts(s);
      var k :| 0 <= k < |Components(s)| && Components(s)[k] == Parts(s)[i];
    }
  }

  lemma NormalParts(s: string)
    requires Normal(s)
    ensures Parts(s) == Components(s) && Place(s) == s
  {
    FilterAll(Components(s));
    JoinComponents(s);
  }

  lemma PartsJoin(parts: seq<string>)
    requires parts != [] && SlashFree(parts) && forall part :: part in parts ==> Real(part)
    ensures Parts(Join(parts)) == parts && Normal(Join(parts))
  {
    ComponentsJoin(parts);
    FilterAll(parts);
  }

  /** Exactly the normal names are the paths they denote. */
  lemma NormalIsPlace(s: string)
    requires s != ""
    ensures Normal(s) <==> Place(s) == s
  {
    if Normal(s) {
      NormalParts(s);
    }
    if Place(s) == s {
      PartsOf(s);
      PartsJoin(Parts(s));
    }
  }

  /** A path is normal, unless it denotes the directory itself. */
  lemma PlaceIsNormal(s: string)
    requires Parts(s) != []
    ensures Normal(Place(s)) && Parts(Place(s)) == Parts(s) && Place(Place(s)) == Place(s)
  {
    PartsOf(s);
    PartsJoin(Parts(s));
  }

  // ----- The directories above -----

  function DirectoryAt(parts: seq<string>, i: nat): string
    requires i <= |parts|
  {
    Join(parts[..i])
  }

  /** The directories above the path a name denotes. */
  function Above(s: string): set<string> {
    set i | 1 <= i < |Parts(s)| :: DirectoryAt(Parts(s), i)
  }

  lemma AboveParts(s: string, d: string) returns (i: nat)
    requires d in Above(s)
    ensures 1 <= i < |Parts(s)| && d == DirectoryAt(Parts(s), i)
    ensures Parts(d) == Parts(s)[..i] && Normal(d) && d != ""
  {
    i :| 1 <= i < |Parts(s)| && d == DirectoryAt(Parts(s), i);
    PartsOf(s);
    var parts := Parts(s)[..i];
    forall part | part in parts ensures Real(part) {
      assert part in Parts(s);
    }
    PartsJoin(parts);
    assert parts[0] in parts;
    JoinStarts(parts);
  }

  /** A name inside a directory. */
  lemma ChildParts(d: string, child: string)
    requires Normal(d) && '/' !in child && Real(child)
    ensures Parts(d + "/" + child) == Parts(d) + [child] && Normal(d + "/" + child)
  {
    ComponentsAppend(d, child);
    NormalParts(d);
    NormalParts(d + "/" + child);
  }

  lemma ChildAbove(d: string, child: string)
    requires Normal(d) && '/' !in child && Real(child)
    ensures Above(d + "/" + child) == Above(d) + {d}
  {
    ChildParts(d, child);
    NormalParts(d);
    var parts, longer := Parts(d), Parts(d + "/" + child);
    forall i: nat | i <= |parts| ensures DirectoryAt(longer, i) == DirectoryAt(parts, i) {
      assert longer[..i] == parts[..i];
    }
    assert parts[..|parts|] == parts && DirectoryAt(longer, |parts|) == d;
    forall x ensures x in Above(d + "/" + child) <==> x in Above(d) + {d} {
      if x in Above(d) {
        var i :| 1 <= i < |parts| && x == DirectoryAt(parts, i);
        assert x == DirectoryAt(longer, i);
      }
      if x in Above(d + "/" + child) {
        var i :| 1 <= i < |longer| && x == DirectoryAt(longer, i);
        assert i < |parts| ==> x == DirectoryAt(parts, i);
      }
    }
  }

  // ----- Length in bytes -----

  /** The bytes of a character in UTF-8. */
  function CharBytes(c: char): nat {
    var n := c as int;
    if n < 0x80 then 1 else if n < 0x800 then 2 else if n < 0x10000 then 3 else 4
  }

  function Utf8(s: string): nat { if s == "" then 0 else Utf8(s[..|s| - 1]) + CharBytes(s[|s| - 1]) }

  lemma {:induction false} Utf8Append(a: string, b: string)
    ensures Utf8(a + b) == Utf8(a) + Utf8(b)
  {
    if b == "" {
      assert a + b == a;
    } else {
      assert (a + b)[..|a + b| - 1] == a + b[..|b| - 1];
      Utf8Append(a, b[..|b| - 1]);
    }
  }

  /** A name of ASCII characters takes one byte for each. */
  lemma {:induction false} Utf8Ascii(s: string)
    requires forall i :: 0 <= i < |s| ==> s[i] as int < 0x80
    ensures Utf8(s) == |s|
  {
    if s != "" {
      Utf8Ascii(s[..|s| - 1]);
    }
  }
}
