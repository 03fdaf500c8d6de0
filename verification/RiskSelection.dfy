/** The validation levels selected for a list of changes, read off the patterns, the renames and the event. */
module RiskSelection {
  import opened Wrappers
  import opened DiffStream
  import opened RiskClassifier

  // ----- Paths -----

  predicate AnyMatches(path: string, patterns: seq<string>, glob: Glob) {
    exists pattern :: pattern in patterns && glob(path, pattern)
  }

  /** A risk class matches a path. */
  predicate Hits(k: RiskClass, path: string, s: Setting) { k in s.rules.classes && AnyMatches(path, k.globs, s.glob) }

  predicate Risky(path: string, s: Setting) { exists k :: k in s.rules.classes && Hits(k, path, s) }

  /** Documentation: on the allow-list and matched by no risk class. */
  predicate Documented(path: string, s: Setting) { !Risky(path, s) && AnyMatches(path, s.rules.docs, s.glob) }

  /** Ordinary code: matched by no risk class and not documentation. */
  predicate Plain(path: string, s: Setting) {
    !Risky(path, s) && !Documented(path, s) && AnyMatches(path, s.rules.ordinary, s.glob)
  }

  /** No pattern matches. */
  predicate Unlisted(path: string, s: Setting) { !Risky(path, s) && !Documented(path, s) && !Plain(path, s) }

  /** The paths a change touches: both sides of a rename or copy, the new or else the old path of any other change. */
  function Touched(c: Change): set<string> {
    if c.kind == Renamed || c.kind == Copied then {OrEmpty(c.oldPath), OrEmpty(c.newPath)}
    else if c.newPath.Some? && c.newPath.value != "" then {c.newPath.value}
    else {OrEmpty(c.oldPath)}
  }

  /** A rename or copy whose two sides are not both documentation or both ordinary code. */
  predicate Crosses(c: Change, s: Setting) {
    && (c.kind == Renamed || c.kind == Copied)
    && !(Documented(OrEmpty(c.oldPath), s) && Documented(OrEmpty(c.newPath), s))
    && !(Plain(OrEmpty(c.oldPath), s) && Plain(OrEmpty(c.newPath), s))
  }

  // ----- Selected levels -----

  /** Some touched path is matched by a class that asks for a level. */
  ghost predicate Asked(l: Level, changes: seq<Change>, s: Setting) {
    exists c, path, k :: c in changes && path in Touched(c) && Hits(k, path, s) && l in k.levels
  }

  ghost predicate TouchesUnlisted(changes: seq<Change>, s: Setting) {
    exists c, path :: c in changes && path in Touched(c) && Unlisted(path, s)
  }

  ghost predicate TouchesPlain(changes: seq<Change>, s: Setting) {
    exists c, path :: c in changes && path in Touched(c) && Plain(path, s)
  }

  predicate Unrecognised(event: string) {
    event !in {"pull-request", "push", "schedule", "workflow-dispatch", "main", "release", "release-candidate"}
  }

  predicate Full(event: string, branch: Option<string>, rules: Rules) {
    event in rules.fullEvents || (event in {"push", "pull-request"} && branch == Some("main"))
  }

  ghost predicate NeedsL4(changes: seq<Change>, s: Setting) { Asked(L4, changes, s) || Unrecognised(s.event) }

  ghost predicate NeedsL3(changes: seq<Change>, s: Setting) {
    || Asked(L3, changes, s) || Unrecognised(s.event) || Full(s.event, s.branch, s.rules)
    || TouchesUnlisted(changes, s) || exists c :: c in changes && Crosses(c, s)
  }

  ghost predicate NeedsL2(changes: seq<Change>, s: Setting) {
    Asked(L2, changes, s) || TouchesPlain(changes, s)
  }

  // ----- One path -----

  lemma MatchesAny(path: string, patterns: seq<string>, glob: Glob)
    ensures Matches(path, patterns, glob) <==> AnyMatches(path, patterns, glob)
  {
    if AnyMatches(path, patterns, glob) {
      var pattern :| pattern in patterns && glob(path, pattern);
      var i :| 0 <= i < |patterns| && patterns[i] == pattern;
    }
  }

  lemma PathSelects(path: string, s: Setting, l: Level)
    ensures var k := ClassifyPath(path, s.rules, s.glob);
      && (k.category.Docs? <==> Documented(path, s)) && (k.category.Ordinary? <==> Plain(path, s))
      && (k.category.Unknown? <==> Unlisted(path, s))
      && (l in MatchLevels(k.matches) <==> exists r :: Hits(r, path, s) && l in r.levels)
      && (l in PathLevels(k) <==>
            || (exists r :: Hits(r, path, s) && l in r.levels)
            || (l == L0 && Documented(path, s)) || (l == L2 && Plain(path, s)) || (l == L3 && Unlisted(path, s)))
  {
    var matches := MatchingClasses(path, s.rules.classes, s.glob);
    MatchesAreClasses(path, s.rules.classes, s.glob);
    forall r: RiskClass ensures r in matches <==> Hits(r, path, s) {
      MatchesAny(path, r.globs, s.glob);
    }
    MatchesAny(path, s.rules.docs, s.glob);
    MatchesAny(path, s.rules.ordinary, s.glob);
    if matches != [] {
      assert matches[0] in matches;
      assert Hits(matches[0], path, s);
    }
  }

  // ----- One change -----

  /** What one change selects. */
  ghost predicate Selects(c: Change, l: Level, s: Setting) {
    || (exists path, k :: path in Touched(c) && Hits(k, path, s) && l in k.levels)
    || (l == L0 && exists path :: path in Touched(c) && Documented(path, s))
    || (l == L2 && exists path :: path in Touched(c) && Plain(path, s))
    || (l == L3 && ((exists path :: path in Touched(c) && Unlisted(path, s)) || Crosses(c, s)))
  }

  lemma ChangeSelects(c: Change, s: Setting, l: Level)
    ensures l in ChangeLevels(c, s.rules, s.glob) <==> Selects(c, l, s)
  {
    if TwoPaths(c.kind) {
      PathSelects(OrEmpty(c.oldPath), s, l);
      PathSelects(OrEmpty(c.newPath), s, l);
    } else {
      PathSelects(PathOf(c), s, l);
      assert Touched(c) == {PathOf(c)};
    }
  }

  // ----- All changes -----

  lemma ChangesSelect(changes: seq<Change>, s: Setting, l: Level)
    ensures l in ChangesLevels(changes, s) <==> exists c :: c in changes && Selects(c, l, s)
  {
    forall c | c in changes ensures l in ChangeLevels(c, s.rules, s.glob) <==> Selects(c, l, s) {
      ChangeSelects(c, s, l);
    }
  }

  lemma EventNeeds(changes: seq<Change>, s: Setting)
    ensures L4 in AllLevels(changes, s) <==> L4 in ChangesLevels(changes, s) || Unrecognised(s.event)
    ensures L3 in AllLevels(changes, s) <==>
      L3 in ChangesLevels(changes, s) || Unrecognised(s.event) || Full(s.event, s.branch, s.rules)
    ensures L2 in AllLevels(changes, s) <==> L2 in ChangesLevels(changes, s)
  {
  }

  lemma NeedsOfChanges(changes: seq<Change>, s: Setting)
    ensures (exists c :: c in changes && Selects(c, L4, s)) <==> Asked(L4, changes, s)
    ensures (exists c :: c in changes && Selects(c, L3, s)) <==>
      Asked(L3, changes, s) || TouchesUnlisted(changes, s) || exists c :: c in changes && Crosses(c, s)
    ensures (exists c :: c in changes && Selects(c, L2, s)) <==> Asked(L2, changes, s) || TouchesPlain(changes, s)
  {
    if c :| c in changes && Crosses(c, s) {
      assert Selects(c, L3, s);
    }
    if TouchesUnlisted(changes, s) {
      var c, path :| c in changes && path in Touched(c) && Unlisted(path, s);
      assert Selects(c, L3, s);
    }
    if TouchesPlain(changes, s) {
      var c, path :| c in changes && path in Touched(c) && Plain(path, s);
      assert Selects(c, L2, s);
    }
    forall l | Asked(l, changes, s) ensures exists c :: c in changes && Selects(c, l, s) {
      var c, path, k :| c in changes && path in Touched(c) && Hits(k, path, s) && l in k.levels;
      assert Selects(c, l, s);
    }
  }

  lemma LevelNeeds(changes: seq<Change>, s: Setting)
    ensures L4 in AllLevels(changes, s) <==> NeedsL4(changes, s)
    ensures L3 in AllLevels(changes, s) <==> NeedsL3(changes, s)
    ensures L2 in AllLevels(changes, s) <==> NeedsL2(changes, s)
  {
    ChangesSelect(changes, s, L4);
    ChangesSelect(changes, s, L3);
    ChangesSelect(changes, s, L2);
    NeedsOfChanges(changes, s);
    EventNeeds(changes, s);
  }

  /**
   The selected levels: L3 and L4 if some matching class asks for L4 or the event is not recognised; L3 if
   one asks for L3, a path is not listed, a rename crosses, or the event or branch asks for everything; L2
   if one asks for L2 or ordinary code is touched; and L0 otherwise.
   */
  lemma SelectedByPatterns(changes: seq<Change>, s: Setting)
    ensures Collapse(AllLevels(changes, s)) ==
      if NeedsL4(changes, s) then [L3, L4]
      else if NeedsL3(changes, s) then [L3]
      else if NeedsL2(changes, s) then [L2]
      else [L0]
  {
    LevelNeeds(changes, s);
  }

  /** One path that no pattern matches selects L3, whatever else changed. */
  lemma UnlistedPathSelectsL3(changes: seq<Change>, s: Setting, c: Change, path: string)
    requires c in changes && path in Touched(c)
    requires forall k :: k in s.rules.classes ==> forall pattern :: pattern in k.globs ==> !s.glob(path, pattern)
    requires forall pattern :: pattern in s.rules.docs || pattern in s.rules.ordinary ==> !s.glob(path, pattern)
    ensures L3 in Collapse(AllLevels(changes, s))
  {
    assert !Risky(path, s) && !AnyMatches(path, s.rules.docs, s.glob) && !AnyMatches(path, s.rules.ordinary, s.glob);
    assert Unlisted(path, s);
    assert TouchesUnlisted(changes, s);
    SelectedByPatterns(changes, s);
  }

  /** A push to main selects L3, and so does a pull request into main, whatever changed. */
  lemma MainSelectsL3(changes: seq<Change>, event: string, clean: string -> string, s: Setting)
    requires event != "" && clean(event) in {"push", "pull-request", "pull_request"}
    requires s.event == NormaliseEvent(Some(event), clean) && s.branch == Some("main")
    ensures Collapse(AllLevels(changes, s)) == [L3] || Collapse(AllLevels(changes, s)) == [L3, L4]
    ensures Collapse(AllLevels(changes, s)) == [L3, L4] <==> Asked(L4, changes, s)
  {
    assert ReplaceUnderscores("pull_request") == "pull-request";
    assert ReplaceUnderscores("pull-request") == "pull-request" && ReplaceUnderscores("push") == "push";
    SelectedByPatterns(changes, s);
  }
}
