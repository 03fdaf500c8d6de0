/** The reported reasons, read off the patterns, the renames and the event. */
module RiskReasons {
  import opened Concatenation
  import opened DiffStream
  import opened RiskClassifier
  import opened RiskSelection

  predicate Moves(c: Change) { c.kind == Renamed || c.kind == Copied }

  /** A path of a change is a reason by itself: for each risk class it matches, or for what else it is. */
  ghost predicate PathGives(path: string, x: Contribution, s: Setting) {
    && x.paths == {path}
    && (|| (exists k :: Hits(k, path, s) && x.code == k.code && x.levels == k.levels)
        || (Documented(path, s) && x.code == "docs_only_allowlist" && x.levels == {L0})
        || (Plain(path, s) && x.code == "ordinary_code_change" && x.levels == {L2})
        || (Unlisted(path, s) && x.code == "unknown_path" && x.levels == {L3}))
  }

  /** The levels asked for by the classes that match either side, and L3. */
  ghost predicate UnsafeAsks(source: string, target: string, levels: set<Level>, s: Setting) {
    forall l :: l in levels <==> l == L3 || exists k :: (Hits(k, source, s) || Hits(k, target, s)) && l in k.levels
  }

  /** A rename or copy is a reason besides its two paths. */
  ghost predicate MoveGives(source: string, target: string, x: Contribution, s: Setting) {
    var unlisted := Unlisted(source, s) || Unlisted(target, s);
    var documented := Documented(source, s) && Documented(target, s);
    var plain := Plain(source, s) && Plain(target, s);
    && x.paths == {source, target}
    && (|| (unlisted && x.code == "unknown_rename" && x.levels == {L3})
        || (documented && x.code == "safe_rename" && x.levels == {L0})
        || (plain && x.code == "safe_rename" && x.levels == {L2})
        || (!unlisted && !documented && !plain && x.code == "unsafe_rename" && UnsafeAsks(source, target, x.levels, s)))
  }

  ghost predicate ChangeGives(c: Change, x: Contribution, s: Setting) {
    || (exists path :: path in Touched(c) && PathGives(path, x, s))
    || (Moves(c) && MoveGives(OrEmpty(c.oldPath), OrEmpty(c.newPath), x, s))
  }

  /** Everything that is reported: a reason of some change, of their absence, or of the event. */
  ghost predicate Gives(changes: seq<Change>, x: Contribution, s: Setting) {
    || (exists c :: c in changes && ChangeGives(c, x, s))
    || (changes == [] && x == Contribution("no_changed_paths", {}, {L0}))
    || (Full(s.event, s.branch, s.rules) && x == Contribution("full_l3_event", {}, {L3}))
    || (Unrecognised(s.event) && x == Contribution("unknown_event", {}, {L3, L4}))
  }

  // ----- One path, one change -----

  lemma ClassHits(path: string, s: Setting, k: RiskClass)
    ensures k in ClassifyPath(path, s.rules, s.glob).matches <==> Hits(k, path, s)
  {
    MatchesAreClasses(path, s.rules.classes, s.glob);
    MatchesAny(path, k.globs, s.glob);
  }

  lemma MatchedContributes(path: string, matches: seq<RiskClass>, x: Contribution)
    ensures x in MatchContributions(path, matches) <==>
      exists k :: k in matches && x == Contribution(k.code, {path}, k.levels)
  {
    var found := MatchContributions(path, matches);
    if k :| k in matches && x == Contribution(k.code, {path}, k.levels) {
      var i :| 0 <= i < |matches| && matches[i] == k;
      assert found[i] == x;
    }
  }

  lemma PathContributes(path: string, s: Setting, x: Contribution)
    ensures x in PathContributions(path, ClassifyPath(path, s.rules, s.glob)) <==> PathGives(path, x, s)
  {
    var k := ClassifyPath(path, s.rules, s.glob);
    PathSelects(path, s, L0);
    MatchedContributes(path, k.matches, x);
    forall r ensures r in k.matches <==> Hits(r, path, s) {
      ClassHits(path, s, r);
    }
    if Risky(path, s) {
      var r :| r in s.rules.classes && Hits(r, path, s);
      assert k.category.Risk?;
    }
  }

  lemma UnsafeLevelsAre(source: string, target: string, s: Setting, levels: set<Level>)
    ensures levels == UnsafeLevels(ClassifyPath(source, s.rules, s.glob), ClassifyPath(target, s.rules, s.glob)) <==>
      UnsafeAsks(source, target, levels, s)
  {
    var a, b := ClassifyPath(source, s.rules, s.glob), ClassifyPath(target, s.rules, s.glob);
    forall k ensures k in a.matches <==> Hits(k, source, s) {
      ClassHits(source, s, k);
    }
    forall k ensures k in b.matches <==> Hits(k, target, s) {
      ClassHits(target, s, k);
    }
    assert UnsafeAsks(source, target, UnsafeLevels(a, b), s);
  }

  lemma MoveContributes(source: string, target: string, s: Setting, x: Contribution)
    ensures var a, b := ClassifyPath(source, s.rules, s.glob), ClassifyPath(target, s.rules, s.glob);
      x == RenameContribution(source, target, a, b) <==> MoveGives(source, target, x, s)
  {
    PathSelects(source, s, L0);
    PathSelects(target, s, L0);
    UnsafeLevelsAre(source, target, s, x.levels);
  }

  lemma ChangeContributes(c: Change, s: Setting, x: Contribution)
    ensures x in ChangeContributions(c, s.rules, s.glob) <==> ChangeGives(c, x, s)
  {
    if Moves(c) {
      PathContributes(OrEmpty(c.oldPath), s, x);
      PathContributes(OrEmpty(c.newPath), s, x);
      MoveContributes(OrEmpty(c.oldPath), OrEmpty(c.newPath), s, x);
    } else {
      PathContributes(PathOf(c), s, x);
      assert Touched(c) == {PathOf(c)};
    }
  }

  // ----- All of them -----

  lemma ChangesContribute(changes: seq<Change>, s: Setting, x: Contribution)
    ensures x in ChangesContributions(changes, s) <==> exists c :: c in changes && ChangeGives(c, x, s)
  {
    var parts := Parts(changes, s);
    ContributionsAreParts(changes, parts, s, |changes|);
    assert changes[..|changes|] == changes;
    FlattenContents(parts, |changes|, x);
    forall k | 0 <= k < |changes| ensures x in parts[k] <==> ChangeGives(changes[k], x, s) {
      ChangeContributes(changes[k], s, x);
    }
    if c :| c in changes && ChangeGives(c, x, s) {
      var k :| 0 <= k < |changes| && changes[k] == c;
      assert x in parts[k];
    }
  }

  lemma AllContribute(changes: seq<Change>, s: Setting, x: Contribution)
    ensures x in AllContributions(changes, s) <==> Gives(changes, x, s)
  {
    ChangesContribute(changes, s, x);
  }

  /** The reasons `reported` are exactly the given ones, each with all its paths and levels. */
  ghost predicate Reports(reported: Reasons, given: Contribution -> bool) {
    && (forall code :: code in reported <==> exists x :: given(x) && x.code == code)
    && (forall code, path :: code in reported ==>
          (path in reported[code].paths <==> path != "" && exists x :: given(x) && x.code == code && path in x.paths))
    && (forall code, l :: code in reported ==>
          (l in reported[code].levels <==> exists x :: given(x) && x.code == code && l in x.levels))
  }

  lemma CodeGiven(all: seq<Contribution>, code: string)
    ensures Under(all, code) <==> exists x :: x in all && x.code == code
  {
    if x :| x in all && x.code == code {
      var i :| 0 <= i < |all| && all[i] == x;
    }
  }

  lemma ReportsAll(all: seq<Contribution>, given: Contribution -> bool)
    requires forall x :: x in all <==> given(x)
    ensures Reports(AddAll(map[], all), given)
  {
    var reasons := AddAll(map[], all);
    forall code
      ensures code in reasons <==> exists x :: given(x) && x.code == code
      ensures code in reasons ==> reasons[code] == Reason(PathsUnder(all, code), LevelsUnder(all, code))
    {
      ReasonsAreUnions(all, code);
      CodeGiven(all, code);
    }
    forall code, path
      ensures path in PathsUnder(all, code) <==> path != "" && exists x :: given(x) && x.code == code && path in x.paths
    {
      if x :| path != "" && given(x) && x.code == code && path in x.paths {
        assert path in NonEmpty(x.paths);
      }
    }
  }

  /**
   The reasons: every code, path and level that a matching class, documentation, ordinary code, an
   unlisted path, a rename, an empty change list or the event accounts for, and no other.
   */
  lemma ReasonsByPatterns(changes: seq<Change>, s: Setting)
    ensures Reports(AddAll(map[], AllContributions(changes, s)), x => Gives(changes, x, s))
  {
    var all := AllContributions(changes, s);
    forall x ensures x in all <==> Gives(changes, x, s) {
      AllContribute(changes, s, x);
    }
    ReportsAll(all, x => Gives(changes, x, s));
  }
}
