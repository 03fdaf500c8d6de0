/** Validation levels selected for a list of changes: reasons by code, and the levels they collapse to. */
module RiskClassifier {
  import opened Wrappers
  import opened DiffStream
  import opened Concatenation

  datatype Level = L0 | L2 | L3 | L4

  datatype RiskClass = RiskClass(code: string, levels: set<Level>, globs: seq<string>)

  datatype Rules = Rules(classes: seq<RiskClass>, docs: seq<string>, ordinary: seq<string>, fullEvents: set<string>)

  /** Whether a path matches a pattern. */
  type Glob = (string, string) -> bool

  /** Loaded rules: every risk class selects some level, never L0. */
  predicate ValidRules(rules: Rules) {
    forall k :: k in rules.classes ==> k.levels != {} && L0 !in k.levels
  }

  // ----- Paths -----

  datatype Category = Risk | Docs | Ordinary | Unknown

  datatype PathClass = PathClass(category: Category, matches: seq<RiskClass>)

  predicate Matches(path: string, patterns: seq<string>, glob: Glob) {
    exists i :: 0 <= i < |patterns| && glob(path, patterns[i])
  }

  function MatchingClasses(path: string, classes: seq<RiskClass>, glob: Glob): seq<RiskClass> {
    if classes == [] then []
    else (if Matches(path, classes[0].globs, glob) then [classes[0]] else []) + MatchingClasses(path, classes[1..], glob)
  }

  function ClassifyPath(path: string, rules: Rules, glob: Glob): PathClass {
    var matches := MatchingClasses(path, rules.classes, glob);
    if matches != [] then PathClass(Risk, matches)
    else if Matches(path, rules.docs, glob) then PathClass(Docs, [])
    else if Matches(path, rules.ordinary, glob) then PathClass(Ordinary, [])
    else PathClass(Unknown, [])
  }

  // ----- Reasons -----

  datatype Contribution = Contribution(code: string, paths: set<string>, levels: set<Level>)

  datatype Reason = Reason(paths: set<string>, levels: set<Level>)

  type Reasons = map<string, Reason>

  function NonEmpty(paths: set<string>): set<string> { set p | p in paths && p != "" }

  function AddReason(reasons: Reasons, c: Contribution): Reasons {
    var item := if c.code in reasons then reasons[c.code] else Reason({}, {});
    reasons[c.code := Reason(item.paths + NonEmpty(c.paths), item.levels + c.levels)]
  }

  function AddAll(reasons: Reasons, contributions: seq<Contribution>): Reasons {
    if contributions == [] then reasons
    else
      var last := |contributions| - 1;
      AddReason(AddAll(reasons, contributions[..last]), contributions[last])
  }

  function MatchContributions(path: string, matches: seq<RiskClass>): seq<Contribution> {
    seq(|matches|, i requires 0 <= i < |matches| => Contribution(matches[i].code, {path}, matches[i].levels))
  }

  function PathContributions(path: string, k: PathClass): seq<Contribution> {
    match k.category
    case Risk => MatchContributions(path, k.matches)
    case Docs => [Contribution("docs_only_allowlist", {path}, {L0})]
    case Ordinary => [Contribution("ordinary_code_change", {path}, {L2})]
    case Unknown => [Contribution("unknown_path", {path}, {L3})]
  }

  function MatchLevels(matches: seq<RiskClass>): set<Level> {
    set k, l | k in matches && l in k.levels :: l
  }

  function UnsafeLevels(a: PathClass, b: PathClass): set<Level> {
    {L3} + MatchLevels(a.matches) + MatchLevels(b.matches)
  }

  /** What a rename or copy adds beyond its two paths. */
  function RenameContribution(source: string, target: string, a: PathClass, b: PathClass): Contribution {
    var paths := {source, target};
    if a.category.Unknown? || b.category.Unknown? then Contribution("unknown_rename", paths, {L3})
    else if a.category.Docs? && b.category.Docs? then Contribution("safe_rename", paths, {L0})
    else if a.category.Ordinary? && b.category.Ordinary? then Contribution("safe_rename", paths, {L2})
    else Contribution("unsafe_rename", paths, UnsafeLevels(a, b))
  }

  /** A safe rename selects no level of its own. */
  function RenameLevels(a: PathClass, b: PathClass): set<Level> {
    if a.category.Unknown? || b.category.Unknown? then {L3}
    else if (a.category.Docs? && b.category.Docs?) || (a.category.Ordinary? && b.category.Ordinary?) then {}
    else UnsafeLevels(a, b)
  }

  function PathLevels(k: PathClass): set<Level> {
    match k.category
    case Risk => MatchLevels(k.matches)
    case Docs => {L0}
    case Ordinary => {L2}
    case Unknown => {L3}
  }

  function PathOf(c: Change): string { if c.newPath.Some? && c.newPath.value != "" then c.newPath.value else OrEmpty(c.oldPath) }

  function ChangeContributions(c: Change, rules: Rules, glob: Glob): seq<Contribution> {
    if TwoPaths(c.kind) then
      var source, target := OrEmpty(c.oldPath), OrEmpty(c.newPath);
      var a, b := ClassifyPath(source, rules, glob), ClassifyPath(target, rules, glob);
      PathContributions(source, a) + PathContributions(target, b) + [RenameContribution(source, target, a, b)]
    else PathContributions(PathOf(c), ClassifyPath(PathOf(c), rules, glob))
  }

  function ChangeLevels(c: Change, rules: Rules, glob: Glob): set<Level> {
    if TwoPaths(c.kind) then
      var a, b := ClassifyPath(OrEmpty(c.oldPath), rules, glob), ClassifyPath(OrEmpty(c.newPath), rules, glob);
      PathLevels(a) + PathLevels(b) + RenameLevels(a, b)
    else PathLevels(ClassifyPath(PathOf(c), rules, glob))
  }

  // ----- Events -----

  function ReplaceUnderscores(s: string): string {
    seq(|s|, i requires 0 <= i < |s| => if s[i] == '_' then '-' else s[i])
  }

  /** `clean` strips and lower-cases; a missing event keeps its underscore. */
  function NormaliseEvent(event: Option<string>, clean: string -> string): string {
    if event.None? || event.value == "" then "pull_request" else ReplaceUnderscores(clean(event.value))
  }

  predicate RequiresFull(event: string, branch: Option<string>, rules: Rules) {
    event in rules.fullEvents || (event in {"push", "pull-request"} && branch == Some("main"))
  }

  predicate KnownEvent(event: string) {
    event in {"pull-request", "push", "schedule", "workflow-dispatch", "main", "release", "release-candidate"}
  }

  function EventContributions(event: string, branch: Option<string>, rules: Rules): seq<Contribution> {
    (if RequiresFull(event, branch, rules) then [Contribution("full_l3_event", {}, {L3})] else []) +
    (if KnownEvent(event) then [] else [Contribution("unknown_event", {}, {L3, L4})])
  }

  function EventLevels(event: string, branch: Option<string>, rules: Rules): set<Level> {
    (if RequiresFull(event, branch, rules) then {L3} else {}) + (if KnownEvent(event) then {} else {L3, L4})
  }

  // ----- The classification -----

  /** What is known about the revision range apart from its changes. */
  datatype Setting = Setting(event: string, branch: Option<string>, rules: Rules, glob: Glob)

  function ChangesContributions(changes: seq<Change>, s: Setting): seq<Contribution> {
    if changes == [] then []
    else
      var last := |changes| - 1;
      ChangesContributions(changes[..last], s) + ChangeContributions(changes[last], s.rules, s.glob)
  }

  function AllContributions(changes: seq<Change>, s: Setting): seq<Contribution> {
    ChangesContributions(changes, s) +
    (if changes == [] then [Contribution("no_changed_paths", {}, {L0})] else []) +
    EventContributions(s.event, s.branch, s.rules)
  }

  function ChangesLevels(changes: seq<Change>, s: Setting): set<Level> {
    set c, l | c in changes && l in ChangeLevels(c, s.rules, s.glob) :: l
  }

  function AllLevels(changes: seq<Change>, s: Setting): set<Level> {
    ChangesLevels(changes, s) + (if changes == [] then {L0} else {}) + EventLevels(s.event, s.branch, s.rules)
  }

  /** The levels selected, weakest first. */
  function Collapse(levels: set<Level>): seq<Level> {
    if L4 in levels then [L3, L4] else if L3 in levels then [L3] else if L2 in levels then [L2] else [L0]
  }

  /** How strong a selection is. */
  function Strength(levels: set<Level>): nat {
    if L4 in levels then 3 else if L3 in levels then 2 else if L2 in levels then 1 else 0
  }

  // ----- Reasons say exactly what was contributed -----

  predicate Under(contributions: seq<Contribution>, code: string) {
    exists i :: 0 <= i < |contributions| && contributions[i].code == code
  }

  function PathsUnder(contributions: seq<Contribution>, code: string): set<string> {
    set c, p | c in contributions && c.code == code && p in NonEmpty(c.paths) :: p
  }

  function LevelsUnder(contributions: seq<Contribution>, code: string): set<Level> {
    set c, l | c in contributions && c.code == code && l in c.levels :: l
  }

  lemma UnderAppend(contributions: seq<Contribution>, c: Contribution, code: string)
    ensures var longer := contributions + [c];
      && (Under(longer, code) <==> Under(contributions, code) || c.code == code)
      && PathsUnder(longer, code) == PathsUnder(contributions, code) + (if c.code == code then NonEmpty(c.paths) else {})
      && LevelsUnder(longer, code) == LevelsUnder(contributions, code) + (if c.code == code then c.levels else {})
  {
    var longer := contributions + [c];
    assert longer[|contributions|] == c;
    assert forall i :: 0 <= i < |contributions| ==> longer[i] == contributions[i];
    assert forall x :: x in longer <==> x in contributions || x == c;
  }

  /** Each reason holds the union of everything contributed under its code. */
  lemma {:induction false} ReasonsAreUnions(contributions: seq<Contribution>, code: string)
    ensures code in AddAll(map[], contributions) <==> Under(contributions, code)
    ensures code in AddAll(map[], contributions) ==>
      AddAll(map[], contributions)[code] == Reason(PathsUnder(contributions, code), LevelsUnder(contributions, code))
    ensures !Under(contributions, code) ==> PathsUnder(contributions, code) == {} && LevelsUnder(contributions, code) == {}
  {
    if contributions != [] {
      var init, last := contributions[..|contributions| - 1], contributions[|contributions| - 1];
      ReasonsAreUnions(init, code);
      UnderAppend(init, last, code);
      assert contributions == init + [last];
    }
  }

  /** All levels mentioned by any reason. */
  ghost function ReasonLevels(reasons: Reasons): set<Level> {
    set code, l | code in reasons && l in reasons[code].levels :: l
  }

  ghost function ContributedLevels(contributions: seq<Contribution>): set<Level> {
    set c, l | c in contributions && l in c.levels :: l
  }

  lemma ReasonLevelsAreContributed(contributions: seq<Contribution>)
    ensures ReasonLevels(AddAll(map[], contributions)) == ContributedLevels(contributions)
  {
    var reasons := AddAll(map[], contributions);
    forall l | l in ReasonLevels(reasons) ensures l in ContributedLevels(contributions) {
      var code :| code in reasons && l in reasons[code].levels;
      ReasonsAreUnions(contributions, code);
    }
    forall l | l in ContributedLevels(contributions) ensures l in ReasonLevels(reasons) {
      var c :| c in contributions && l in c.levels;
      var i :| 0 <= i < |contributions| && contributions[i] == c;
      ReasonsAreUnions(contributions, c.code);
      assert Under(contributions, c.code);
      assert l in LevelsUnder(contributions, c.code);
    }
  }

  lemma ContributedAppend(a: seq<Contribution>, b: seq<Contribution>)
    ensures ContributedLevels(a + b) == ContributedLevels(a) + ContributedLevels(b)
  {
  }

  lemma PathContributionLevels(path: string, k: PathClass)
    ensures ContributedLevels(PathContributions(path, k)) == PathLevels(k)
  {
    if k.category.Risk? {
      var contributions := MatchContributions(path, k.matches);
      forall l | l in PathLevels(k) ensures l in ContributedLevels(contributions) {
        var m :| m in k.matches && l in m.levels;
        var i :| 0 <= i < |k.matches| && k.matches[i] == m;
        assert contributions[i] in contributions;
      }
      forall l | l in ContributedLevels(contributions) ensures l in PathLevels(k) {
        var c :| c in contributions && l in c.levels;
        var i :| 0 <= i < |contributions| && contributions[i] == c;
        assert k.matches[i] in k.matches;
      }
    } else {
      OneContribution(PathContributions(path, k)[0]);
    }
  }

  lemma OneContribution(c: Contribution)
    ensures ContributedLevels([c]) == c.levels
  {
    assert c in [c];
  }

  lemma ChangeContributionLevels(c: Change, rules: Rules, glob: Glob)
    ensures ContributedLevels(ChangeContributions(c, rules, glob)) == ChangeLevels(c, rules, glob)
  {
    if TwoPaths(c.kind) {
      var source, target := OrEmpty(c.oldPath), OrEmpty(c.newPath);
      var a, b := ClassifyPath(source, rules, glob), ClassifyPath(target, rules, glob);
      var rename := RenameContribution(source, target, a, b);
      PathContributionLevels(source, a);
      PathContributionLevels(target, b);
      ContributedAppend(PathContributions(source, a), PathContributions(target, b));
      ContributedAppend(PathContributions(source, a) + PathContributions(target, b), [rename]);
      OneContribution(rename);
      assert rename.levels <= PathLevels(a) + PathLevels(b) + RenameLevels(a, b);
    } else {
      PathContributionLevels(PathOf(c), ClassifyPath(PathOf(c), rules, glob));
    }
  }

  lemma ChangesLevelsAppend(changes: seq<Change>, c: Change, s: Setting)
    ensures ChangesLevels(changes + [c], s) == ChangesLevels(changes, s) + ChangeLevels(c, s.rules, s.glob)
  {
    assert forall x :: x in changes + [c] <==> x in changes || x == c;
  }

  /** Contributions and levels of some changes, grown by one change. */
  lemma LevelsGrow(
      before: seq<Contribution>, found: seq<Contribution>, levels: set<Level>, selected: set<Level>)
    requires ContributedLevels(before) == levels && ContributedLevels(found) == selected
    ensures ContributedLevels(before + found) == levels + selected
  {
    ContributedAppend(before, found);
  }

  ghost predicate LevelsAgree(changes: seq<Change>, s: Setting) {
    ContributedLevels(ChangesContributions(changes, s)) == ChangesLevels(changes, s)
  }

  lemma ChangesGrow(changes: seq<Change>, c: Change, s: Setting)
    requires LevelsAgree(changes, s)
    ensures LevelsAgree(changes + [c], s)
  {
    ChangeContributionLevels(c, s.rules, s.glob);
    ChangesLevelsAppend(changes, c, s);
    assert (changes + [c])[..|changes|] == changes;
    LevelsGrow(
      ChangesContributions(changes, s), ChangeContributions(c, s.rules, s.glob),
      ChangesLevels(changes, s), ChangeLevels(c, s.rules, s.glob));
  }

  lemma {:induction false} ChangesContributionLevels(changes: seq<Change>, s: Setting)
    ensures LevelsAgree(changes, s)
  {
    if changes != [] {
      var init := changes[..|changes| - 1];
      ChangesContributionLevels(init, s);
      ChangesGrow(init, changes[|changes| - 1], s);
      assert changes == init + [changes[|changes| - 1]];
    }
  }

  lemma EventContributionLevels(event: string, branch: Option<string>, rules: Rules)
    ensures ContributedLevels(EventContributions(event, branch, rules)) == EventLevels(event, branch, rules)
  {
    var full := if RequiresFull(event, branch, rules) then [Contribution("full_l3_event", {}, {L3})] else [];
    var unknown := if KnownEvent(event) then [] else [Contribution("unknown_event", {}, {L3, L4})];
    ContributedAppend(full, unknown);
    OneContribution(Contribution("full_l3_event", {}, {L3}));
    OneContribution(Contribution("unknown_event", {}, {L3, L4}));
  }

  /** The selected levels are the collapse of all levels the reasons mention. */
  lemma SelectedIsCollapseOfReasons(changes: seq<Change>, s: Setting)
    ensures ReasonLevels(AddAll(map[], AllContributions(changes, s))) == AllLevels(changes, s)
  {
    var all := AllContributions(changes, s);
    var none := if changes == [] then [Contribution("no_changed_paths", {}, {L0})] else [];
    var events := EventContributions(s.event, s.branch, s.rules);
    ReasonLevelsAreContributed(all);
    ChangesContributionLevels(changes, s);
    EventContributionLevels(s.event, s.branch, s.rules);
    OneContribution(Contribution("no_changed_paths", {}, {L0}));
    ContributedAppend(ChangesContributions(changes, s), none);
    ContributedAppend(ChangesContributions(changes, s) + none, events);
  }

  // ----- Order, monotonicity, renames -----

  /** Only which changes there are matters, not their order. */
  lemma OrderIrrelevant(a: seq<Change>, b: seq<Change>, s: Setting)
    requires forall c :: c in a <==> c in b
    ensures AllLevels(a, s) == AllLevels(b, s)
  {
    if a != [] {
      assert a[0] in b;
    }
    if b != [] {
      assert b[0] in a;
    }
  }

  /** What each change contributes. */
  ghost function Parts(changes: seq<Change>, s: Setting): seq<seq<Contribution>> {
    seq(|changes|, i requires 0 <= i < |changes| => ChangeContributions(changes[i], s.rules, s.glob))
  }

  lemma {:induction false} ContributionsAreParts(changes: seq<Change>, parts: seq<seq<Contribution>>, s: Setting, n: nat)
    requires parts == Parts(changes, s) && n <= |changes|
    ensures ChangesContributions(changes[..n], s) == Flatten(parts, n)
  {
    if n > 0 {
      ContributionsAreParts(changes, parts, s, n - 1);
      assert changes[..n][..n - 1] == changes[..n - 1];
    }
  }

  lemma SameParts(a: seq<Change>, b: seq<Change>, s: Setting, i: nat) returns (j: nat)
    requires (forall c :: c in a ==> c in b) && i < |a|
    ensures j < |b| && Parts(b, s)[j] == Parts(a, s)[i]
  {
    assert a[i] in b;
    j :| 0 <= j < |b| && b[j] == a[i];
  }

  lemma PartOf(parts: seq<seq<Contribution>>, x: Contribution) returns (i: nat)
    requires x in Flatten(parts, |parts|)
    ensures i < |parts| && x in parts[i]
  {
    FlattenContents(parts, |parts|, x);
    i :| 0 <= i < |parts| && x in parts[i];
  }

  lemma InPart(parts: seq<seq<Contribution>>, x: Contribution, j: nat)
    requires j < |parts| && x in parts[j]
    ensures x in Flatten(parts, |parts|)
  {
    FlattenContents(parts, |parts|, x);
  }

  lemma ChangesContributionsOrder(a: seq<Change>, b: seq<Change>, s: Setting, x: Contribution)
    requires forall c :: c in a ==> c in b
    requires x in ChangesContributions(a, s)
    ensures x in ChangesContributions(b, s)
  {
    ContributionsAreParts(a, Parts(a, s), s, |a|);
    ContributionsAreParts(b, Parts(b, s), s, |b|);
    assert a[..|a|] == a && b[..|b|] == b;
    var i := PartOf(Parts(a, s), x);
    var j := SameParts(a, b, s, i);
    InPart(Parts(b, s), x, j);
  }

  lemma ContributionsOrder(a: seq<Change>, b: seq<Change>, s: Setting, x: Contribution)
    requires forall c :: c in a <==> c in b
    requires x in AllContributions(a, s)
    ensures x in AllContributions(b, s)
  {
    if x in ChangesContributions(a, s) {
      ChangesContributionsOrder(a, b, s, x);
    }
    if a != [] {
      assert a[0] in b;
    }
    if b != [] {
      assert b[0] in a;
    }
  }

  /** Contributions are reported alike in whatever order they come, and however often. */
  lemma ReasonsOfMembers(a: seq<Contribution>, b: seq<Contribution>)
    requires forall x :: x in a <==> x in b
    ensures AddAll(map[], a) == AddAll(map[], b)
  {
    forall code ensures Under(a, code) <==> Under(b, code) {
      if Under(a, code) {
        var i :| 0 <= i < |a| && a[i].code == code;
        assert a[i] in b;
      }
      if Under(b, code) {
        var i :| 0 <= i < |b| && b[i].code == code;
        assert b[i] in a;
      }
    }
    forall code
      ensures code in AddAll(map[], a) <==> code in AddAll(map[], b)
      ensures code in AddAll(map[], a) ==> AddAll(map[], a)[code] == AddAll(map[], b)[code]
    {
      ReasonsAreUnions(a, code);
      ReasonsAreUnions(b, code);
      assert PathsUnder(a, code) == PathsUnder(b, code);
      assert LevelsUnder(a, code) == LevelsUnder(b, code);
    }
  }

  /** The reasons too, with their paths and levels, depend only on which changes there are. */
  lemma ReasonsOrderIrrelevant(a: seq<Change>, b: seq<Change>, s: Setting)
    requires forall c :: c in a <==> c in b
    ensures AddAll(map[], AllContributions(a, s)) == AddAll(map[], AllContributions(b, s))
  {
    forall x ensures x in AllContributions(a, s) <==> x in AllContributions(b, s) {
      if x in AllContributions(a, s) {
        ContributionsOrder(a, b, s, x);
      }
      if x in AllContributions(b, s) {
        ContributionsOrder(b, a, s, x);
      }
    }
    ReasonsOfMembers(AllContributions(a, s), AllContributions(b, s));
  }

  /** Adding changes never weakens the selection. */
  lemma Monotone(a: seq<Change>, b: seq<Change>, s: Setting)
    requires forall c :: c in a ==> c in b
    ensures Strength(AllLevels(a, s)) <= Strength(AllLevels(b, s))
  {
    assert ChangesLevels(a, s) <= ChangesLevels(b, s);
  }

  /** A rename or copy selects at least what deleting the old path and adding the new one would. */
  lemma RenameNotWeaker(changes: seq<Change>, kind: Kind, source: string, target: string, s: Setting)
    requires TwoPaths(kind) && source != "" && target != ""
    ensures var renamed := changes + [Change(kind, Some(source), Some(target))];
      var replaced := changes + [Change(Deleted, Some(source), None), Change(Added, None, Some(target))];
      Strength(AllLevels(replaced, s)) <= Strength(AllLevels(renamed, s))
  {
    var rename, delete, add := Change(kind, Some(source), Some(target)), Change(Deleted, Some(source), None), Change(Added, None, Some(target));
    RenameCovers(kind, source, target, s.rules, s.glob);
    ChangesLevelsAppend(changes, rename, s);
    ChangesLevelsAppend(changes, delete, s);
    ChangesLevelsAppend(changes + [delete], add, s);
    assert changes + [delete, add] == changes + [delete] + [add];
    StrongerLevels(AllLevels(changes + [delete, add], s), AllLevels(changes + [rename], s));
  }

  lemma StrongerLevels(a: set<Level>, b: set<Level>)
    requires a <= b
    ensures Strength(a) <= Strength(b)
  {
  }

  lemma RenameCovers(kind: Kind, source: string, target: string, rules: Rules, glob: Glob)
    requires TwoPaths(kind) && source != "" && target != ""
    ensures
      ChangeLevels(Change(Deleted, Some(source), None), rules, glob) + ChangeLevels(Change(Added, None, Some(target)), rules, glob)
      <= ChangeLevels(Change(kind, Some(source), Some(target)), rules, glob)
  {
  }

  lemma {:induction false} MatchesAreClasses(path: string, classes: seq<RiskClass>, glob: Glob)
    ensures forall k :: k in MatchingClasses(path, classes, glob) <==> k in classes && Matches(path, k.globs, glob)
  {
    if classes != [] {
      MatchesAreClasses(path, classes[1..], glob);
      assert classes == [classes[0]] + classes[1..];
    }
  }

  /** A rename stays below L3 exactly when both sides are documentation or both are ordinary code. */
  lemma SafeRenamesExactly(kind: Kind, source: string, target: string, rules: Rules, glob: Glob)
    requires TwoPaths(kind) && ValidRules(rules)
    ensures var a, b := ClassifyPath(source, rules, glob).category, ClassifyPath(target, rules, glob).category;
      var levels := ChangeLevels(Change(kind, Some(source), Some(target)), rules, glob);
      && (L3 !in levels <==> (a.Docs? && b.Docs?) || (a.Ordinary? && b.Ordinary?))
      && (a.Docs? && b.Docs? <==> levels == {L0})
      && (a.Ordinary? && b.Ordinary? <==> levels == {L2})
  {
    var a, b := ClassifyPath(source, rules, glob), ClassifyPath(target, rules, glob);
    var levels := ChangeLevels(Change(kind, Some(source), Some(target)), rules, glob);
    if (a.category.Docs? && b.category.Docs?) || (a.category.Ordinary? && b.category.Ordinary?) {
      assert L0 in levels <==> a.category.Docs?;
      assert L2 in levels <==> a.category.Ordinary?;
    } else {
      assert L3 in levels;
    }
  }

  /**
   Risk always wins: only documentation selects L0, and no documentation or ordinary pattern, whichever
   are listed, takes anything away from the levels of the risk classes that match a path.
   */
  lemma RiskWins(path: string, rules: Rules, docs: seq<string>, ordinary: seq<string>, glob: Glob)
    requires ValidRules(rules)
    ensures ClassifyPath(path, rules, glob).category.Risk? <==>
      exists k :: k in rules.classes && Matches(path, k.globs, glob)
    ensures L0 in PathLevels(ClassifyPath(path, rules, glob)) <==> ClassifyPath(path, rules, glob).category.Docs?
    ensures forall k :: k in rules.classes && Matches(path, k.globs, glob) ==>
      k.levels <= PathLevels(ClassifyPath(path, rules.(docs := docs, ordinary := ordinary), glob))
  {
    MatchesAreClasses(path, rules.classes, glob);
    var matches := MatchingClasses(path, rules.classes, glob);
    if matches != [] {
      assert matches[0] in matches;
    }
  }

  /** An event that is missing or not recognised selects the strongest levels, whatever changed. */
  lemma UnknownEventFailsClosed(changes: seq<Change>, s: Setting)
    requires !KnownEvent(s.event)
    ensures Collapse(AllLevels(changes, s)) == [L3, L4]
  {
  }

  lemma MissingEventFailsClosed(changes: seq<Change>, event: Option<string>, clean: string -> string, s: Setting)
    requires (event.None? || event == Some("")) && s.event == NormaliseEvent(event, clean)
    ensures Collapse(AllLevels(changes, s)) == [L3, L4]
  {
    assert s.event[4] == '_';
    UnknownEventFailsClosed(changes, s);
  }

  // ----- The loop -----

  method AddContributions(reasons: Reasons, contributions: seq<Contribution>, ghost before: seq<Contribution>)
      returns (reasons': Reasons)
    requires reasons == AddAll(map[], before)
    ensures reasons' == AddAll(map[], before + contributions)
  {
    reasons' := reasons;
    assert before + contributions[..0] == before;
    for i := 0 to |contributions|
      invariant reasons' == AddAll(map[], before + contributions[..i])
    {
      assert (before + contributions[..i + 1])[..|before| + i] == before + contributions[..i];
      reasons' := AddReason(reasons', contributions[i]);
    }
    assert contributions[..|contributions|] == contributions;
  }

  method ClassifyChange(c: Change, s: Setting) returns (contributions: seq<Contribution>, levels: set<Level>)
    ensures contributions == ChangeContributions(c, s.rules, s.glob)
    ensures levels == ChangeLevels(c, s.rules, s.glob)
  {
    if TwoPaths(c.kind) {
      var source, target := OrEmpty(c.oldPath), OrEmpty(c.newPath);
      var a, b := ClassifyPath(source, s.rules, s.glob), ClassifyPath(target, s.rules, s.glob);
      contributions := PathContributions(source, a) + PathContributions(target, b);
      levels := PathLevels(a) + PathLevels(b);
      if a.category.Unknown? || b.category.Unknown? {
        contributions := contributions + [Contribution("unknown_rename", {source, target}, {L3})];
        levels := levels + {L3};
      } else if a.category.Docs? && b.category.Docs? {
        contributions := contributions + [Contribution("safe_rename", {source, target}, {L0})];
      } else if a.category.Ordinary? && b.category.Ordinary? {
        contributions := contributions + [Contribution("safe_rename", {source, target}, {L2})];
      } else {
        contributions := contributions + [Contribution("unsafe_rename", {source, target}, UnsafeLevels(a, b))];
        levels := levels + UnsafeLevels(a, b);
      }
    } else {
      var k := ClassifyPath(PathOf(c), s.rules, s.glob);
      contributions, levels := PathContributions(PathOf(c), k), PathLevels(k);
    }
  }

  ghost predicate Assessed(reasons: Reasons, levels: set<Level>, changes: seq<Change>, s: Setting) {
    reasons == AddAll(map[], ChangesContributions(changes, s)) && levels == ChangesLevels(changes, s)
  }

  method ClassifyNext(reasons: Reasons, levels: set<Level>, ghost before: seq<Change>, c: Change, s: Setting)
      returns (reasons': Reasons, levels': set<Level>)
    requires Assessed(reasons, levels, before, s)
    ensures Assessed(reasons', levels', before + [c], s)
  {
    var found, selected := ClassifyChange(c, s);
    assert (before + [c])[..|before|] == before;
    ChangesLevelsAppend(before, c, s);
    reasons' := AddContributions(reasons, found, ChangesContributions(before, s));
    levels' := levels + selected;
  }

  method ClassifyChanges(changes: seq<Change>, s: Setting) returns (reasons: Reasons, levels: set<Level>)
    ensures Assessed(reasons, levels, changes, s)
  {
    reasons, levels := map[], {};
    for i := 0 to |changes|
      invariant Assessed(reasons, levels, changes[..i], s)
    {
      assert changes[..i + 1] == changes[..i] + [changes[i]];
      reasons, levels := ClassifyNext(reasons, levels, changes[..i], changes[i], s);
    }
    assert changes[..|changes|] == changes;
  }

  /** The reasons of a classification, and the levels selected: the collapse of all levels the reasons mention. */
  method Classify(changes: seq<Change>, s: Setting) returns (reasons: Reasons, selected: seq<Level>)
    ensures reasons == AddAll(map[], AllContributions(changes, s))
    ensures selected == Collapse(ReasonLevels(reasons)) == Collapse(AllLevels(changes, s))
  {
    var levels;
    reasons, levels := ClassifyChanges(changes, s);
    ghost var soFar := ChangesContributions(changes, s);
    if changes == [] {
      reasons := AddContributions(reasons, [Contribution("no_changed_paths", {}, {L0})], soFar);
      levels := levels + {L0};
      soFar := soFar + [Contribution("no_changed_paths", {}, {L0})];
    } else {
      assert soFar + [] == soFar;
    }
    reasons := AddContributions(reasons, EventContributions(s.event, s.branch, s.rules), soFar);
    levels := levels + EventLevels(s.event, s.branch, s.rules);
    SelectedIsCollapseOfReasons(changes, s);
    selected := Collapse(levels);
  }
}
