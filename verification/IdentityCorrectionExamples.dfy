/** A merge that its split does not undo: one of the merged papers was an alias before. */
module IdentityCorrectionExamples {
  import opened Wrappers
  import opened AliasForest
  import opened IdentityCorrections
  import StringOrder

  const Papers := {"a", "b", "c"}

  const Aliasing := Correction("1", None, None, PaperAlias, ["a"], Some("b"), None, "")

  function Merging(digest: Digest): Correction {
    Correction("2", Some("1"), Some(digest(Aliasing)), DuplicateMerge, ["a", "c"], Some("c"), None, "")
  }

  function Splitting(digest: Digest): Correction {
    Correction("3", Some("2"), Some(digest(Merging(digest))), MistakenMergeSplit, ["a"], None, Some("2"), "")
  }

  lemma AliasingAccepted(digest: Digest)
    ensures Accepted([Aliasing], Papers, digest)
  {
    var c := Replay(Papers, []);
    assert forall p {:trigger Next(c, p)} :: p in c ==> Next(c, p) == p;
    forall n: nat ensures Walk(c, "b", n) == "b" {
      RootStays(c, "b", n);
    }
    assert [Aliasing][..0] == [];
    assert !Reaches(c, "b", "a");
  }

  lemma MergingFits(log: seq<Correction>, digest: Digest)
    requires log == [Aliasing, Merging(digest), Splitting(digest)]
    ensures WellFormedAt(log, 1, Papers, digest)
  {
    var a, c := "a", "c";
    assert a[0] < c[0];
    assert StringOrder.Leq(a, c);
    assert log[1].subjects == [a, c];
  }

  lemma SplittingFits(log: seq<Correction>, digest: Digest)
    requires log == [Aliasing, Merging(digest), Splitting(digest)]
    ensures WellFormedAt(log, 2, Papers, digest)
  {
    assert log[1].subjects[0] == "a" && log[2].subjects == ["a"];
    assert SplitsEarlierMerge(log, 2, 1);
  }

  lemma AllAccepted(digest: Digest)
    ensures Accepted([Aliasing] + [Merging(digest), Splitting(digest)], Papers, digest)
  {
    var log := [Aliasing] + [Merging(digest), Splitting(digest)];
    AliasingAccepted(digest);
    assert [Aliasing][..0] == log[..0] == [];
    assert WellFormedAt([Aliasing], 0, Papers, digest) && log[0] == Aliasing;
    assert WellFormedAt(log, 0, Papers, digest);
    MergingFits(log, digest);
    SplittingFits(log, digest);
  }

  /**
   Paper a is an alias of b, is then merged into c, and is split off again. The log is accepted, and
   the registry is not what it was: a was b's alias before and is a paper of its own afterwards.
   */
  lemma SplitDoesNotRestoreAlias(digest: Digest, before: map<string, Projected>, after: map<string, Projected>)
    ensures Accepted([Aliasing] + [Merging(digest), Splitting(digest)], Papers, digest)
    ensures UndoesMerge(Merging(digest), Splitting(digest))
    ensures var long := [Aliasing] + [Merging(digest), Splitting(digest)];
      Forest(Replay(Papers, [Aliasing])) && Forest(Replay(Papers, long))
    ensures var long := [Aliasing] + [Merging(digest), Splitting(digest)];
      IsProjection(before, Papers, [Aliasing]) && IsProjection(after, Papers, long) ==>
        before != after && before["a"].canonicalId == "b" && after["a"].canonicalId == "a"
  {
    var long := [Aliasing] + [Merging(digest), Splitting(digest)];
    AliasingAccepted(digest);
    AllAccepted(digest);
    assert [Aliasing][..1] == [Aliasing] && long[..3] == long;
    ForestAfterEveryPrefix([Aliasing], Papers, digest, 1);
    ForestAfterEveryPrefix(long, Papers, digest, 3);
    if IsProjection(before, Papers, [Aliasing]) && IsProjection(after, Papers, long) {
      CanonicalBefore(digest);
      CanonicalAfter(digest);
      assert before["a"] == ProjectedPaper(Papers, [Aliasing], "a");
      assert after["a"] == ProjectedPaper(Papers, long, "a");
    }
  }

  lemma CanonicalBefore(digest: Digest)
    requires Forest(Replay(Papers, [Aliasing]))
    ensures ProjectedPaper(Papers, [Aliasing], "a").canonicalId == "b"
  {
    var c := Replay(Papers, [Aliasing]);
    assert [Aliasing][..0] == [];
    assert Aliasing.subjects[0] == "a" && "b" !in Aliasing.subjects by {
      assert "a"[0] != "b"[0];
    }
    assert [Aliasing][..|[Aliasing]| - 1] == [] && c == Step(Replay(Papers, []), Aliasing);
    assert Next(c, "a") == "b" && Next(c, "b") == "b";
    assert Walk(c, "b", 0) == "b";
    assert Walk(c, "a", 1) == "b";
    CanonicalIsTheRootReached(c, "a", "b");
  }

  lemma CanonicalAfter(digest: Digest)
    requires Forest(Replay(Papers, [Aliasing] + [Merging(digest), Splitting(digest)]))
    ensures ProjectedPaper(Papers, [Aliasing] + [Merging(digest), Splitting(digest)], "a").canonicalId == "a"
  {
    var d := Replay(Papers, [Aliasing] + [Merging(digest), Splitting(digest)]);
    ReplayOfTwo(Papers, [Aliasing], Merging(digest), Splitting(digest));
    assert Splitting(digest).subjects[0] == "a";
    assert IsRoot(d, "a");
    RootIsItsOwnCanonical(d, "a");
  }
}
