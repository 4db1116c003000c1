/**
 * The versions the base checker's selectors are exercised with, and what
 * the model computes for them: the latest release, the latest release of
 * every major and minor line, the failure on unsorted input, and the tag
 * stream of a GitHub repository.
 */
module Fixtures {
  import opened Results
  import opened Versions
  import opened Selection
  import opened Decimal

  function Final(r: seq<nat>): Version {
    Version(r, None)
  }

  /** 17.03.2-rc1, 17.03.1, 17.03.0, 1.3.1, 1.3.0, 1.2.2, 1.2.1, 1.2.0, 1.0, 0.6.1, 0.6.0, 0.5, 0.1.1, 0.1 (built below, one version at a time) */
  const Sample: seq<Version> := Suffix0

  lemma SampleDescending()
    ensures Descending(Sample)
  {
    SampleStrictlyDescending();
    StrictlyDescendingIsDescending(Sample);
  }

  /** Versions 1 to 3 of the sample are each below the one before. */
  lemma SampleDescendsFrom1()
    ensures forall i | 1 <= i < 4 :: Less(Sample[i], Sample[i - 1])
  {
    assert Less(Sample[1], Sample[0]);
    assert Less(Sample[2], Sample[1]);
    assert Less(Sample[3], Sample[2]);
  }

  /** Versions 4 to 6 of the sample are each below the one before. */
  lemma SampleDescendsFrom4()
    ensures forall i | 4 <= i < 7 :: Less(Sample[i], Sample[i - 1])
  {
    assert Less(Sample[4], Sample[3]);
    assert Less(Sample[5], Sample[4]);
    assert Less(Sample[6], Sample[5]);
  }

  /** Versions 7 to 9 of the sample are each below the one before. */
  lemma SampleDescendsFrom7()
    ensures forall i | 7 <= i < 10 :: Less(Sample[i], Sample[i - 1])
  {
    assert Less(Sample[7], Sample[6]);
    assert Less(Sample[8], Sample[7]);
    assert Less(Sample[9], Sample[8]);
  }

  /** Versions 10 to 13 of the sample are each below the one before. */
  lemma SampleDescendsFrom10()
    ensures forall i | 10 <= i < 14 :: Less(Sample[i], Sample[i - 1])
  {
    assert Less(Sample[10], Sample[9]);
    assert Less(Sample[11], Sample[10]);
    assert Less(Sample[12], Sample[11]);
    assert Less(Sample[13], Sample[12]);
  }

  /** No two versions of the sample are level. */
  lemma SampleStrictlyDescending()
    ensures StrictlyDescending(Sample)
  {
    SampleDescendsFrom1();
    SampleDescendsFrom4();
    SampleDescendsFrom7();
    SampleDescendsFrom10();
  }

  lemma SampleLatest()
    ensures Latest(Sample) == Ok("17.3.1")
  {
    SampleDescending();
    DescendingGreatestIsFirst(Sample);
    SampleFirstRelease();
    RenderLatest();
  }

  lemma SampleFirstRelease()
    ensures FirstRelease(Sample) == Some(Final([17, 3, 1]))
  {
    assert IsPreRelease(Sample[0]);
    assert Sample[1..][0] == Final([17, 3, 1]);
  }

  lemma RenderLatest()
    ensures Render(Final([17, 3, 1])) == "17.3.1"
  {
    assert ToText(17) == "17";
  }

  // The reference fold over the sample, one version at a time from the end:
  // each lemma states the group maxima of one more suffix.

  // The sample, built as the suffixes the fold walks through, each one version in front of the next.
  const Suffix14: seq<Version> := []
  const Suffix13: seq<Version> := [Final([0, 1])] + Suffix14
  const Suffix12: seq<Version> := [Final([0, 1, 1])] + Suffix13
  const Suffix11: seq<Version> := [Final([0, 5])] + Suffix12
  const Suffix10: seq<Version> := [Final([0, 6, 0])] + Suffix11
  const Suffix9: seq<Version> := [Final([0, 6, 1])] + Suffix10
  const Suffix8: seq<Version> := [Final([1, 0])] + Suffix9
  const Suffix7: seq<Version> := [Final([1, 2, 0])] + Suffix8
  const Suffix6: seq<Version> := [Final([1, 2, 1])] + Suffix7
  const Suffix5: seq<Version> := [Final([1, 2, 2])] + Suffix6
  const Suffix4: seq<Version> := [Final([1, 3, 0])] + Suffix5
  const Suffix3: seq<Version> := [Final([1, 3, 1])] + Suffix4
  const Suffix2: seq<Version> := [Final([17, 3, 0])] + Suffix3
  const Suffix1: seq<Version> := [Final([17, 3, 1])] + Suffix2
  const Suffix0: seq<Version> := [Version([17, 3, 2], Some(PreRelease(Candidate, 1)))] + Suffix1

  /** A final release whose group has no entry yet opens it. */
  lemma FoldOpens(v: Version, rest: seq<Version>, g: Grouping, prev: map<string, Version>, k: string)
    requires GreatestByKey(rest, g) == prev
    requires !IsPreRelease(v) && GroupKey(g, v) == k && k !in prev
    ensures GreatestByKey([v] + rest, g) == prev[k := v]
  {
    assert ([v] + rest)[1..] == rest;
  }

  /** A final release at or above its group's entry, the last one recorded, takes its place. */
  lemma FoldReplaces(v: Version, rest: seq<Version>, g: Grouping, base: map<string, Version>, k: string, last: Version)
    requires GreatestByKey(rest, g) == base[k := last]
    requires !IsPreRelease(v) && GroupKey(g, v) == k && LessEq(last, v)
    ensures GreatestByKey([v] + rest, g) == base[k := v]
  {
    assert ([v] + rest)[1..] == rest;
    assert base[k := last][k := v] == base[k := v];
  }

  /** A pre-release leaves the maxima as they are. */
  lemma FoldSkips(v: Version, rest: seq<Version>, g: Grouping, prev: map<string, Version>)
    requires GreatestByKey(rest, g) == prev && IsPreRelease(v)
    ensures GreatestByKey([v] + rest, g) == prev
  {
    assert ([v] + rest)[1..] == rest;
  }

  // The maxima of each suffix by major line.
  const MajorAt14: map<string, Version> := map[]
  const MajorAt13: map<string, Version> := map["0" := Final([0, 1])]
  const MajorAt12: map<string, Version> := map["0" := Final([0, 1, 1])]
  const MajorAt11: map<string, Version> := map["0" := Final([0, 5])]
  const MajorAt10: map<string, Version> := map["0" := Final([0, 6, 0])]
  const MajorAt9: map<string, Version> := map["0" := Final([0, 6, 1])]
  const MajorAt8: map<string, Version> := map["0" := Final([0, 6, 1]), "1" := Final([1, 0])]
  const MajorAt7: map<string, Version> := map["0" := Final([0, 6, 1]), "1" := Final([1, 2, 0])]
  const MajorAt6: map<string, Version> := map["0" := Final([0, 6, 1]), "1" := Final([1, 2, 1])]
  const MajorAt5: map<string, Version> := map["0" := Final([0, 6, 1]), "1" := Final([1, 2, 2])]
  const MajorAt4: map<string, Version> := map["0" := Final([0, 6, 1]), "1" := Final([1, 3, 0])]
  const MajorAt3: map<string, Version> := map["0" := Final([0, 6, 1]), "1" := Final([1, 3, 1])]
  const MajorAt2: map<string, Version> := map["0" := Final([0, 6, 1]), "1" := Final([1, 3, 1]), "17" := Final([17, 3, 0])]
  const MajorAt1: map<string, Version> := map["0" := Final([0, 6, 1]), "1" := Final([1, 3, 1]), "17" := Final([17, 3, 1])]
  const MajorAt0: map<string, Version> := map["0" := Final([0, 6, 1]), "1" := Final([1, 3, 1]), "17" := Final([17, 3, 1])]

  lemma MajorFrom13()
    ensures GreatestByKey(Suffix13, ByMajor) == MajorAt13
  {
    assert GroupKey(ByMajor, Final([0, 1])) == "0";
    FoldOpens(Final([0, 1]), Suffix14, ByMajor, MajorAt14, "0");
  }

  lemma MajorFrom12()
    ensures GreatestByKey(Suffix12, ByMajor) == MajorAt12
  {
    MajorFrom13();
    assert GroupKey(ByMajor, Final([0, 1, 1])) == "0";
    FoldReplaces(Final([0, 1, 1]), Suffix13, ByMajor, MajorAt14, "0", Final([0, 1]));
  }

  lemma MajorFrom11()
    ensures GreatestByKey(Suffix11, ByMajor) == MajorAt11
  {
    MajorFrom12();
    assert GroupKey(ByMajor, Final([0, 5])) == "0";
    FoldReplaces(Final([0, 5]), Suffix12, ByMajor, MajorAt14, "0", Final([0, 1, 1]));
  }

  lemma MajorFrom10()
    ensures GreatestByKey(Suffix10, ByMajor) == MajorAt10
  {
    MajorFrom11();
    assert GroupKey(ByMajor, Final([0, 6, 0])) == "0";
    FoldReplaces(Final([0, 6, 0]), Suffix11, ByMajor, MajorAt14, "0", Final([0, 5]));
  }

  lemma MajorFrom9()
    ensures GreatestByKey(Suffix9, ByMajor) == MajorAt9
  {
    MajorFrom10();
    assert GroupKey(ByMajor, Final([0, 6, 1])) == "0";
    FoldReplaces(Final([0, 6, 1]), Suffix10, ByMajor, MajorAt14, "0", Final([0, 6, 0]));
  }

  lemma MajorFrom8()
    ensures GreatestByKey(Suffix8, ByMajor) == MajorAt8
  {
    MajorFrom9();
    assert GroupKey(ByMajor, Final([1, 0])) == "1";
    FoldOpens(Final([1, 0]), Suffix9, ByMajor, MajorAt9, "1");
  }

  lemma MajorFrom7()
    ensures GreatestByKey(Suffix7, ByMajor) == MajorAt7
  {
    MajorFrom8();
    assert GroupKey(ByMajor, Final([1, 2, 0])) == "1";
    FoldReplaces(Final([1, 2, 0]), Suffix8, ByMajor, MajorAt9, "1", Final([1, 0]));
  }

  lemma MajorFrom6()
    ensures GreatestByKey(Suffix6, ByMajor) == MajorAt6
  {
    MajorFrom7();
    assert GroupKey(ByMajor, Final([1, 2, 1])) == "1";
    FoldReplaces(Final([1, 2, 1]), Suffix7, ByMajor, MajorAt9, "1", Final([1, 2, 0]));
  }

  lemma MajorFrom5()
    ensures GreatestByKey(Suffix5, ByMajor) == MajorAt5
  {
    MajorFrom6();
    assert GroupKey(ByMajor, Final([1, 2, 2])) == "1";
    FoldReplaces(Final([1, 2, 2]), Suffix6, ByMajor, MajorAt9, "1", Final([1, 2, 1]));
  }

  lemma MajorFrom4()
    ensures GreatestByKey(Suffix4, ByMajor) == MajorAt4
  {
    MajorFrom5();
    assert GroupKey(ByMajor, Final([1, 3, 0])) == "1";
    FoldReplaces(Final([1, 3, 0]), Suffix5, ByMajor, MajorAt9, "1", Final([1, 2, 2]));
  }

  lemma MajorFrom3()
    ensures GreatestByKey(Suffix3, ByMajor) == MajorAt3
  {
    MajorFrom4();
    assert GroupKey(ByMajor, Final([1, 3, 1])) == "1";
    FoldReplaces(Final([1, 3, 1]), Suffix4, ByMajor, MajorAt9, "1", Final([1, 3, 0]));
  }

  lemma MajorFrom2()
    ensures GreatestByKey(Suffix2, ByMajor) == MajorAt2
  {
    MajorFrom3();
    assert GroupKey(ByMajor, Final([17, 3, 0])) == "17";
    FoldOpens(Final([17, 3, 0]), Suffix3, ByMajor, MajorAt3, "17");
  }

  lemma MajorFrom1()
    ensures GreatestByKey(Suffix1, ByMajor) == MajorAt1
  {
    MajorFrom2();
    assert GroupKey(ByMajor, Final([17, 3, 1])) == "17";
    FoldReplaces(Final([17, 3, 1]), Suffix2, ByMajor, MajorAt3, "17", Final([17, 3, 0]));
  }

  lemma MajorFrom0()
    ensures GreatestByKey(Suffix0, ByMajor) == MajorAt0
  {
    MajorFrom1();
    FoldSkips(Version([17, 3, 2], Some(PreRelease(Candidate, 1))), Suffix1, ByMajor, MajorAt1);
  }

  // The maxima of each suffix by minor line.
  const MinorAt14: map<string, Version> := map[]
  const MinorAt13: map<string, Version> := map["0.1" := Final([0, 1])]
  const MinorAt12: map<string, Version> := map["0.1" := Final([0, 1, 1])]
  const MinorAt11: map<string, Version> := map["0.1" := Final([0, 1, 1]), "0.5" := Final([0, 5])]
  const MinorAt10: map<string, Version> := map["0.1" := Final([0, 1, 1]), "0.5" := Final([0, 5]), "0.6" := Final([0, 6, 0])]
  const MinorAt9: map<string, Version> := map["0.1" := Final([0, 1, 1]), "0.5" := Final([0, 5]), "0.6" := Final([0, 6, 1])]
  const MinorAt8: map<string, Version> := map["0.1" := Final([0, 1, 1]), "0.5" := Final([0, 5]), "0.6" := Final([0, 6, 1]), "1.0" := Final([1, 0])]
  const MinorAt7: map<string, Version> := map["0.1" := Final([0, 1, 1]), "0.5" := Final([0, 5]), "0.6" := Final([0, 6, 1]), "1.0" := Final([1, 0]), "1.2" := Final([1, 2, 0])]
  const MinorAt6: map<string, Version> := map["0.1" := Final([0, 1, 1]), "0.5" := Final([0, 5]), "0.6" := Final([0, 6, 1]), "1.0" := Final([1, 0]), "1.2" := Final([1, 2, 1])]
  const MinorAt5: map<string, Version> := map["0.1" := Final([0, 1, 1]), "0.5" := Final([0, 5]), "0.6" := Final([0, 6, 1]), "1.0" := Final([1, 0]), "1.2" := Final([1, 2, 2])]
  const MinorAt4: map<string, Version> := map["0.1" := Final([0, 1, 1]), "0.5" := Final([0, 5]), "0.6" := Final([0, 6, 1]), "1.0" := Final([1, 0]), "1.2" := Final([1, 2, 2]), "1.3" := Final([1, 3, 0])]
  const MinorAt3: map<string, Version> := map["0.1" := Final([0, 1, 1]), "0.5" := Final([0, 5]), "0.6" := Final([0, 6, 1]), "1.0" := Final([1, 0]), "1.2" := Final([1, 2, 2]), "1.3" := Final([1, 3, 1])]
  const MinorAt2: map<string, Version> := map["0.1" := Final([0, 1, 1]), "0.5" := Final([0, 5]), "0.6" := Final([0, 6, 1]), "1.0" := Final([1, 0]), "1.2" := Final([1, 2, 2]), "1.3" := Final([1, 3, 1]), "17.3" := Final([17, 3, 0])]
  const MinorAt1: map<string, Version> := map["0.1" := Final([0, 1, 1]), "0.5" := Final([0, 5]), "0.6" := Final([0, 6, 1]), "1.0" := Final([1, 0]), "1.2" := Final([1, 2, 2]), "1.3" := Final([1, 3, 1]), "17.3" := Final([17, 3, 1])]
  const MinorAt0: map<string, Version> := map["0.1" := Final([0, 1, 1]), "0.5" := Final([0, 5]), "0.6" := Final([0, 6, 1]), "1.0" := Final([1, 0]), "1.2" := Final([1, 2, 2]), "1.3" := Final([1, 3, 1]), "17.3" := Final([17, 3, 1])]

  lemma MinorFrom13()
    ensures GreatestByKey(Suffix13, ByMinor) == MinorAt13
  {
    assert GroupKey(ByMinor, Final([0, 1])) == "0.1";
    FoldOpens(Final([0, 1]), Suffix14, ByMinor, MinorAt14, "0.1");
  }

  lemma MinorFrom12()
    ensures GreatestByKey(Suffix12, ByMinor) == MinorAt12
  {
    MinorFrom13();
    assert GroupKey(ByMinor, Final([0, 1, 1])) == "0.1";
    FoldReplaces(Final([0, 1, 1]), Suffix13, ByMinor, MinorAt14, "0.1", Final([0, 1]));
  }

  lemma MinorFrom11()
    ensures GreatestByKey(Suffix11, ByMinor) == MinorAt11
  {
    MinorFrom12();
    assert GroupKey(ByMinor, Final([0, 5])) == "0.5";
    FoldOpens(Final([0, 5]), Suffix12, ByMinor, MinorAt12, "0.5");
  }

  lemma MinorFrom10()
    ensures GreatestByKey(Suffix10, ByMinor) == MinorAt10
  {
    MinorFrom11();
    assert GroupKey(ByMinor, Final([0, 6, 0])) == "0.6";
    FoldOpens(Final([0, 6, 0]), Suffix11, ByMinor, MinorAt11, "0.6");
  }

  lemma MinorFrom9()
    ensures GreatestByKey(Suffix9, ByMinor) == MinorAt9
  {
    MinorFrom10();
    assert GroupKey(ByMinor, Final([0, 6, 1])) == "0.6";
    FoldReplaces(Final([0, 6, 1]), Suffix10, ByMinor, MinorAt11, "0.6", Final([0, 6, 0]));
  }

  lemma MinorFrom8()
    ensures GreatestByKey(Suffix8, ByMinor) == MinorAt8
  {
    MinorFrom9();
    assert GroupKey(ByMinor, Final([1, 0])) == "1.0";
    FoldOpens(Final([1, 0]), Suffix9, ByMinor, MinorAt9, "1.0");
  }

  lemma MinorFrom7()
    ensures GreatestByKey(Suffix7, ByMinor) == MinorAt7
  {
    MinorFrom8();
    assert GroupKey(ByMinor, Final([1, 2, 0])) == "1.2";
    FoldOpens(Final([1, 2, 0]), Suffix8, ByMinor, MinorAt8, "1.2");
  }

  lemma MinorFrom6()
    ensures GreatestByKey(Suffix6, ByMinor) == MinorAt6
  {
    MinorFrom7();
    assert GroupKey(ByMinor, Final([1, 2, 1])) == "1.2";
    FoldReplaces(Final([1, 2, 1]), Suffix7, ByMinor, MinorAt8, "1.2", Final([1, 2, 0]));
  }

  lemma MinorFrom5()
    ensures GreatestByKey(Suffix5, ByMinor) == MinorAt5
  {
    MinorFrom6();
    assert GroupKey(ByMinor, Final([1, 2, 2])) == "1.2";
    FoldReplaces(Final([1, 2, 2]), Suffix6, ByMinor, MinorAt8, "1.2", Final([1, 2, 1]));
  }

  lemma MinorFrom4()
    ensures GreatestByKey(Suffix4, ByMinor) == MinorAt4
  {
    MinorFrom5();
    assert GroupKey(ByMinor, Final([1, 3, 0])) == "1.3";
    FoldOpens(Final([1, 3, 0]), Suffix5, ByMinor, MinorAt5, "1.3");
  }

  lemma MinorFrom3()
    ensures GreatestByKey(Suffix3, ByMinor) == MinorAt3
  {
    MinorFrom4();
    assert GroupKey(ByMinor, Final([1, 3, 1])) == "1.3";
    FoldReplaces(Final([1, 3, 1]), Suffix4, ByMinor, MinorAt5, "1.3", Final([1, 3, 0]));
  }

  lemma MinorFrom2()
    ensures GreatestByKey(Suffix2, ByMinor) == MinorAt2
  {
    MinorFrom3();
    assert GroupKey(ByMinor, Final([17, 3, 0])) == "17.3";
    FoldOpens(Final([17, 3, 0]), Suffix3, ByMinor, MinorAt3, "17.3");
  }

  lemma MinorFrom1()
    ensures GreatestByKey(Suffix1, ByMinor) == MinorAt1
  {
    MinorFrom2();
    assert GroupKey(ByMinor, Final([17, 3, 1])) == "17.3";
    FoldReplaces(Final([17, 3, 1]), Suffix2, ByMinor, MinorAt3, "17.3", Final([17, 3, 0]));
  }

  lemma MinorFrom0()
    ensures GreatestByKey(Suffix0, ByMinor) == MinorAt0
  {
    MinorFrom1();
    FoldSkips(Version([17, 3, 2], Some(PreRelease(Candidate, 1))), Suffix1, ByMinor, MinorAt1);
  }

  /** The suffix constants spell out the sample. */
  lemma SampleMajor()
    ensures GreatestByKey(Sample, ByMajor) == map["0" := Final([0, 6, 1]), "1" := Final([1, 3, 1]), "17" := Final([17, 3, 1])]
  {
    MajorFrom0();
  }

  lemma SampleMinor()
    ensures GreatestByKey(Sample, ByMinor) == map["0.1" := Final([0, 1, 1]), "0.5" := Final([0, 5]), "0.6" := Final([0, 6, 1]),
                                                  "1.0" := Final([1, 0]), "1.2" := Final([1, 2, 2]), "1.3" := Final([1, 3, 1]),
                                                  "17.3" := Final([17, 3, 1])]
  {
    MinorFrom0();
  }

  lemma MajorMapRendered()
    ensures RenderAll(map["0" := Final([0, 6, 1]), "1" := Final([1, 3, 1]), "17" := Final([17, 3, 1])]) == map["0" := "0.6.1", "1" := "1.3.1", "17" := "17.3.1"]
  {
    assert RenderAll(map[]) == map[];
    assert Render(Final([0, 6, 1])) == "0.6.1";
    RenderAllUpdate(map[], "0", Final([0, 6, 1]));
    assert Render(Final([1, 3, 1])) == "1.3.1";
    RenderAllUpdate(map["0" := Final([0, 6, 1])], "1", Final([1, 3, 1]));
    RenderLatest();
    RenderAllUpdate(map["0" := Final([0, 6, 1]), "1" := Final([1, 3, 1])], "17", Final([17, 3, 1]));
  }

  lemma MinorLinesRendered()
    ensures RenderAll(map["0.1" := Final([0, 1, 1]), "0.5" := Final([0, 5]), "0.6" := Final([0, 6, 1]), "1.0" := Final([1, 0])]) == map["0.1" := "0.1.1", "0.5" := "0.5", "0.6" := "0.6.1", "1.0" := "1.0"]
  {
    assert RenderAll(map[]) == map[];
    assert Render(Final([0, 1, 1])) == "0.1.1";
    RenderAllUpdate(map[], "0.1", Final([0, 1, 1]));
    assert Render(Final([0, 5])) == "0.5";
    RenderAllUpdate(map["0.1" := Final([0, 1, 1])], "0.5", Final([0, 5]));
    assert Render(Final([0, 6, 1])) == "0.6.1";
    RenderAllUpdate(map["0.1" := Final([0, 1, 1]), "0.5" := Final([0, 5])], "0.6", Final([0, 6, 1]));
    assert Render(Final([1, 0])) == "1.0";
    RenderAllUpdate(map["0.1" := Final([0, 1, 1]), "0.5" := Final([0, 5]), "0.6" := Final([0, 6, 1])], "1.0", Final([1, 0]));
  }

  lemma MinorMapRendered()
    ensures RenderAll(map["0.1" := Final([0, 1, 1]), "0.5" := Final([0, 5]), "0.6" := Final([0, 6, 1]), "1.0" := Final([1, 0]), "1.2" := Final([1, 2, 2]), "1.3" := Final([1, 3, 1]), "17.3" := Final([17, 3, 1])]) == map["0.1" := "0.1.1", "0.5" := "0.5", "0.6" := "0.6.1", "1.0" := "1.0", "1.2" := "1.2.2", "1.3" := "1.3.1", "17.3" := "17.3.1"]
  {
    MinorLinesRendered();
    assert Render(Final([1, 2, 2])) == "1.2.2";
    RenderAllUpdate(map["0.1" := Final([0, 1, 1]), "0.5" := Final([0, 5]), "0.6" := Final([0, 6, 1]), "1.0" := Final([1, 0])], "1.2", Final([1, 2, 2]));
    assert Render(Final([1, 3, 1])) == "1.3.1";
    RenderAllUpdate(map["0.1" := Final([0, 1, 1]), "0.5" := Final([0, 5]), "0.6" := Final([0, 6, 1]), "1.0" := Final([1, 0]), "1.2" := Final([1, 2, 2])], "1.3", Final([1, 3, 1]));
    RenderLatest();
    RenderAllUpdate(map["0.1" := Final([0, 1, 1]), "0.5" := Final([0, 5]), "0.6" := Final([0, 6, 1]), "1.0" := Final([1, 0]), "1.2" := Final([1, 2, 2]), "1.3" := Final([1, 3, 1])], "17.3", Final([17, 3, 1]));
  }

  lemma SampleMajorRendered()
    ensures RenderAll(GreatestByKey(Sample, ByMajor)) == map["0" := "0.6.1", "1" := "1.3.1", "17" := "17.3.1"]
  {
    SampleMajor();
    MajorMapRendered();
  }

  lemma SampleMinorRendered()
    ensures RenderAll(GreatestByKey(Sample, ByMinor)) == map["0.1" := "0.1.1", "0.5" := "0.5", "0.6" := "0.6.1", "1.0" := "1.0",
                      "1.2" := "1.2.2", "1.3" := "1.3.1", "17.3" := "17.3.1"]
  {
    SampleMinor();
    MinorMapRendered();
  }

  /** The three selectors on the sorted sample give the answers the checker's tests expect. */
  method SampleSelectors() returns (latest: Result<string>, major: Result<map<string, string>>, minor: Result<map<string, string>>)
    ensures latest == Ok("17.3.1")
    ensures major == Ok(map["0" := "0.6.1", "1" := "1.3.1", "17" := "17.3.1"])
    ensures minor == Ok(map["0.1" := "0.1.1", "0.5" := "0.5", "0.6" := "0.6.1", "1.0" := "1.0",
                      "1.2" := "1.2.2", "1.3" := "1.3.1", "17.3" := "17.3.1"])
  {
    SampleDescending();
    SampleLatest();
    latest := Latest(Sample);
    major := LatestMajorVersions(Sample);
    SampleMajorRendered();
    minor := LatestMinorVersions(Sample);
    SampleMinorRendered();
  }

  /** Any other arrangement of the sample is refused by both grouping selectors. */
  method ShuffledSelectors(ws: seq<Version>) returns (major: Result<map<string, string>>, minor: Result<map<string, string>>)
    requires multiset(ws) == multiset(Sample) && ws != Sample
    ensures major == Err(UnsortedVersions) && minor == Err(UnsortedVersions)
  {
    SampleStrictlyDescending();
    DescendingArrangementUnique(Sample, ws);
    major := LatestMajorVersions(ws);
    minor := LatestMinorVersions(ws);
  }

  /** With no versions at all, every selector reports that none were found. */
  method EmptySelectors() returns (latest: Result<string>, major: Result<map<string, string>>, minor: Result<map<string, string>>)
    ensures latest == Err(NoVersionsFound)
    ensures major == Err(NoVersionsFound) && minor == Err(NoVersionsFound)
  {
    latest := Latest([]);
    major := LatestMajorVersions([]);
    minor := LatestMinorVersions([]);
  }
}
