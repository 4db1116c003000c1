/**
 * The tag stream of a GitHub repository whose tags mix releases, a release
 * candidate, tags with a leading v and names that are not versions at all,
 * read without a normaliser and parsed by the PEP 440 subset.
 */
module TagFixtures {
  import opened Results
  import opened Versions
  import opened Pep440
  import opened Decimal
  import opened Strings
  import opened TagPipeline

  /** The tags of the mocked repository, newest first, spelled out one tag at a time below. */
  const Tags: seq<string> := TagsFrom0

  /** 17.3.2rc1, 17.3.1, 2.0.1, 2.0, v1.2, v1.1, v1.0, v0.2.1, v0.2, 0.1.0 */
  const Expected: seq<Version> := [
    Version([17, 3, 2], Some(PreRelease(Candidate, 1))), Version([17, 3, 1], None), Version([2, 0, 1], None),
    Version([2, 0], None), Version([1, 2], None), Version([1, 1], None), Version([1, 0], None),
    Version([0, 2, 1], None), Version([0, 2], None), Version([0, 1, 0], None)
  ]

  /** What the parser makes of the tags that are versions: 2 and v1 keep their single segment; spelled out one version at a time below. */
  const Parsed: seq<Version> := ParsedFrom0

  // ---------------------------------------------------------------- each tag

  /** The parser maps the tag to the outcome: a version, or None where it raises. */
  predicate Gives(parse: string -> Option<Version>, tag: string, outcome: Option<Version>) {
    parse(tag) == outcome
  }

  /** A tag made of digit groups alone is a final release. */
  lemma ParseRelease(ds: seq<string>)
    requires |ds| > 0 && DigitGroups(ds)
    ensures Parse(JoinGroups(ds)) == Some(Version(GroupValues(ds), None))
  {
    ParseOfGroups(ds, "");
    assert JoinGroups(ds) + "" == JoinGroups(ds);
  }

  /** A tag in canonical form, with or without a leading v, parses to the version it renders. */
  lemma ParseCanonical(v: Version, s: string)
    requires |v.release| > 0 && v.pre.None? && Render(v) == s
    ensures Parse(s) == Some(v) && Parse("v" + s) == Some(v)
  {
    ParseRender(v);
    JoinReleaseStartsWithDigit(v.release);
    assert s == JoinRelease(v.release);
    LeadingVIgnored(s);
  }

  /** The same fact stated of the tag, with a leading v. */
  lemma GivesCanonicalV(v: Version, s: string, tag: string)
    requires |v.release| > 0 && v.pre.None? && Render(v) == s && tag == "v" + s
    ensures Gives(Parse, tag, Some(v))
  {
    ParseCanonical(v, s);
  }

  /** The same fact stated of the tag, written without a v. */
  lemma GivesCanonical(v: Version, s: string)
    requires |v.release| > 0 && v.pre.None? && Render(v) == s
    ensures Gives(Parse, s, Some(v))
  {
    ParseCanonical(v, s);
  }

  lemma RcMarker()
    ensures ParsePre("-rc1") == Some(Some(PreRelease(Candidate, 1)))
  {
    assert DropSeparator("-rc1") == "rc1";
    assert PhasePrefix("rc1") == Some((Candidate, 2));
    assert DropSeparator("rc1"[2..]) == "1";
  }

  lemma RcGroups()
    ensures "17.03.2-rc1" == JoinGroups(["17", "03", "2"]) + "-rc1"
    ensures GroupValues(["17", "03", "2"]) == [17, 3, 2] && DigitGroups(["17", "03", "2"])
  {
  }

  /** A dot may also separate the release from its marker: 1.2.rc1 is 1.2rc1. */
  lemma DotSeparatedMarker()
    ensures Gives(Parse, "1.2.rc1", Some(Version([1, 2], Some(PreRelease(Candidate, 1)))))
  {
    assert DropSeparator(".rc1") == "rc1";
    PhasePrefixOfText(PreRelease(Candidate, 1));
    assert PhaseText(Candidate) + ToText(1) == "rc1";
    assert DropSeparator("rc1"[2..]) == "1";
    assert "1.2.rc1" == JoinGroups(["1", "2"]) + ".rc1";
    assert GroupValues(["1", "2"]) == [1, 2];
    ParseOfGroups(["1", "2"], ".rc1");
  }

  /** The dash before the marker is a separator and is dropped. */
  lemma Tag0Parses()
    ensures Gives(Parse, "17.03.2-rc1", Some(Version([17, 3, 2], Some(PreRelease(Candidate, 1)))))
  {
    RcMarker();
    RcGroups();
    ParseOfGroups(["17", "03", "2"], "-rc1");
  }

  /** The leading zero of 03 is read away. */
  lemma Tag1Parses()
    ensures Gives(Parse, "17.03.1", Some(Version([17, 3, 1], None)))
  {
    assert "17.03.1" == JoinGroups(["17", "03", "1"]) && GroupValues(["17", "03", "1"]) == [17, 3, 1];
    ParseRelease(["17", "03", "1"]);
  }

  lemma FoobarMarker()
    ensures ParsePre("-foobar") == None
  {
    assert DropSeparator("-foobar") == "foobar";
    var t := "foobar";
    assert t[0] == 'f';
    PrefixDiffers(t, "alpha", 0);
    PrefixDiffers(t, "a", 0);
    PrefixDiffers(t, "beta", 0);
    PrefixDiffers(t, "b", 0);
    PrefixDiffers(t, "preview", 0);
    PrefixDiffers(t, "pre", 0);
    PrefixDiffers(t, "rc", 0);
    PrefixDiffers(t, "c", 0);
  }

  /** foobar is no pre-release marker, so the tag is not a version. */
  lemma Tag2Parses()
    ensures Gives(Parse, "2.1-foobar", None)
  {
    FoobarMarker();
    assert "2.1-foobar" == JoinGroups(["2", "1"]) + "-foobar";
    assert DigitGroups(["2", "1"]);
    ParseOfGroups(["2", "1"], "-foobar");
  }

  lemma Render3()
    ensures Render(Version([2, 0, 1], None)) == "2.0.1"
  {
  }

  lemma Tag3Parses()
    ensures Gives(Parse, "2.0.1", Some(Version([2, 0, 1], None)))
  {
    Render3();
    GivesCanonical(Version([2, 0, 1], None), "2.0.1");
  }

  lemma Render4()
    ensures Render(Version([2], None)) == "2"
  {
  }

  lemma Tag4Parses()
    ensures Gives(Parse, "2", Some(Version([2], None)))
  {
    Render4();
    GivesCanonical(Version([2], None), "2");
  }

  lemma Render5()
    ensures Render(Version([1, 2], None)) == "1.2"
  {
  }

  lemma Tag5Parses()
    ensures Gives(Parse, "v1.2", Some(Version([1, 2], None)))
  {
    Render5();
    assert "v1.2" == "v" + "1.2";
    GivesCanonicalV(Version([1, 2], None), "1.2", "v1.2");
  }

  lemma Render6()
    ensures Render(Version([1, 1], None)) == "1.1"
  {
  }

  lemma Tag6Parses()
    ensures Gives(Parse, "v1.1", Some(Version([1, 1], None)))
  {
    Render6();
    assert "v1.1" == "v" + "1.1";
    GivesCanonicalV(Version([1, 1], None), "1.1", "v1.1");
  }

  lemma Render7()
    ensures Render(Version([1], None)) == "1"
  {
  }

  lemma Tag7Parses()
    ensures Gives(Parse, "v1", Some(Version([1], None)))
  {
    Render7();
    assert "v1" == "v" + "1";
    GivesCanonicalV(Version([1], None), "1", "v1");
  }

  lemma Render8()
    ensures Render(Version([0, 2, 1], None)) == "0.2.1"
  {
  }

  lemma Tag8Parses()
    ensures Gives(Parse, "v0.2.1", Some(Version([0, 2, 1], None)))
  {
    Render8();
    assert "v0.2.1" == "v" + "0.2.1";
    GivesCanonicalV(Version([0, 2, 1], None), "0.2.1", "v0.2.1");
  }

  lemma Render9()
    ensures Render(Version([0, 2], None)) == "0.2"
  {
  }

  lemma Tag9Parses()
    ensures Gives(Parse, "v0.2", Some(Version([0, 2], None)))
  {
    Render9();
    assert "v0.2" == "v" + "0.2";
    GivesCanonicalV(Version([0, 2], None), "0.2", "v0.2");
  }

  lemma Render10()
    ensures Render(Version([0, 1, 0], None)) == "0.1.0"
  {
  }

  lemma Tag10Parses()
    ensures Gives(Parse, "0.1.0", Some(Version([0, 1, 0], None)))
  {
    Render10();
    GivesCanonical(Version([0, 1, 0], None), "0.1.0");
  }

  lemma Tag11Parses()
    ensures Gives(Parse, "not a version", None)
  {
  }

  // ---------------------------------------------------------------- the stream

  // The tags again, as the suffixes the stream walks through, and the versions of those suffixes.
  const TagsFrom12: seq<string> := []
  const TagsFrom11: seq<string> := ["not a version"] + TagsFrom12
  const TagsFrom10: seq<string> := ["0.1.0"] + TagsFrom11
  const TagsFrom9: seq<string> := ["v0.2"] + TagsFrom10
  const TagsFrom8: seq<string> := ["v0.2.1"] + TagsFrom9
  const TagsFrom7: seq<string> := ["v1"] + TagsFrom8
  const TagsFrom6: seq<string> := ["v1.1"] + TagsFrom7
  const TagsFrom5: seq<string> := ["v1.2"] + TagsFrom6
  const TagsFrom4: seq<string> := ["2"] + TagsFrom5
  const TagsFrom3: seq<string> := ["2.0.1"] + TagsFrom4
  const TagsFrom2: seq<string> := ["2.1-foobar"] + TagsFrom3
  const TagsFrom1: seq<string> := ["17.03.1"] + TagsFrom2
  const TagsFrom0: seq<string> := ["17.03.2-rc1"] + TagsFrom1
  const ParsedFrom10: seq<Version> := []
  const ParsedFrom9: seq<Version> := [Version([0, 1, 0], None)] + ParsedFrom10
  const ParsedFrom8: seq<Version> := [Version([0, 2], None)] + ParsedFrom9
  const ParsedFrom7: seq<Version> := [Version([0, 2, 1], None)] + ParsedFrom8
  const ParsedFrom6: seq<Version> := [Version([1], None)] + ParsedFrom7
  const ParsedFrom5: seq<Version> := [Version([1, 1], None)] + ParsedFrom6
  const ParsedFrom4: seq<Version> := [Version([1, 2], None)] + ParsedFrom5
  const ParsedFrom3: seq<Version> := [Version([2], None)] + ParsedFrom4
  const ParsedFrom2: seq<Version> := [Version([2, 0, 1], None)] + ParsedFrom3
  const ParsedFrom1: seq<Version> := [Version([17, 3, 1], None)] + ParsedFrom2
  const ParsedFrom0: seq<Version> := [Version([17, 3, 2], Some(PreRelease(Candidate, 1)))] + ParsedFrom1

  /** A tag that parses puts its version in front of the rest's. */
  lemma TagKept(t: string, rest: seq<string>, parse: string -> Option<Version>, v: Version, vs: seq<Version>)
    requires TagVersions(rest, NormalizerOrIdentity(None), parse) == vs && Gives(parse, t, Some(v))
    ensures TagVersions([t] + rest, NormalizerOrIdentity(None), parse) == [v] + vs
  {
    assert ([t] + rest)[1..] == rest;
  }

  /** A tag that does not parse adds nothing. */
  lemma TagDropped(t: string, rest: seq<string>, parse: string -> Option<Version>, vs: seq<Version>)
    requires TagVersions(rest, NormalizerOrIdentity(None), parse) == vs && Gives(parse, t, None)
    ensures TagVersions([t] + rest, NormalizerOrIdentity(None), parse) == vs
  {
    assert ([t] + rest)[1..] == rest;
  }

  /** The parser gives each of the twelve tags its outcome. */
  predicate OutcomesOf(parse: string -> Option<Version>) {
    && Gives(parse, "17.03.2-rc1", Some(Version([17, 3, 2], Some(PreRelease(Candidate, 1)))))
    && Gives(parse, "17.03.1", Some(Version([17, 3, 1], None)))
    && Gives(parse, "2.1-foobar", None)
    && Gives(parse, "2.0.1", Some(Version([2, 0, 1], None)))
    && Gives(parse, "2", Some(Version([2], None)))
    && Gives(parse, "v1.2", Some(Version([1, 2], None)))
    && Gives(parse, "v1.1", Some(Version([1, 1], None)))
    && Gives(parse, "v1", Some(Version([1], None)))
    && Gives(parse, "v0.2.1", Some(Version([0, 2, 1], None)))
    && Gives(parse, "v0.2", Some(Version([0, 2], None)))
    && Gives(parse, "0.1.0", Some(Version([0, 1, 0], None)))
    && Gives(parse, "not a version", None)
  }

  lemma ParseOutcomes()
    ensures OutcomesOf(Parse)
  {
    Tag0Parses();
    Tag1Parses();
    Tag2Parses();
    Tag3Parses();
    Tag4Parses();
    Tag5Parses();
    Tag6Parses();
    Tag7Parses();
    Tag8Parses();
    Tag9Parses();
    Tag10Parses();
    Tag11Parses();
  }

  /** Without a normaliser the stream drops 2.1-foobar and "not a version" and keeps the rest in provider order. */
  lemma TagStream(parse: string -> Option<Version>)
    requires OutcomesOf(parse)
    ensures TagVersions(Tags, NormalizerOrIdentity(None), parse) == Parsed
  {
    assert TagVersions(TagsFrom12, NormalizerOrIdentity(None), parse) == ParsedFrom10;
    TagDropped("not a version", TagsFrom12, parse, ParsedFrom10);
    TagKept("0.1.0", TagsFrom11, parse, Version([0, 1, 0], None), ParsedFrom10);
    TagKept("v0.2", TagsFrom10, parse, Version([0, 2], None), ParsedFrom9);
    TagKept("v0.2.1", TagsFrom9, parse, Version([0, 2, 1], None), ParsedFrom8);
    TagKept("v1", TagsFrom8, parse, Version([1], None), ParsedFrom7);
    TagKept("v1.1", TagsFrom7, parse, Version([1, 1], None), ParsedFrom6);
    TagKept("v1.2", TagsFrom6, parse, Version([1, 2], None), ParsedFrom5);
    TagKept("2", TagsFrom5, parse, Version([2], None), ParsedFrom4);
    TagKept("2.0.1", TagsFrom4, parse, Version([2, 0, 1], None), ParsedFrom3);
    TagDropped("2.1-foobar", TagsFrom3, parse, ParsedFrom2);
    TagKept("17.03.1", TagsFrom2, parse, Version([17, 3, 1], None), ParsedFrom2);
    TagKept("17.03.2-rc1", TagsFrom1, parse, Version([17, 3, 2], Some(PreRelease(Candidate, 1))), ParsedFrom1);
  }

  /** The PEP 440 parser is such a parser: the stream of the twelve tags is the ten versions. */
  lemma ParsedTagStream()
    ensures TagVersions(Tags, NormalizerOrIdentity(None), Parse) == Parsed
  {
    ParseOutcomes();
    TagStream(Parse);
  }

  const VerseUrl := "https://github.com/pawelad/verse"

  lemma VerseUrlNamesVerse()
    ensures RepoFromUrl(VerseUrl) == Ok(RepoId("pawelad", "verse"))
  {
    assert VerseUrl == GitHubPrefix + "pawelad" + "/" + "verse";
    RepoFromUrlComplete("pawelad", "verse");
  }

  /**
   * _get_github_tags on https://github.com/pawelad/verse asks the provider for
   * pawelad/verse and yields the parsed tags; with no URL and that URL as the
   * checker's repository it yields the same.
   */
  lemma VerseFetch(repository: string, tagsOf: RepoId -> seq<string>)
    requires tagsOf(RepoId("pawelad", "verse")) == Tags
    ensures GitHubTags(Some(VerseUrl), repository, None, tagsOf, Parse) == Ok(Fetch(RepoId("pawelad", "verse"), Parsed))
    ensures GitHubTags(None, VerseUrl, None, tagsOf, Parse) == Ok(Fetch(RepoId("pawelad", "verse"), Parsed))
  {
    VerseUrlNamesVerse();
    ParsedTagStream();
    DefaultUrlIsRepository(VerseUrl, None, tagsOf, Parse);
  }

  /** A URL outside GitHub fails before the provider is asked, whatever it would answer. */
  lemma NonGitHubUrlRefused(repository: string, normalize: Option<string -> string>,
                            tagsOf: RepoId -> seq<string>, parse: string -> Option<Version>)
    ensures GitHubTags(Some("http://example.com"), repository, normalize, tagsOf, parse) == Err(InvalidRepositoryUrl)
  {
    var url := "http://example.com";
    assert url[4] != GitHubPrefix[4];
    assert !HasPrefix(url, GitHubPrefix);
  }

  /** Each parsed version is the expected one, as versions compare: 2 is 2.0 and v1 is v1.0. */
  lemma ParsedAsExpected()
    ensures |Parsed| == |Expected|
    ensures forall i | 0 <= i < |Parsed| :: Equivalent(Parsed[i], Expected[i])
  {
    ZeroPaddingEquivalent([2], None);
    ZeroPaddingEquivalent([1], None);
    forall i | 0 <= i < |Parsed| && i != 3 && i != 6 ensures Equivalent(Parsed[i], Expected[i]) {
      assert Parsed[i] == Expected[i];
      CompareReflexive(Parsed[i]);
    }
  }
}

