# verse: version selection and GitHub tag reading

verse is a Django service that reports the latest versions of open-source
projects. Each project has a *checker*. A checker's `get_versions` returns
the project's versions; the GitHub-based checkers keep the order in which
GitHub lists the tags. Three selectors on the base checker reduce them:

- `get_latest_version` gives the latest final release as text;
- `get_latest_major_versions` gives the latest release of each major line;
- `get_latest_minor_versions` gives the latest release of each "major.minor" line.

In the model, the two grouping selectors demand input sorted newest first
and refuse input in which some version is above the one before it (see
"## Left out" for how much of that rule the sources fix). All three
report that no versions were found when there is no final release.
The GitHub checker reads a repository's tags through `_get_github_tags`,
which works in four steps:

1. It checks that the URL is a GitHub repository URL. The model's rule for
   that is `https://github.com/<owner>/<repo>` exactly (see "## Left out").
2. It asks GitHub for that repository's tags.
3. It normalises each tag name and parses it as a version.
4. It drops the names that do not parse.

The Go and Docker checkers pass normalisers that strip `go` or every `-ce`.
The Kubernetes checker reads its tags as they are. Computed answers are
cached under storage keys made from the project name and a fixed suffix.

The Dafny modules follow that structure:

- `Versions` holds the version values and their ordering. Release
  segments compare with zero padding, so 1.0 == 1.0.0, and a pre-release
  sorts below its release. It also defines the canonical text and the
  group keys.
- `Pep440` parses the subset of version syntax the tags use.
- `Selection` holds the three selectors. The grouping scan is a `method`
  with a loop, proved against a reference fold `GreatestByKey`.
- `TagPipeline` holds URL checking and the tag stream.
- `Normalizers` holds the two tag-name normalisers.
- `Checkers` holds each checker's `get_versions`.
- `StorageKeys` holds the cache keys.
- `Fixtures` and `TagFixtures` instantiate the model on the version list
  and the tag list of tests/checkers/test_base.py and prove the outcomes
  that file asserts.

The base checker's own source (checkers/base.py) is not part of this model.
The selectors, `get_versions` and `_get_github_tags` are modelled from the
behaviour tests/checkers/test_base.py pins down, and the model follows that
file. Where that file leaves a case open, the choice the model makes is
listed under "## Left out".

## Model

| member | source | states |
|---|---|---|
| Selection.Latest | tests/checkers/test_base.py:58-65 | Fails with NoVersionsFound exactly when there is no final release. Otherwise it renders a final release at or above every final release in the input, so pre-releases are skipped. Among level releases (2 and 2.0) it renders the earliest in the input, as Python's max does. |
| Selection.GreatestReleaseIsFirstGreatest | tests/checkers/test_base.py:58-65 | The greatest release is strictly above every final release that comes before it in the input. |
| Selection.LatestOrderIndependent | tests/checkers/test_base.py:58-65 | Two inputs holding the same versions in any order pick equivalent latest releases, and they either both find one or both do not. |
| Selection.DescendingGreatestIsFirst | tests/checkers/test_base.py:22-25 | On input sorted newest first, the greatest final release is the first final release. |
| Selection.GreatestReleaseIsGreatest | tests/checkers/test_base.py:58-65 | A greatest release exists exactly when the input holds a final release, and it is one of the input's final releases with none above it. |
| Selection.GroupScan | tests/checkers/test_base.py:67-117 | The single scan fails with UnsortedVersions exactly when some version is above its predecessor. Otherwise it returns, for every group key, the rendered reference group maximum. |
| Selection.LatestGrouped | tests/checkers/test_base.py:67-117 | Fails exactly when the input is unsorted (UnsortedVersions) or, sorted, holds no final release (NoVersionsFound). Otherwise it returns, for every group key, the rendered reference group maximum. |
| Selection.LatestMajorVersions | tests/checkers/test_base.py:67-89 | get_latest_major_versions refuses unsorted input, and sorted input without a final release finds no versions. Otherwise it maps each major key to the rendered latest release of that major line. |
| Selection.LatestMinorVersions | tests/checkers/test_base.py:91-117 | get_latest_minor_versions refuses unsorted input, and sorted input without a final release finds no versions. Otherwise it maps each "major.minor" key to the rendered latest release of that line. |
| Selection.GreatestByKeyEmpty | tests/checkers/test_base.py:67-117 | The grouped result is empty exactly when the input holds no final release. |
| Selection.GreatestByKeyKeys | tests/checkers/test_base.py:74-78 | A key appears in the grouped result exactly when some final release of the input has it, so pre-releases open no group. |
| Selection.GreatestByKeyValue | tests/checkers/test_base.py:98-106 | The version under a key is a final release of the input with that key, and no release with that key is above it. |
| Selection.RecordFirstSeenCommute | tests/checkers/test_base.py:67-117 | Keeping a group's maximum and keeping the first release seen in descending order agree, one version at a time. |
| Selection.GreatestByKeySnoc | tests/checkers/test_base.py:67-117 | On descending input, appending a version changes the reference fold the way the scan's first-seen update does, which ties the scan to the maximum. |
| Selection.DescendingArrangementUnique | tests/checkers/test_base.py:80-89 | When no two versions are level, the only arrangement of them that is sorted newest first is the descending one. So every other shuffle is refused. |
| Selection.DescendingRearrangementIsSame | tests/checkers/test_base.py:108-117 | Two descending arrangements of the same strictly descending versions are equal. |
| Selection.RenderAllUpdate | tests/checkers/test_base.py:74-78 | Rendering a map after adding a key equals adding that key's rendered version to the rendered map. |
| Versions.Compare | tests/checkers/test_base.py:22-25 | The version order: the result is -1, 0 or 1 and a version is level with itself. `CompareTotal`, `CompareTransitive` and `CompareAntisymmetric` make it a total preorder, `ZeroPaddingEquivalent` makes 1.0 level with 1.0.0, and `PreReleaseBelowRelease` puts a pre-release below its release. |
| Versions.Render | tests/checkers/test_base.py:65 | str(version): the canonical text of a version with a release starts with a digit, and `Pep440.ParseRender` reads it back as the same version. |
| Versions.MajorKey | tests/checkers/test_base.py:74-78 | The major-line key is a non-empty run of digits. By `MajorKeyExact`, two versions share it exactly when their major numbers agree. |
| Versions.MinorKey | tests/checkers/test_base.py:98-106 | The minor-line key is the major-line key, a dot and more. By `MinorKeyExact`, two versions share it exactly when major and minor numbers agree. |
| Versions.CompareTotal | tests/checkers/test_base.py:22-25 | Any two versions are comparable, and "not below" coincides with "at or above". |
| Versions.CompareTransitive | tests/checkers/test_base.py:22-25 | Version order is transitive. |
| Versions.CompareAntisymmetric | tests/checkers/test_base.py:22-25 | Comparing in the other direction flips the sign of the result. |
| Versions.ZeroPaddingEquivalent | tests/checkers/test_base.py:161-165 | A trailing zero segment does not change a version, so 2 compares equal to 2.0. |
| Versions.PreReleaseBelowRelease | tests/checkers/test_base.py:22-25 | A pre-release such as 17.3.2rc1 sorts below its final release, 17.3.2. |
| Versions.MajorKeyExact | tests/checkers/test_base.py:74-78 | Two versions share a major key if and only if they have the same major number. |
| Versions.MinorKeyExact | tests/checkers/test_base.py:98-106 | Two versions share a minor key if and only if they have the same major and minor numbers. |
| Decimal.ToTextInjective | tests/checkers/test_base.py:74-78 | Distinct numbers have distinct decimal texts, so group keys never collide. |
| Pep440.Parse | tests/checkers/test_base.py:142-165 | Version(s): a parsed version always has a release. `ParseRender` reads every canonical text back, `ParseOfGroups` gives the value of a tag written as digit groups and a marker, and `LeadingVIgnored` drops a leading v. |
| Pep440.ParseRender | tests/checkers/test_base.py:161-165 | Parsing a version's canonical text gives back that version. |
| Pep440.ParseOfGroups | tests/checkers/test_base.py:142-145 | A tag made of dot-separated digit groups, followed by a tail that does not continue the release (no leading digit and no dot followed by a digit), parses to the groups' values and the tail's pre-release marker. It fails when the tail is not a marker. Leading zeros are dropped, so 17.03.1 parses to 17.3.1. |
| TagFixtures.DotSeparatedMarker | tests/checkers/test_base.py:143 | A dot may separate the release from its marker as a dash does: 1.2.rc1 parses to 1.2rc1. |
| Pep440.LeadingVIgnored | tests/checkers/test_base.py:143-144 | A leading v does not change the parse, so v1.2 and 1.2 are the same version. |
| TagPipeline.RepoFromUrl | tests/checkers/test_base.py:134-136 | Any URL other than https://github.com/owner/repo, with both parts non-empty and slash-free, is refused with InvalidRepositoryUrl. An accepted URL is rebuilt exactly from the owner and repository it yields. |
| TagPipeline.RepoFromUrlComplete | tests/checkers/test_base.py:155-157 | Every well-formed GitHub URL is accepted and names its own owner and repository. |
| TagPipeline.TagVersions | tests/checkers/test_base.py:142-165 | The normalise, parse and skip stream of `_get_github_tags`: never longer than the tag list. `TagVersionsSelects` states which tags it keeps and in what order, and `TagVersionsAppend` that it treats the tags one at a time. |
| TagPipeline.TagVersionsSelects | tests/checkers/test_base.py:142-165 | The stream's j-th version is the parse of the j-th tag that parses. The kept positions ascend, so provider order is kept, and a tag is kept if and only if its normalised name parses. |
| TagPipeline.TagVersionsAppend | tests/checkers/test_base.py:146-153 | Tags are handled one at a time: the stream of a concatenation is the concatenation of the streams. |
| TagPipeline.TagVersionsPrefix | tests/checkers/test_base.py:155-160 | A consumer that stops after some tags has seen a prefix of the full stream. |
| TagPipeline.GitHubTags | tests/checkers/test_base.py:132-180 | Of an explicit URL or, by default, the checker's repository: the call fails with InvalidRepositoryUrl exactly when that URL is refused. Otherwise the provider is asked for the repository the URL names, and the result is the normalised, parsed stream of its tags. |
| TagPipeline.DefaultUrlIsRepository | tests/checkers/test_base.py:172-174 | With no URL, the result equals passing the checker's repository explicitly. |
| Checkers.GetVersions | tests/checkers/test_base.py:53-56 | The base checker fails with NotImplemented. Every other checker fails exactly when its repository URL is refused, and otherwise returns the stream of its own repository's tags under its own normaliser. |
| Checkers.CheckerLatest | tests/checkers/test_base.py:53-65 | get_latest_version over a checker's own get_versions. The base checker gives NotImplemented and a refused URL gives InvalidRepositoryUrl. Otherwise the result is NoVersionsFound exactly when the fetched versions hold no release, else the rendering of a greatest fetched release. |
| Checkers.CheckerLatestGrouped | tests/checkers/test_base.py:67-117 | get_latest_major_versions and get_latest_minor_versions over a checker's own get_versions. The fetch errors pass through. On the fetched versions: UnsortedVersions when they are not descending, NoVersionsFound when they hold no release, otherwise the rendered greatest release of every group. |
| Checkers.GitHubDelegates | tests/checkers/test_base.py:182-190 | The GitHub checker's get_versions is the tag pipeline called with no URL and no normaliser. |
| Checkers.GoVersions | verse/checkers/projects/go.py:8-35 | The Go checker reads golang/go and passes every tag through the Go normaliser. |
| Checkers.DockerVersions | verse/checkers/projects/go.py:38-68 | The Docker checker reads docker/docker and passes every tag through the Docker normaliser. |
| Checkers.KubernetesVersions | verse/checkers/projects/go.py:71-83 | The Kubernetes checker reads kubernetes/kubernetes and parses the tag names unchanged. |
| Normalizers.RemovePrefix | verse/checkers/projects/go.py:29 | A string that starts with the prefix is the prefix followed by the result. Any other string is returned unchanged. |
| Normalizers.GoNormalize | verse/checkers/projects/go.py:16-29 | A tag that starts with "go" is "go" followed by the result. Any other tag is left as it is. |
| Normalizers.GoExample | verse/checkers/projects/go.py:21-22 | go1.8 normalises to 1.8. |
| Normalizers.GoWithoutPrefix | verse/checkers/projects/go.py:29 | A tag without the prefix, such as 1.8, is unchanged. |
| Normalizers.RemoveAll | verse/checkers/projects/go.py:60 | The result is shorter than the input by the length of the substring times its number of left-to-right, non-overlapping occurrences. Its content is fixed by RemoveAllAbsent and RemoveAllSplits. |
| Normalizers.RemoveAllSplits | verse/checkers/projects/go.py:59-60 | Replacing "-ce" by nothing cuts at every "-ce": on a + "-ce" + b the result is the cleaned a followed by the cleaned b, for every a and b. |
| Normalizers.CountZeroIffAbsent | verse/checkers/projects/go.py:59-60 | The occurrence count is zero if and only if the substring does not occur. |
| Normalizers.RemoveAllAbsent | verse/checkers/projects/go.py:59-62 | Removing a substring that does not occur leaves the name unchanged. |
| Normalizers.DockerNormalize | verse/checkers/projects/go.py:46-62 | Three characters are removed per occurrence of "-ce", and a name without "-ce" is returned unchanged. Its content is fixed by DockerSplits. |
| Normalizers.DockerSplits | verse/checkers/projects/go.py:59-62 | On a name a + "-ce" + b the normaliser returns the normalised a followed by the normalised b. Together with the unchanged case, this determines the result of every name. |
| Normalizers.DockerIsReplace | verse/checkers/projects/go.py:59-60 | The membership guard changes nothing: the result is always that of the replacement. |
| Normalizers.DockerShortens | verse/checkers/projects/go.py:59-62 | The Docker normaliser never lengthens a name, and it shortens exactly the names that contain "-ce". |
| Normalizers.DockerExample | verse/checkers/projects/go.py:51-52 | v17.03.0-ce normalises to v17.03.0. |
| Normalizers.DockerNotIdempotent | verse/checkers/projects/go.py:59-60 | A single pass is not a fixed point: --cece becomes -ce, which a second pass empties. |
| StorageKeys.KeyFor | verse/versions/utils.py:55-58 | An empty project name is refused. Any other name is followed by the suffix. |
| StorageKeys.LatestVersionKey | verse/versions/utils.py:46-58 | An empty project name raises. Otherwise the key is the name followed by _latest_version. |
| StorageKeys.LatestMajorVersionsKey | verse/versions/utils.py:61-73 | An empty project name raises. Otherwise the key is the name followed by _latest_major_versions. |
| StorageKeys.LatestMinorVersionsKey | verse/versions/utils.py:76-88 | An empty project name raises. Otherwise the key is the name followed by _latest_minor_versions. |
| StorageKeys.KeyForInjective | verse/versions/utils.py:58 | Two projects share a key of one kind if and only if they are the same project. |
| StorageKeys.KeysDistinct | verse/versions/utils.py:58-88 | The three keys of one project are pairwise distinct. |
| StorageKeys.KeysAvoidProjectList | verse/versions/utils.py:43-88 | No project's key is the key of the list of available projects. |
| Fixtures.SampleStrictlyDescending | tests/checkers/test_base.py:22-25 | Each version of the fixture list is strictly below the one before it. |
| Fixtures.SampleLatest | tests/checkers/test_base.py:58-65 | The latest version of the fixture list is 17.3.1. The release candidate 17.3.2rc1 is skipped. |
| Fixtures.SampleMajor | tests/checkers/test_base.py:74-78 | The reference group maxima of the fixture list by major line are 0.6.1, 1.3.1 and 17.3.1. |
| Fixtures.SampleMinor | tests/checkers/test_base.py:98-106 | The reference group maxima by minor line are the seven releases the minor selector reports. |
| Fixtures.SampleSelectors | tests/checkers/test_base.py:58-106 | On the sorted fixture list, the three selectors return 17.3.1 and exactly the major and minor maps that file asserts. |
| Fixtures.ShuffledSelectors | tests/checkers/test_base.py:80-89 | Every other arrangement of the fixture list makes both grouping selectors fail with UnsortedVersions. |
| Fixtures.EmptySelectors | tests/checkers/test_base.py:58-117 | With no versions at all, all three selectors fail with NoVersionsFound. |
| TagFixtures.ParseOutcomes | tests/checkers/test_base.py:142-145 | The parser accepts ten of the twelve fixture tags and refuses 2.1-foobar and "not a version". |
| TagFixtures.TagStream | tests/checkers/test_base.py:142-165 | For any parser with those outcomes, the stream of the twelve tags, without a normaliser, is the ten versions in provider order. |
| TagFixtures.ParsedTagStream | tests/checkers/test_base.py:160-165 | With the PEP 440 subset, the stream of the twelve tags is the ten parsed versions. |
| TagFixtures.VerseFetch | tests/checkers/test_base.py:155-174 | The pawelad/verse URL asks the provider for pawelad/verse and yields the ten versions. With that URL as the checker's repository and no explicit URL, the result is the same. |
| TagFixtures.NonGitHubUrlRefused | tests/checkers/test_base.py:134-136 | http://example.com fails with InvalidRepositoryUrl whatever the provider would answer. |
| TagFixtures.ParsedAsExpected | tests/checkers/test_base.py:161-165 | Each parsed version compares equal to the listed expected one: 2 is 2.0 and v1 is v1.0. |

## Left out

- checkers/base.py is not part of this model. Its three selectors, `get_versions` and `_get_github_tags` are modelled from the behaviour tests/checkers/test_base.py specifies, not from their code.
- checkers/utils.py (`remove_prefix`) is not part of this model. `RemovePrefix` takes it to strip one leading occurrence and to leave other names unchanged.
- The version parser of the `packaging` library is a foreign library. The pipeline takes the parser as a parameter. `Pep440.Parse` is a subset covering release segments, an optional leading v, and a/b/rc pre-releases with the separators `-`, `_` and `.`. It does not model post, dev or local releases, epochs, case-insensitivity or surrounding whitespace.
- The GitHub client (network access, `github_client.repository`, `iter_tags`) is a parameter `tagsOf` from owner and repository to tag names. A single call per fetch is modelled by `GitHubTags` using `tagsOf` once, not by call counting.
- TagPipeline.TagVersions: the result is a value, not a lazy generator. Laziness is reflected only by `TagVersionsPrefix`: a consumer that stops early has seen a prefix of the stream.
- Counting normaliser calls (tests/checkers/test_base.py:176-180) is not modelled. `TagVersions` applies the normaliser once per tag by construction.
- Mocking, `random.shuffle`, class abstraction and `__init__` attribute storage (tests/checkers/test_base.py:27-51) are left out. The shuffle is represented by every permutation of the sample other than the sample itself (`ShuffledSelectors`).
- Checker registration (`AVAILABLE_CHECKERS`, slug uniqueness), the project listing `get_projects` (verse/versions/utils.py:9-40), the Django views and URL routing are outside the modelled core.
- Versions.MinorKey: a version with a single release segment has minor number 0, so 1 is in line "1.0", as in the `packaging` library's `minor` attribute.
- Selection.Latest does not require sorted input. It takes the greatest final release, the first one where several are level. The tests pin neither choice.
- Selection.LatestGrouped: the tests in tests/checkers/test_base.py do not pin the answer for sorted input with no final release. The model has the grouping selectors report `NoVersionsFound` there, the same condition `Latest` reports, rather than an empty map.
- Selection.GroupScan: the refusal rule is the model's choice. The tests pin only that a shuffle of the 14 strictly descending fixture versions raises ValueError (tests/checkers/test_base.py:80-89, 108-117). The model compares every adjacent pair, pre-releases included, and lets level neighbours pass. So it refuses [1.0, 2.0rc1], while an implementation that drops pre-releases before its order check would accept it, and it accepts [2, 2.0]. Other choices the tests leave open are listed on their own lines: the tie-break of `Selection.Latest`, the URL grammar of `TagPipeline.RepoFromUrl`, the minor key of one-segment versions under `Versions.MinorKey`, and the no-final-release answer of `Selection.LatestGrouped`.
- TagPipeline.RepoFromUrl: the exact URL grammar is the model's choice. The source lines pin only that http://example.com is refused and that https://github.com/pawelad/verse names pawelad/verse. The model also refuses a trailing slash (https://github.com/pawelad/verse/), the http scheme (http://github.com/pawelad/verse), a www.github.com host and any deeper path. It keeps a .git suffix as part of the repository name. Whether checkers/base.py does the same is unknown.
- Checkers.GetVersions: the Go, Docker and Kubernetes checkers subclass `BaseVersionChecker` (verse/checkers/projects/go.py:8, 38, 71) but call `self._get_github_tags`, which the tests exercise on `GitHubVersionChecker` (tests/checkers/test_base.py:120-136). The model assumes the method is reachable from those checkers. If the base class does not provide it, their `get_versions` would raise AttributeError instead. checkers/base.py is not part of this model, so this cannot be settled here.
- Python exceptions are `Err` values of `Results.Error`: NotImplementedError becomes `NotImplemented`; the ValueErrors become `UnsortedVersions`, `InvalidRepositoryUrl` and `EmptyProjectName`; the empty case of the latest version becomes `NoVersionsFound`.
