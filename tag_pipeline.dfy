/**
 * GitHubVersionChecker._get_github_tags: check that the repository URL is a
 * GitHub URL, ask the hosting provider for that repository's tags, normalise
 * each tag name, parse it as a version and silently drop the tags that do not
 * parse, keeping the provider's order. The provider and the parser are
 * parameters: the provider is the network, the parser a foreign library.
 */
module TagPipeline {
  import opened Results
  import opened Strings
  import opened Versions

  datatype RepoId = RepoId(owner: string, repo: string)

  const GitHubPrefix := "https://github.com/"

  /** A non-empty path segment: no slash inside. */
  predicate IsSegment(s: string) {
    s != [] && forall i | 0 <= i < |s| :: s[i] != '/'
  }

  /** The index of the first slash in s, or |s| when there is none. */
  function SlashIndex(s: string): (i: nat)
    ensures i <= |s|
    ensures forall j | 0 <= j < i :: s[j] != '/'
    ensures i < |s| ==> s[i] == '/'
  {
    if s == [] || s[0] == '/' then 0 else 1 + SlashIndex(s[1..])
  }

  /** The owner and repository a URL of the form https://github.com/<owner>/<repo> names. */
  function RepoFromUrl(url: string): (r: Result<RepoId>)
    ensures r.Err? ==> r.error == InvalidRepositoryUrl
    ensures r.Ok? ==> IsSegment(r.value.owner) && IsSegment(r.value.repo)
    ensures r.Ok? ==> url == GitHubPrefix + r.value.owner + "/" + r.value.repo
  {
    if !HasPrefix(url, GitHubPrefix) then Err(InvalidRepositoryUrl)
    else
      var path := url[|GitHubPrefix|..];
      var i := SlashIndex(path);
      if i == |path| then Err(InvalidRepositoryUrl)
      else
        var owner, repo := path[..i], path[i + 1..];
        if IsSegment(owner) && IsSegment(repo) then
          UrlRejoins(url, i);
          Ok(RepoId(owner, repo))
        else Err(InvalidRepositoryUrl)
  }

  /** A GitHub URL is its prefix, the path up to a slash, the slash and the rest. */
  lemma UrlRejoins(url: string, i: nat)
    requires HasPrefix(url, GitHubPrefix)
    requires i < |url[|GitHubPrefix|..]| && url[|GitHubPrefix|..][i] == '/'
    ensures url == GitHubPrefix + url[|GitHubPrefix|..][..i] + "/" + url[|GitHubPrefix|..][i + 1..]
  {
    var path := url[|GitHubPrefix|..];
    assert path == path[..i] + "/" + path[i + 1..];
    assert url == url[..|GitHubPrefix|] + path;
  }

  /** Every GitHub repository URL is accepted and names its own owner and repository. */
  lemma RepoFromUrlComplete(owner: string, repo: string)
    requires IsSegment(owner) && IsSegment(repo)
    ensures RepoFromUrl(GitHubPrefix + owner + "/" + repo) == Ok(RepoId(owner, repo))
  {
    var url := GitHubPrefix + owner + "/" + repo;
    var path := owner + "/" + repo;
    assert url[..|GitHubPrefix|] == GitHubPrefix;
    assert url[|GitHubPrefix|..] == path;
    SlashIndexOfSegment(owner, repo);
    assert path[..|owner|] == owner;
    assert path[|owner| + 1..] == repo;
  }

  lemma {:induction false} SlashIndexOfSegment(owner: string, rest: string)
    requires forall i | 0 <= i < |owner| :: owner[i] != '/'
    ensures SlashIndex(owner + "/" + rest) == |owner|
    decreases |owner|
  {
    if owner != [] {
      assert (owner + "/" + rest)[1..] == owner[1..] + "/" + rest;
      SlashIndexOfSegment(owner[1..], rest);
    }
  }

  // ---------------------------------------------------------------- the tag stream

  /** Normalise, parse, skip failures: the versions the tags denote, in provider order. */
  function TagVersions(tags: seq<string>, normalize: string -> string, parse: string -> Option<Version>): (vs: seq<Version>)
    ensures |vs| <= |tags|
  {
    if tags == [] then []
    else
      var head := parse(normalize(tags[0]));
      (if head.Some? then [head.value] else []) + TagVersions(tags[1..], normalize, parse)
  }

  /** The positions of the tags that parse, in ascending order. */
  function Kept(tags: seq<string>, normalize: string -> string, parse: string -> Option<Version>): seq<nat> {
    if tags == [] then []
    else
      var n := |tags| - 1;
      Kept(tags[..n], normalize, parse) + if parse(normalize(tags[n])).Some? then [n] else []
  }

  /** Tags are handled one at a time: the versions of a concatenation concatenate. */
  lemma {:induction false} TagVersionsAppend(a: seq<string>, b: seq<string>, normalize: string -> string, parse: string -> Option<Version>)
    ensures TagVersions(a + b, normalize, parse) == TagVersions(a, normalize, parse) + TagVersions(b, normalize, parse)
    decreases |a|
  {
    if a != [] {
      assert (a + b)[1..] == a[1..] + b;
      TagVersionsAppend(a[1..], b, normalize, parse);
    } else {
      assert a + b == b;
    }
  }

  /** The kept positions are in range, ascending, and exactly the tags that parse. */
  lemma {:induction false} KeptPositions(tags: seq<string>, normalize: string -> string, parse: string -> Option<Version>)
    ensures forall j | 0 <= j < |Kept(tags, normalize, parse)| :: Kept(tags, normalize, parse)[j] < |tags|
    ensures forall j, j' | 0 <= j < j' < |Kept(tags, normalize, parse)| ::
      Kept(tags, normalize, parse)[j] < Kept(tags, normalize, parse)[j']
    ensures forall i | 0 <= i < |tags| :: parse(normalize(tags[i])).Some? <==> i in Kept(tags, normalize, parse)
    decreases |tags|
  {
    if tags != [] {
      var n := |tags| - 1;
      var init := tags[..n];
      KeptPositions(init, normalize, parse);
      assert forall i | 0 <= i < n :: init[i] == tags[i];
    }
  }

  /** One more tag adds its version at the end, if it parses. */
  lemma TagVersionsSnoc(init: seq<string>, t: string, normalize: string -> string, parse: string -> Option<Version>)
    ensures TagVersions(init + [t], normalize, parse) ==
      TagVersions(init, normalize, parse) + if parse(normalize(t)).Some? then [parse(normalize(t)).value] else []
  {
    TagVersionsAppend(init, [t], normalize, parse);
    assert [t][1..] == [];
  }

  /** The j-th version of the stream is the parse of the tag at the j-th kept position. */
  lemma {:induction false} KeptVersions(tags: seq<string>, normalize: string -> string, parse: string -> Option<Version>)
    ensures |TagVersions(tags, normalize, parse)| == |Kept(tags, normalize, parse)|
    ensures forall j | 0 <= j < |Kept(tags, normalize, parse)| ::
      Kept(tags, normalize, parse)[j] < |tags| &&
      parse(normalize(tags[Kept(tags, normalize, parse)[j]])) == Some(TagVersions(tags, normalize, parse)[j])
    decreases |tags|
  {
    if tags != [] {
      var n := |tags| - 1;
      var init := tags[..n];
      KeptVersions(init, normalize, parse);
      assert init + [tags[n]] == tags;
      TagVersionsSnoc(init, tags[n], normalize, parse);
      var kept, vs := Kept(tags, normalize, parse), TagVersions(tags, normalize, parse);
      var kept0, vs0 := Kept(init, normalize, parse), TagVersions(init, normalize, parse);
      forall j | 0 <= j < |kept|
        ensures kept[j] < |tags| && parse(normalize(tags[kept[j]])) == Some(vs[j])
      {
        if j < |kept0| {
          assert kept[j] == kept0[j] && vs[j] == vs0[j] && init[kept0[j]] == tags[kept0[j]];
        }
      }
    }
  }

  /**
   * The stream keeps provider order and drops exactly the tags that fail to
   * parse: its j-th version is the parse of the j-th tag that parses.
   */
  lemma TagVersionsSelects(tags: seq<string>, normalize: string -> string, parse: string -> Option<Version>)
    ensures |TagVersions(tags, normalize, parse)| == |Kept(tags, normalize, parse)|
    ensures forall j | 0 <= j < |Kept(tags, normalize, parse)| ::
      Kept(tags, normalize, parse)[j] < |tags| &&
      parse(normalize(tags[Kept(tags, normalize, parse)[j]])) == Some(TagVersions(tags, normalize, parse)[j])
    ensures forall j, j' | 0 <= j < j' < |Kept(tags, normalize, parse)| ::
      Kept(tags, normalize, parse)[j] < Kept(tags, normalize, parse)[j']
    ensures forall i | 0 <= i < |tags| :: parse(normalize(tags[i])).Some? <==> i in Kept(tags, normalize, parse)
  {
    KeptPositions(tags, normalize, parse);
    KeptVersions(tags, normalize, parse);
  }

  /** A consumer that stops after a prefix of the tags has seen a prefix of the versions. */
  lemma TagVersionsPrefix(tags: seq<string>, k: nat, normalize: string -> string, parse: string -> Option<Version>)
    requires k <= |tags|
    ensures TagVersions(tags[..k], normalize, parse) <= TagVersions(tags, normalize, parse)
  {
    assert tags[..k] + tags[k..] == tags;
    TagVersionsAppend(tags[..k], tags[k..], normalize, parse);
  }

  /** No normaliser means the tag names are parsed as they are. */
  function NormalizerOrIdentity(normalize: Option<string -> string>): string -> string {
    if normalize.Some? then normalize.value else (s: string) => s
  }

  datatype Fetch = Fetch(repo: RepoId, versions: seq<Version>)

  /**
   * _get_github_tags(github_url, normalize_func): the URL defaults to the
   * checker's own repository; an invalid URL fails before the provider is
   * asked; otherwise the provider is asked once, for the owner and
   * repository the URL names, and its tags go through the stream.
   */
  function GitHubTags(url: Option<string>, repository: string, normalize: Option<string -> string>,
                      tagsOf: RepoId -> seq<string>, parse: string -> Option<Version>): (r: Result<Fetch>)
    ensures r.Err? ==> r.error == InvalidRepositoryUrl
    ensures r.Err? <==> RepoFromUrl(if url.Some? then url.value else repository).Err?
    ensures r.Ok? ==>
      Ok(r.value.repo) == RepoFromUrl(if url.Some? then url.value else repository) &&
      r.value.versions == TagVersions(tagsOf(r.value.repo), NormalizerOrIdentity(normalize), parse)
  {
    var target := if url.Some? then url.value else repository;
    match RepoFromUrl(target)
    case Err(e) => Err(e)
    case Ok(id) => Ok(Fetch(id, TagVersions(tagsOf(id), NormalizerOrIdentity(normalize), parse)))
  }

  /** Without an explicit URL the checker's repository is used, with the same result. */
  lemma DefaultUrlIsRepository(repository: string, normalize: Option<string -> string>,
                               tagsOf: RepoId -> seq<string>, parse: string -> Option<Version>)
    ensures GitHubTags(None, repository, normalize, tagsOf, parse) == GitHubTags(Some(repository), repository, normalize, tagsOf, parse)
  {
  }
}
