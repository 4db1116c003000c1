/**
 * The project checkers and their get_versions: the abstract base checker
 * has none, the plain GitHub checker reads its repository's tags as they
 * are, and the Go, Docker and Kubernetes checkers read their own fixed
 * repositories, the first two through their tag-name normalisers.
 */
module Checkers {
  import opened Results
  import opened Versions
  import opened Normalizers
  import opened TagPipeline
  import opened Selection

  datatype Checker =
    | Base(name: string, homepage: string, repository: string)
    | GitHub(name: string, homepage: string, repository: string)
    | Go
    | Docker
    | Kubernetes

  const GoRepository := "https://github.com/golang/go"
  const DockerRepository := "https://github.com/docker/docker"
  const KubernetesRepository := "https://github.com/kubernetes/kubernetes"

  /** The repository a checker reads its tags from. */
  function Repository(c: Checker): string {
    match c
    case Base(_, _, repository) => repository
    case GitHub(_, _, repository) => repository
    case Go => GoRepository
    case Docker => DockerRepository
    case Kubernetes => KubernetesRepository
  }

  /** The tag-name normaliser a checker passes to the tag pipeline, if any. */
  function Normalizer(c: Checker): Option<string -> string> {
    match c
    case Go => Some(GoNormalize)
    case Docker => Some(DockerNormalize)
    case _ => None
  }

  /**
   * get_versions: the base checker refuses; every other checker fetches the
   * tags of its own repository, normalised by its own normaliser.
   */
  function GetVersions(c: Checker, tagsOf: RepoId -> seq<string>, parse: string -> Option<Version>): (r: Result<seq<Version>>)
    ensures c.Base? ==> r == Err(NotImplemented)
    ensures !c.Base? ==> (r.Err? <==> RepoFromUrl(Repository(c)).Err?)
    ensures !c.Base? && r.Err? ==> r.error == InvalidRepositoryUrl
    ensures !c.Base? && r.Ok? ==>
      exists id :: RepoFromUrl(Repository(c)) == Ok(id) &&
        r.value == TagVersions(tagsOf(id), NormalizerOrIdentity(Normalizer(c)), parse)
  {
    if c.Base? then Err(NotImplemented)
    else
      match GitHubTags(None, Repository(c), Normalizer(c), tagsOf, parse)
      case Err(e) => Err(e)
      case Ok(fetch) => Ok(fetch.versions)
  }

  /** The versions a non-base checker fetches from its repository's tags, when its URL is accepted. */
  function Fetched(c: Checker, tagsOf: RepoId -> seq<string>, parse: string -> Option<Version>): seq<Version>
    requires !c.Base? && RepoFromUrl(Repository(c)).Ok?
  {
    TagVersions(tagsOf(RepoFromUrl(Repository(c)).value), NormalizerOrIdentity(Normalizer(c)), parse)
  }

  /** get_latest_version on a checker: get_versions' failure passes through, otherwise the latest release is chosen. */
  function CheckerLatest(c: Checker, tagsOf: RepoId -> seq<string>, parse: string -> Option<Version>): (r: Result<string>)
    ensures c.Base? ==> r == Err(NotImplemented)
    ensures !c.Base? && RepoFromUrl(Repository(c)).Err? ==> r == Err(InvalidRepositoryUrl)
    ensures !c.Base? && RepoFromUrl(Repository(c)).Ok? ==>
      && (r.Err? <==> !HasRelease(Fetched(c, tagsOf, parse)))
      && (r.Err? ==> r.error == NoVersionsFound)
      && (r.Ok? ==> exists v | v in Fetched(c, tagsOf, parse) ::
            IsGreatestRelease(Fetched(c, tagsOf, parse), v) && r.value == Render(v))
  {
    match GetVersions(c, tagsOf, parse)
    case Err(e) => Err(e)
    case Ok(vs) => Latest(vs)
  }

  /** get_latest_major_versions and get_latest_minor_versions on a checker, over what get_versions returns. */
  method CheckerLatestGrouped(c: Checker, tagsOf: RepoId -> seq<string>, parse: string -> Option<Version>, g: Grouping)
    returns (r: Result<map<string, string>>)
    ensures c.Base? ==> r == Err(NotImplemented)
    ensures !c.Base? && RepoFromUrl(Repository(c)).Err? ==> r == Err(InvalidRepositoryUrl)
    ensures !c.Base? && RepoFromUrl(Repository(c)).Ok? ==>
      var vs := Fetched(c, tagsOf, parse);
      && (r.Err? <==> !Descending(vs) || !HasRelease(vs))
      && (!Descending(vs) ==> r == Err(UnsortedVersions))
      && (Descending(vs) && !HasRelease(vs) ==> r == Err(NoVersionsFound))
      && (r.Ok? ==> r.value == RenderAll(GreatestByKey(vs, g)))
  {
    var got := GetVersions(c, tagsOf, parse);
    match got
    case Err(e) =>
      r := Err(e);
    case Ok(vs) =>
      r := LatestGrouped(vs, g);
  }

  lemma GoRepositoryId()
    ensures RepoFromUrl(GoRepository) == Ok(RepoId("golang", "go"))
  {
    assert GoRepository == GitHubPrefix + "golang" + "/" + "go";
    RepoFromUrlComplete("golang", "go");
  }

  lemma DockerRepositoryId()
    ensures RepoFromUrl(DockerRepository) == Ok(RepoId("docker", "docker"))
  {
    assert DockerRepository == GitHubPrefix + "docker" + "/" + "docker";
    RepoFromUrlComplete("docker", "docker");
  }

  lemma KubernetesRepositoryId()
    ensures RepoFromUrl(KubernetesRepository) == Ok(RepoId("kubernetes", "kubernetes"))
  {
    assert KubernetesRepository == GitHubPrefix + "kubernetes" + "/" + "kubernetes";
    RepoFromUrlComplete("kubernetes", "kubernetes");
  }

  /** The Go checker reads golang/go, each tag with its 'go' prefix removed. */
  lemma GoVersions(tagsOf: RepoId -> seq<string>, parse: string -> Option<Version>)
    ensures GetVersions(Go, tagsOf, parse) == Ok(TagVersions(tagsOf(RepoId("golang", "go")), GoNormalize, parse))
  {
    GoRepositoryId();
  }

  /** The Docker checker reads docker/docker, each tag with every '-ce' removed. */
  lemma DockerVersions(tagsOf: RepoId -> seq<string>, parse: string -> Option<Version>)
    ensures GetVersions(Docker, tagsOf, parse) == Ok(TagVersions(tagsOf(RepoId("docker", "docker")), DockerNormalize, parse))
  {
    DockerRepositoryId();
  }

  /** The Kubernetes checker reads kubernetes/kubernetes and parses the tag names as they are. */
  lemma KubernetesVersions(tagsOf: RepoId -> seq<string>, parse: string -> Option<Version>)
    ensures GetVersions(Kubernetes, tagsOf, parse) ==
      Ok(TagVersions(tagsOf(RepoId("kubernetes", "kubernetes")), (s: string) => s, parse))
  {
    KubernetesRepositoryId();
    var r := GetVersions(Kubernetes, tagsOf, parse);
    var id :| RepoFromUrl(KubernetesRepository) == Ok(id) &&
      r.value == TagVersions(tagsOf(id), NormalizerOrIdentity(None), parse);
    assert id == RepoId("kubernetes", "kubernetes");
  }

  /**
   * The plain GitHub checker's get_versions is _get_github_tags called with
   * no arguments: the checker's own repository and no normaliser.
   */
  lemma GitHubDelegates(name: string, homepage: string, repository: string,
                        tagsOf: RepoId -> seq<string>, parse: string -> Option<Version>)
    ensures GetVersions(GitHub(name, homepage, repository), tagsOf, parse) ==
      match GitHubTags(None, repository, None, tagsOf, parse)
      case Err(e) => Err(e)
      case Ok(fetch) => Ok(fetch.versions)
  {
  }
}
