/**
 * The storage keys under which a project's computed versions are kept: one
 * per selector, each the project name plus a fixed suffix, and the key of
 * the list of available projects.
 */
module StorageKeys {
  import opened Results
  import opened Strings

  const AvailableProjectsKey := "available_projects"

  const LatestVersionSuffix := "_latest_version"
  const LatestMajorVersionsSuffix := "_latest_major_versions"
  const LatestMinorVersionsSuffix := "_latest_minor_versions"

  /** An empty name is refused; any other name gets the suffix. */
  function KeyFor(name: string, suffix: string): (r: Result<string>)
    ensures r.Err? <==> name == []
    ensures r.Err? ==> r.error == EmptyProjectName
    ensures r.Ok? ==> HasPrefix(r.value, name) && r.value[|name|..] == suffix
  {
    if name == [] then Err(EmptyProjectName)
    else
      var key := name + suffix;
      assert key[..|name|] == name && key[|name|..] == suffix;
      Ok(key)
  }

  /** get_latest_version_key */
  function LatestVersionKey(name: string): (r: Result<string>)
    ensures r.Err? <==> name == []
    ensures r.Err? ==> r.error == EmptyProjectName
    ensures r.Ok? ==> HasPrefix(r.value, name) && r.value[|name|..] == "_latest_version"
  {
    KeyFor(name, LatestVersionSuffix)
  }

  /** get_latest_major_versions_key */
  function LatestMajorVersionsKey(name: string): (r: Result<string>)
    ensures r.Err? <==> name == []
    ensures r.Err? ==> r.error == EmptyProjectName
    ensures r.Ok? ==> HasPrefix(r.value, name) && r.value[|name|..] == "_latest_major_versions"
  {
    KeyFor(name, LatestMajorVersionsSuffix)
  }

  /** get_latest_minor_versions_key */
  function LatestMinorVersionsKey(name: string): (r: Result<string>)
    ensures r.Err? <==> name == []
    ensures r.Err? ==> r.error == EmptyProjectName
    ensures r.Ok? ==> HasPrefix(r.value, name) && r.value[|name|..] == "_latest_minor_versions"
  {
    KeyFor(name, LatestMinorVersionsSuffix)
  }

  /** Distinct projects never share a key of one kind. */
  lemma KeyForInjective(a: string, b: string, suffix: string)
    requires KeyFor(a, suffix).Ok? && KeyFor(b, suffix).Ok?
    ensures KeyFor(a, suffix) == KeyFor(b, suffix) <==> a == b
  {
    if KeyFor(a, suffix) == KeyFor(b, suffix) {
      var k := a + suffix;
      assert |a| == |b|;
      assert a == k[..|a|] == b;
    }
  }

  /** The three keys of one project are pairwise distinct. */
  lemma KeysDistinct(name: string)
    requires name != []
    ensures LatestVersionKey(name) != LatestMajorVersionsKey(name)
    ensures LatestVersionKey(name) != LatestMinorVersionsKey(name)
    ensures LatestMajorVersionsKey(name) != LatestMinorVersionsKey(name)
  {
    var major := name + LatestMajorVersionsSuffix;
    var minor := name + LatestMinorVersionsSuffix;
    assert major[|name| + 9] == 'a' && minor[|name| + 9] == 'i';
  }

  /** No key of any project is the key of the project list. */
  lemma KeysAvoidProjectList(name: string)
    requires name != []
    ensures LatestVersionKey(name) != Ok(AvailableProjectsKey)
    ensures LatestMajorVersionsKey(name) != Ok(AvailableProjectsKey)
    ensures LatestMinorVersionsKey(name) != Ok(AvailableProjectsKey)
  {
    var latest := name + LatestVersionSuffix;
    if |latest| == |AvailableProjectsKey| {
      assert latest[|latest| - 1] == 'n' && AvailableProjectsKey[|latest| - 1] == 's';
    }
    var major := name + LatestMajorVersionsSuffix;
    var minor := name + LatestMinorVersionsSuffix;
    assert |major| > |AvailableProjectsKey| && |minor| > |AvailableProjectsKey|;
  }
}
