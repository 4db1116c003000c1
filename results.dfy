/** Optional values, results and the failures the version checker reports. */
module Results {

  datatype Option<+T> = None | Some(value: T)

  /** The exceptions the checker raises, one constructor per distinct cause. */
  datatype Error =
    | NotImplemented        // NotImplementedError: get_versions on the abstract base
    | InvalidRepositoryUrl  // ValueError: the repository URL is not a GitHub URL
    | UnsortedVersions      // ValueError: get_versions did not return descending versions
    | NoVersionsFound       // latest requested while no release version is known
    | EmptyProjectName      // ValueError: a storage key asked for an empty project name

  datatype Result<+T> = Ok(value: T) | Err(error: Error)
}
