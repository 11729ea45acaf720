/** CodePushUpdateRequest.swift. */
module UpdateRequests {
  import opened Optionals
  import opened DataContracts
  import opened LocalPackages

  /**
   * The request for an update check: the key and device id given, app version, hash and
   * releaseLabel of the package; `isCompanion` keeps its default, false.
   */
  function CreateUpdateRequest(deploymentKey: string, package: LocalPackage, clientUniqueId: string): (r: UpdateRequest)
    ensures r.deploymentKey == Some(deploymentKey) && r.clientUniqueId == Some(clientUniqueId)
    ensures r.appVersion == package.base.appVersion && r.packageHash == package.base.packageHash
    ensures r.releaseLabel == package.base.releaseLabel
    ensures !r.isCompanion
  {
    UpdateRequest(Some(deploymentKey), package.base.appVersion, package.base.packageHash, false,
                  package.base.releaseLabel, Some(clientUniqueId))
  }

  /** A request for the empty query package carries the app version and neither hash nor releaseLabel. */
  lemma EmptyPackageRequest(deploymentKey: string, appVersion: Option<string>, clientUniqueId: string)
    ensures var r := CreateUpdateRequest(deploymentKey, CreateEmptyPackageForUpdateQuery(appVersion), clientUniqueId);
            r.appVersion == appVersion && r.packageHash == None && r.releaseLabel == None &&
            r.deploymentKey == Some(deploymentKey) && r.clientUniqueId == Some(clientUniqueId)
  {
  }
}
