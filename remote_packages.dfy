/** The factories of CodePushRemotePackage.swift. */
module RemotePackages {
  import opened Optionals
  import opened DataContracts

  /** A remote package built from a descriptor: descriptor fields copied, `failedInstall` replaced. */
  function CreateRemotePackageFromFailedInstall(failedInstall: bool, packageSize: int64, downloadURL: string,
                                                updateAppVersion: bool, package: Package): (r: RemotePackage)
    ensures SameDescriptor(r.base, package)
    ensures r.base.failedInstall == Some(failedInstall)
    ensures r.downloadURL == Some(downloadURL) && r.packageSize == Some(packageSize)
    ensures r.updateAppVersion == Some(updateAppVersion)
  {
    RemotePackage(
      Package(package.appVersion, package.deploymentKey, package.description, Some(failedInstall),
              package.isMandatory, package.releaseLabel, package.packageHash),
      Some(downloadURL), Some(packageSize), Some(updateAppVersion))
  }

  /**
   * A remote package built from the server's update info: every field comes from the info,
   * except the deployment key, which is the one used for the query, and `failedInstall`,
   * which is false.
   */
  function CreateRemotePackage(deploymentKey: string, updateInfo: UpdateResponseInfo): (r: RemotePackage)
    ensures r.base.deploymentKey == Some(deploymentKey) && r.base.failedInstall == Some(false)
    ensures r.base.appVersion == updateInfo.appVersion && r.base.description == updateInfo.description
    ensures r.base.isMandatory == updateInfo.isMandatory && r.base.releaseLabel == updateInfo.releaseLabel
    ensures r.base.packageHash == updateInfo.packageHash
    ensures r.downloadURL == updateInfo.downloadURL && r.packageSize == updateInfo.packageSize
    ensures r.updateAppVersion == updateInfo.updateAppVersion
  {
    RemotePackage(
      Package(updateInfo.appVersion, Some(deploymentKey), updateInfo.description, Some(false),
              updateInfo.isMandatory, updateInfo.releaseLabel, updateInfo.packageHash),
      updateInfo.downloadURL, updateInfo.packageSize, updateInfo.updateAppVersion)
  }

  /** The binary-redirect package: only the app version and `updateAppVersion` are set. */
  function CreateDefaultRemotePackage(appVersion: string, updateAppVersion: bool): (r: RemotePackage)
    ensures r.base.appVersion == Some(appVersion) && r.updateAppVersion == Some(updateAppVersion)
    ensures SameDescriptor(r.base, EmptyPackage.(appVersion := Some(appVersion)))
    ensures r.base.failedInstall == None && r.base.packageHash == None
    ensures r.downloadURL == None && r.packageSize == None
  {
    RemotePackage(EmptyPackage.(appVersion := Some(appVersion)), None, None, Some(updateAppVersion))
  }
}
