/** The factories of CodePushLocalPackage.swift. */
module LocalPackages {
  import opened Optionals
  import opened DataContracts

  /** A local package built from a descriptor: descriptor fields copied, the four flags set. */
  function CreateLocalPackage(failedInstall: bool, isFirstRun: bool, isPending: bool, entryPoint: string,
                              package: Package): (r: LocalPackage)
    ensures SameDescriptor(r.base, package)
    ensures r.base.failedInstall == Some(failedInstall)
    ensures r.isFirstRun == Some(isFirstRun) && r.isPending == Some(isPending)
    ensures r.appEntryPoint == Some(entryPoint)
  {
    LocalPackage(
      Package(package.appVersion, package.deploymentKey, package.description, Some(failedInstall),
              package.isMandatory, package.releaseLabel, package.packageHash),
      Some(isPending), Some(entryPoint), Some(isFirstRun))
  }

  /**
   * The package sent with an update check when the device has no usable local package:
   * only the app version is known; the three flags and `isMandatory` are false, and there
   * is no hash, label or entry point.
   */
  function CreateEmptyPackageForUpdateQuery(appVersion: Option<string>): (r: LocalPackage)
    ensures r.base.appVersion == appVersion
    ensures r.base.packageHash == None && r.base.releaseLabel == None && r.base.deploymentKey == None
    ensures r.base.description == None && r.appEntryPoint == None
    ensures r.base.failedInstall == Some(false) && r.base.isMandatory == Some(false)
    ensures r.isPending == Some(false) && r.isFirstRun == Some(false)
  {
    LocalPackage(EmptyPackage.(appVersion := appVersion, failedInstall := Some(false), isMandatory := Some(false)),
                 Some(false), None, Some(false))
  }
}
