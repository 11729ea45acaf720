/**
 * The records and enumerations of the Datacontracts/ and Enums/ folders. Swift's class
 * inheritance (`CodePushRemotePackage` and `CodePushLocalPackage` extend `CodePushPackage`)
 * becomes composition: the subclass records hold the base descriptor in `base`.
 */
module DataContracts {
  import opened Optionals

  /** Swift `Int64`. */
  newtype int64 = x: int | -0x8000_0000_0000_0000 <= x < 0x8000_0000_0000_0000

  /** One byte of a downloaded file. */
  newtype byte = x: int | 0 <= x < 256

  /** `CodePushPackage`: the descriptor every package carries; all fields optional (`label` is a Dafny keyword, hence `releaseLabel`). */
  datatype Package = Package(
    appVersion: Option<string>,
    deploymentKey: Option<string>,
    description: Option<string>,
    failedInstall: Option<bool>,
    isMandatory: Option<bool>,
    releaseLabel: Option<string>,
    packageHash: Option<string>)

  /** `CodePushPackage()`: every field nil. */
  const EmptyPackage: Package := Package(None, None, None, None, None, None, None)

  /** `CodePushRemotePackage`: an update the server offers. */
  datatype RemotePackage = RemotePackage(
    base: Package,
    downloadURL: Option<string>,
    packageSize: Option<int64>,
    updateAppVersion: Option<bool>)

  /** `CodePushLocalPackage`: an update on the device. */
  datatype LocalPackage = LocalPackage(
    base: Package,
    isPending: Option<bool>,
    appEntryPoint: Option<string>,
    isFirstRun: Option<bool>)

  /** `CodePushPackageInfo`: the content of the status file, two package hashes. */
  datatype PackageInfo = PackageInfo(currentPackage: Option<string>, previousPackage: Option<string>)

  /** `CodePushPackageInfo()`: no current and no previous package. */
  const EmptyPackageInfo: PackageInfo := PackageInfo(None, None)

  /** `CodePushPendingUpdate`: the installed update that awaits a restart. */
  datatype PendingUpdate = PendingUpdate(pendingUpdateHash: string, pendingUpdateIsLoading: bool)

  /** `CodePushDiffManifest`: each deleted file as the path components of its URL. */
  datatype DiffManifest = DiffManifest(deletedFiles: seq<seq<string>>)

  /** `CodePushUpdateResponseInfo`: the server's answer to an update check. */
  datatype UpdateResponseInfo = UpdateResponseInfo(
    downloadURL: Option<string>,
    description: Option<string>,
    isAvailable: Option<bool>,
    isMandatory: Option<bool>,
    appVersion: Option<string>,
    packageHash: Option<string>,
    releaseLabel: Option<string>,
    packageSize: Option<int64>,
    updateAppVersion: Option<bool>,
    shouldRunBinaryVersion: Option<bool>)

  /** `CodePushUpdateResponse`. */
  datatype UpdateResponse = UpdateResponse(updateInfo: UpdateResponseInfo)

  /** `CodePushUpdateRequest`: the parameters of an update check. */
  datatype UpdateRequest = UpdateRequest(
    deploymentKey: Option<string>,
    appVersion: Option<string>,
    packageHash: Option<string>,
    isCompanion: bool,
    releaseLabel: Option<string>,
    clientUniqueId: Option<string>)

  /** `CodePushDownloadPackageResult`: the downloaded file (its bytes) and whether it is a ZIP. */
  datatype DownloadPackageResult = DownloadPackageResult(downloadFile: seq<byte>, isZip: bool)

  /** `CodePushConfiguration`. */
  datatype Configuration = Configuration(
    appName: Option<string>,
    appVersion: Option<string>,
    clientUniqueId: Option<string>,
    deploymentKey: Option<string>,
    baseDirectory: Option<seq<string>>,
    serverUrl: Option<string>,
    packageHash: Option<string>)

  /** `CodePushInstallMode`. */
  datatype InstallMode = Immediate | OnNextRestart | OnNextResume | OnNextSuspend

  /** `CodePushCheckFrequency`. */
  datatype CheckFrequency = OnAppStart | OnAppResume | Manual

  /** `CodePushUpdateState`. */
  datatype UpdateState = Running | Pending | Latest

  /** The six descriptor fields that the factories copy from one package to another. */
  predicate SameDescriptor(p: Package, q: Package)
  {
    p.appVersion == q.appVersion && p.deploymentKey == q.deploymentKey &&
    p.description == q.description && p.isMandatory == q.isMandatory &&
    p.releaseLabel == q.releaseLabel && p.packageHash == q.packageHash
  }
}
