# CodePush iOS client: the update lifecycle, in Dafny

This project models the core of the CodePush iOS client (Swift), which delivers over-the-air updates of an app's JavaScript bundle and assets. It covers the whole lifecycle of an update. The client asks the CodePush server whether an update exists. It downloads the update into a folder named by its hash and merges a diff update with the installed package. It then installs the update as the current package, keeping the old one as the previous package. After the next restart it either marks the update as running or, if the update never finished loading, rolls it back and records it as failed.

The model follows the source file by file:

| Dafny module (file) | Swift source |
|---|---|
| `Results` (results.dfy) | Result.swift |
| `DataContracts`, `Constants`, `Errors`, `Optionals` | the record and enum types of Datacontracts/, Enums/, Errors/, CodePushConstants.swift |
| `RemotePackages`, `LocalPackages`, `UpdateRequests` | the factories of CodePushRemotePackage.swift, CodePushLocalPackage.swift, CodePushUpdateRequest.swift |
| `Utils` | `getQueryItems` of CodePushUtils.swift |
| `SyncOptionDefaults` | CodePushSyncOptions.swift |
| `FileTree` | the file operations the core asks of FileUtils, over a tree of files |
| `UpdateUtils` | CodePushUpdateUtils.swift |
| `PackageStore` (class `UpdateManager`) | CodePushUpdateManager.swift |
| `Settings` (class `SettingsManager`) | CodePushSettingsManager.swift |
| `Acquisition` | `queryUpdate` of CodePushAcquisitionManager.swift |
| `Engine` (class `BaseCore`) | CodePushBaseCore.swift |

Modelling choices:
- **Package store.** `UpdateManager` holds the status file `codepush.json` as `statusFile: Option<PackageInfo>`, where `None` means the file does not exist. It also holds the package folders as a map from hash to `PackageFolder`. A folder holds its files, as a map from relative path to bytes, and two typed records: its `app.json` metadata and its `hotcodepush.json` diff manifest.
- **Settings store.** `UserDefaults` is a map from key to `Setting`. A `Setting` is the decoded form of the stored string: blank, a list of failed updates, a pending-update record, or something that does not decode.
- **Engine.** `BaseCore` holds both managers and the two flags of `CodePushState`: `didUpdate` and `needToReportRollback`.
- **Throwing code.** A Swift function that throws returns a `Result` here. A method that changes a manager's state is a `method` with `modifies`. Its effect is stated against specification functions: `Installed`, `InstallRemoves`, `RolledBack`, `MergedFrom`, `Reconciled`, `RestartDecision`, `UpdateMetadata` and `CheckOutcome`.
- **Callbacks.** The completion handlers become plain sequential calls that return their result.
- **Collaborators become parameters.** These include:
  - the HTTP fetch of the update check, `fetch`;
  - building a URL from its components, `formUrl`;
  - the downloaded bytes, `fetched`;
  - the result of unzipping, `extraction`;
  - the order in which the file system lists directories, `listing`;
  - `isPackageLatest` and `absoluteString`, `urlString`;
  - the bundle version and the device identifier.
- **Force-unwraps.** Where the source force-unwraps a value or slices bytes that may be missing, the model states that as a precondition, because the source traps there:
  - `Downloadable`: the offered package has a hash and a download URL;
  - `Readable`: a download has at least four bytes;
  - `QueryPackageExists`: there is a package to query with;
  - `AnswersDecidable` in the engine, and `QueryAnswerDecidable` for a single query: the server's answer has the fields the decision reads;
  - `ExtractionWellFormed`, through `ManifestWellFormed`: every path the diff manifest deletes has at least two components, since `copyNecessaryFilesFromCurrentPackage` slices off the first one (CodePushUpdateUtils.swift:46);
  - `InstallUpdate` requires the package hash to be present.

Where what the code does differs from what its comments or callers suggest, the model follows the code:
- **`isPendingUpdate(nil)` is always false.** It needs a non-nil hash, even though its doc comment says a nil hash asks about any pending update (ios/CodePush/CodePush/Common/Managers/CodePushSettingsManager.swift:108-120). So `installUpdate` always keeps the current package as the previous one; see `Settings.NilIsNeverPending`.
- **The query sends four items.** The update check sends appVersion, clientUniqueId, deploymentKey and packageHash. The request's label is never sent.
- **Two call sites do not match the definitions.** `installPackage` and `mergeDiff` are called with labels and arities that differ from their definitions (CodePushBaseCore.swift:380 and 417). Each is modelled as defined. `mergeDiff`'s unused `newMetadata` argument is dropped.
- **The `state.needToReportRollback` spelling.** It is modelled as the field `needToReportRollback`.
- **`getFailedUpdates` resets a list that does not decode.** A value that does not decode as a list is reset to the empty list. As written the JSON decoder aborts first; the model takes the reset as the intended behaviour.
- **A binary-version redirect crashes `sync`.** When the server asks for a new binary (`updateAppVersion` true), `checkForUpdate` reports a package with no hash and no download URL, unless the installed package also has no hash. `sync` then passes it to `downloadUpdate`, which force-unwraps both fields. `Engine.BaseCore.Sync` therefore requires the offered package to be `Downloadable`. `Acquisition.OfferedPackage` proves that a redirect is never downloadable.

## Model

| member | source | states |
|---|---|---|
| Results.Resolve | ios/CodePush/CodePush/Common/Result.swift:18-23 | resolving returns the value of a Success and throws the error of a Failure |
| Results.Capture | ios/CodePush/CodePush/Common/Result.swift:26-33 | wrapping a throwing expression gives Success of its value, or Failure of the error it threw |
| Results.CaptureResolve | ios/CodePush/CodePush/Common/Result.swift:18-33 | capturing a resolved result gives back the same result |
| Results.ResolveCapture | ios/CodePush/CodePush/Common/Result.swift:18-33 | resolving a captured expression behaves exactly like the expression |
| RemotePackages.CreateRemotePackageFromFailedInstall | ios/CodePush/CodePush/Common/Datacontracts/CodePushRemotePackage.swift:57-72 | the descriptor fields are copied from the package; failedInstall, downloadURL, packageSize and updateAppVersion come from the arguments |
| RemotePackages.CreateRemotePackage | ios/CodePush/CodePush/Common/Datacontracts/CodePushRemotePackage.swift:81-95 | the deployment key is the argument and failedInstall is false; every other field comes unchanged from the update info |
| RemotePackages.CreateDefaultRemotePackage | ios/CodePush/CodePush/Common/Datacontracts/CodePushRemotePackage.swift:104-110 | only appVersion and updateAppVersion are set; hash, download URL, size and every other descriptor field are nil |
| LocalPackages.CreateLocalPackage | ios/CodePush/CodePush/Common/Datacontracts/CodePushLocalPackage.swift:57-74 | the six descriptor fields are copied from the package; failedInstall, isPending, isFirstRun and the entry point come from the arguments |
| LocalPackages.CreateEmptyPackageForUpdateQuery | ios/CodePush/CodePush/Common/Datacontracts/CodePushLocalPackage.swift:76-84 | only the app version is known; the four flags are false; hash, label, key, description and entry point are nil |
| UpdateRequests.CreateUpdateRequest | ios/CodePush/CodePush/Common/Datacontracts/CodePushUpdateRequest.swift:51-61 | key and device id are the arguments; appVersion, packageHash and label are the package's; isCompanion is false |
| UpdateRequests.EmptyPackageRequest | ios/CodePush/CodePush/Common/Datacontracts/CodePushUpdateRequest.swift:51-61 | a request for the empty query package carries the app version and neither hash nor label |
| Utils.GetQueryItems | ios/CodePush/CodePush/Common/Utils/CodePushUtils.swift:172-191 | exactly four items, named appVersion, clientUniqueId, deploymentKey, packageHash in this order, each with the request's value, nil kept |
| Utils.QueryItemsOmitLabel | ios/CodePush/CodePush/Common/Utils/CodePushUtils.swift:172-191 | neither the label nor isCompanion appears in the query |
| Utils.QueryItemsDetermineRequest | ios/CodePush/CodePush/Common/Utils/CodePushUtils.swift:183-190 | two requests give the same query exactly when they agree on the four fields sent |
| SyncOptionDefaults.SyncOptionsFor | ios/CodePush/CodePush/Common/Datacontracts/CodePushSyncOptions.swift:67-74 | the key given; install on next restart; mandatory updates immediately; no minimum background time; failed updates ignored; check on app start |
| SyncOptionDefaults.DefaultSyncOptions | ios/CodePush/CodePush/Common/Datacontracts/CodePushSyncOptions.swift:76-78 | the parameterless options: empty key, install on next restart, mandatory install immediately, no minimum background duration, failed updates ignored, check on app start |
| Settings.StorageKeyInjective | ios/CodePush/CodePush/Common/Managers/CodePushSettingsManager.swift:165-168 | two storage keys are equal exactly when application and record agree, so applications and records never share a key |
| Settings.AppsIsolated | ios/CodePush/CodePush/Common/Managers/CodePushSettingsManager.swift:26-31 | a write under one application's key changes neither record of another application |
| Settings.PendingIn | ios/CodePush/CodePush/Common/Managers/CodePushSettingsManager.swift:80-89 | no pending update for an absent or empty value, the record for a stored record, a decode error otherwise |
| Settings.NilIsNeverPending | ios/CodePush/CodePush/Common/Managers/CodePushSettingsManager.swift:116-120 | isPendingUpdate(nil) is false whatever is stored |
| Settings.PendingMatchesExactly | ios/CodePush/CodePush/Common/Managers/CodePushSettingsManager.swift:116-120 | a hash is pending exactly when the record is for that hash and is not loading |
| Settings.SaveFailedThenExists | ios/CodePush/CodePush/Common/Managers/CodePushSettingsManager.swift:98-106 | after saving a failed update with a non-empty hash, existsFailedUpdate reports that hash, and every earlier answer of true is kept |
| Settings.SavePendingThenGet | ios/CodePush/CodePush/Common/Managers/CodePushSettingsManager.swift:155-158 | after savePendingUpdate(u), getPendingUpdate gives u and the failed list is unchanged |
| Settings.RemovePendingThenGet | ios/CodePush/CodePush/Common/Managers/CodePushSettingsManager.swift:132-134 | after removePendingUpdate there is no pending update and the failed list is unchanged |
| Settings.SettingsManager.GetFailedUpdates | ios/CodePush/CodePush/Common/Managers/CodePushSettingsManager.swift:57-72 | an empty list for an absent or empty value, the stored list, or an empty list after resetting a value that does not decode; the pending record is untouched |
| Settings.SettingsManager.ExistsFailedUpdate | ios/CodePush/CodePush/Common/Managers/CodePushSettingsManager.swift:98-106 | true exactly when the hash is non-empty and some stored failed update carries it; the lists are unchanged |
| Settings.SettingsManager.IsPendingUpdate | ios/CodePush/CodePush/Common/Managers/CodePushSettingsManager.swift:116-120 | a decode error passes on; otherwise true exactly when the hash is non-nil and the record is for it and not loading |
| Settings.SettingsManager.RemoveFailedUpdates | ios/CodePush/CodePush/Common/Managers/CodePushSettingsManager.swift:125-127 | only the failed-updates key is removed |
| Settings.SettingsManager.RemovePendingUpdate | ios/CodePush/CodePush/Common/Managers/CodePushSettingsManager.swift:132-134 | only the pending key is removed; afterwards there is no pending update; the failed list is unchanged |
| Settings.SettingsManager.SaveFailedUpdate | ios/CodePush/CodePush/Common/Managers/CodePushSettingsManager.swift:142-147 | the failed list becomes the old list with the package appended; the pending record is unchanged |
| Settings.SettingsManager.SavePendingUpdate | ios/CodePush/CodePush/Common/Managers/CodePushSettingsManager.swift:155-158 | the pending record becomes the one given; the failed list is unchanged |
| UpdateUtils.Reconciled | ios/CodePush/CodePush/Common/Utils/CodePushUpdateUtils.swift:38-55 | a file remains exactly when one of the two packages has it and the manifest does not delete it; the current package's contents win |
| UpdateUtils.ReconciledStep | ios/CodePush/CodePush/Common/Utils/CodePushUpdateUtils.swift:43-55 | deleting the next manifest entry, first component removed, extends the reconciliation by that entry; an absent path changes nothing |
| UpdateUtils.CopyNecessaryFilesFromCurrentPackage | ios/CodePush/CodePush/Common/Utils/CodePushUpdateUtils.swift:34-56 | the loop leaves every file of either package except those the manifest deletes, with the current package's contents where both have one |
| UpdateUtils.SearchEntries | ios/CodePush/CodePush/Common/Utils/CodePushUpdateUtils.swift:66-86 | a result lies below the folder searched, is not a directory, and carries the expected name |
| UpdateUtils.FindEntryPointInUpdateContents | ios/CodePush/CodePush/Common/Utils/CodePushUpdateUtils.swift:66-86 | a result lies below the origin, is not a directory, and carries the expected name |
| UpdateUtils.SearchIsFirstOfWalk | ios/CodePush/CodePush/Common/Utils/CodePushUpdateUtils.swift:69-83 | the search returns the first file with the expected name in depth-first listing order |
| UpdateUtils.WalkSound | ios/CodePush/CodePush/Common/Utils/CodePushUpdateUtils.swift:66-86 | with a listing of existing entries, the walk meets only files of the tree below the folder |
| UpdateUtils.WalkComplete | ios/CodePush/CodePush/Common/Utils/CodePushUpdateUtils.swift:68-85 | with a complete listing, the walk meets every file below the folder that is reached through the entries still to visit |
| UpdateUtils.FindEntryPointSound | ios/CodePush/CodePush/Common/Utils/CodePushUpdateUtils.swift:66-86 | with a listing of existing entries, a found entry point is a file of the tree |
| UpdateUtils.FindEntryPointComplete | ios/CodePush/CodePush/Common/Utils/CodePushUpdateUtils.swift:68-85 | with an exact listing of a well-formed tree, nothing is found exactly when no file below the origin has the expected name |
| PackageStore.IsZip | ios/CodePush/CodePush/Common/Managers/CodePushUpdateManager.swift:275-282 | the loop answers true exactly when the first four bytes are 50 4B 03 04 |
| PackageStore.InstallMakesCurrent | ios/CodePush/CodePush/Common/Managers/CodePushUpdateManager.swift:296-323 | after an install, the installed hash is current |
| PackageStore.InstallIdempotent | ios/CodePush/CodePush/Common/Managers/CodePushUpdateManager.swift:299-304 | installing the current hash again changes nothing and deletes nothing |
| PackageStore.InstallKeepsExclusive | ios/CodePush/CodePush/Common/Managers/CodePushUpdateManager.swift:305-318 | an install keeps the current and previous pointers distinct, provided a replacing install is not given the previous hash |
| PackageStore.RemoveCurrentCanAlias | ios/CodePush/CodePush/Common/Managers/CodePushUpdateManager.swift:305-309 | replacing the current package with the previous package's hash makes both pointers equal |
| PackageStore.InstallRetainsOnlyPointed | ios/CodePush/CodePush/Common/Managers/CodePushUpdateManager.swift:305-318 | if every folder is pointed to or being installed, every folder left after the install is pointed to |
| PackageStore.RollbackRetainsOnlyPointed | ios/CodePush/CodePush/Common/Managers/CodePushUpdateManager.swift:221-235 | a rollback leaves distinct pointers, and every folder it keeps is pointed to |
| PackageStore.InstallInstallRollback | ios/CodePush/CodePush/Common/Managers/CodePushUpdateManager.swift:296-323 | installing two updates, with nothing deleted, then rolling back makes the first current with no previous package |
| PackageStore.MergedFromUnique | ios/CodePush/CodePush/Common/Managers/CodePushUpdateManager.swift:334-367 | the merge description determines the merged files completely |
| PackageStore.SeedAppFolder | ios/CodePush/CodePush/Common/Managers/CodePushUpdateManager.swift:346-355 | for a diff with a current package, `<appName>` gets the reconciled files of both packages; nothing outside `<appName>` changes |
| PackageStore.MergeFolder | ios/CodePush/CodePush/Common/Managers/CodePushUpdateManager.swift:337-359 | after the copy, overlay and delete, the files are exactly those given by MergedFrom |
| PackageStore.DiffMergeExample | ios/CodePush/CodePush/Common/Managers/CodePushUpdateManager.swift:346-359 | a file deleted by the manifest and supplied again has the new contents; an untouched file keeps the old; a deleted one is gone |
| PackageStore.UpdateManager.FolderPathsDistinct | ios/CodePush/CodePush/Common/Managers/CodePushUpdateManager.swift:74-95 | each hash has its own folder `<documents>/<appName>/<hash>`; only the hash `codepush.json` collides with the status file |
| PackageStore.UpdateManager.GetCurrentPackageInfo | ios/CodePush/CodePush/Common/Managers/CodePushUpdateManager.swift:173-182 | the status file, or both pointers nil when it does not exist |
| PackageStore.UpdateManager.GetPackage | ios/CodePush/CodePush/Common/Managers/CodePushUpdateManager.swift:146-154 | the folder's app.json, whose hash is the folder's; a missing app.json, where the source traps, is a file-system error on its path |
| PackageStore.UpdateManager.GetCurrentPackage | ios/CodePush/CodePush/Common/Managers/CodePushUpdateManager.swift:103-110 | nil exactly when there is no current pointer; otherwise the current package's record, whose hash is the pointer |
| PackageStore.UpdateManager.GetPreviousPackage | ios/CodePush/CodePush/Common/Managers/CodePushUpdateManager.swift:129-137 | nil exactly when there is no previous pointer; otherwise the previous package's record, whose hash is the pointer |
| PackageStore.UpdateManager.GetCurrentPackagePath | ios/CodePush/CodePush/Common/Managers/CodePushUpdateManager.swift:190-197 | the current package's folder, present exactly when there is a current pointer |
| PackageStore.UpdateManager.GetPreviousPackagePath | ios/CodePush/CodePush/Common/Managers/CodePushUpdateManager.swift:205-212 | the previous package's folder, present exactly when there is a previous pointer |
| PackageStore.UpdateManager.RollbackPackage | ios/CodePush/CodePush/Common/Managers/CodePushUpdateManager.swift:221-235 | the current folder is deleted, previous becomes current and there is no previous; if the folder cannot be deleted, FailedRollback and nothing changes |
| PackageStore.UpdateManager.InstallPackage | ios/CodePush/CodePush/Common/Managers/CodePushUpdateManager.swift:296-323 | no-op for the current hash; otherwise the folder named by InstallRemoves is deleted and the pointers become Installed; if the deletion fails, FailedInstall and nothing changes |
| PackageStore.UpdateManager.DownloadPackage | ios/CodePush/CodePush/Common/Managers/CodePushUpdateManager.swift:255-287 | a stale folder is removed first; FailedDownload if it cannot be removed; a failed fetch passes on; a download is classified as ZIP by its signature |
| PackageStore.UpdateManager.CreatePackageFolder | ios/CodePush/CodePush/Common/Core/CodePushBaseCore.swift:366-367 | the hash gets an empty folder unless it has one |
| PackageStore.UpdateManager.MoveIntoPackageFolder | ios/CodePush/CodePush/Common/Core/CodePushBaseCore.swift:370-374 | the downloaded file becomes `<folder>/<fileName>`; nothing else changes |
| PackageStore.UpdateManager.UnzipPackage | ios/CodePush/CodePush/Common/Core/CodePushBaseCore.swift:377-378 | the archive's contents are copied into `unzipped/` and its manifest is stored; a failure changes nothing |
| PackageStore.UpdateManager.WritePackageMetadata | ios/CodePush/CodePush/Common/Core/CodePushBaseCore.swift:392-395 | the folder's app.json becomes the package |
| PackageStore.UpdateManager.CurrentPackageFiles | ios/CodePush/CodePush/Common/Managers/CodePushUpdateManager.swift:346-352 | present exactly when there is a current package |
| PackageStore.UpdateManager.MergeDiff | ios/CodePush/CodePush/Common/Managers/CodePushUpdateManager.swift:334-367 | the new folder's files become MergedFrom, with the manifest dropped and other folders unchanged; MergeError without an entry point, else the entry point's path |
| Acquisition.UpdateCheckComponents | ios/CodePush/CodePush/Common/Managers/CodePushAcquisitionManager.swift:64-68 | scheme https, host the server URL, path /updateCheck, the request's query items |
| Acquisition.RequestFor | ios/CodePush/CodePush/Common/Managers/CodePushAcquisitionManager.swift:62 | the request carries the configured key and device id and the package's app version, hash and label; isCompanion is false |
| Acquisition.PrepareQuery | ios/CodePush/CodePush/Common/Managers/CodePushAcquisitionManager.swift:60-70 | InvalidParam without an app version; FailedToConstructUrl exactly when no URL can be formed; otherwise the URL |
| Acquisition.InterpretResponse | ios/CodePush/CodePush/Common/Managers/CodePushAcquisitionManager.swift:79-84 | a redirect package for updateAppVersion, whatever isAvailable says; no update exactly when neither redirect nor available; otherwise the server's package under the key used |
| Acquisition.QueryUpdate | ios/CodePush/CodePush/Common/Managers/CodePushAcquisitionManager.swift:56-87 | errors before the request and errors of the fetch pass on unchanged; an answer is interpreted |
| Acquisition.NoUpdateOnlyWhenServerSaysSo | ios/CodePush/CodePush/Common/Managers/CodePushAcquisitionManager.swift:74-84 | "no update" exactly when a request was sent and answered with neither redirect nor available update; failures never become "no update" |
| Acquisition.OfferedPackage | ios/CodePush/CodePush/Common/Managers/CodePushAcquisitionManager.swift:79-84 | a full package carries the configured key and is not marked failed; a redirect has an app version but no hash and no download URL |
| Acquisition.QueryCarriesPackage | ios/CodePush/CodePush/Common/Managers/CodePushAcquisitionManager.swift:62-70 | the URL goes over https to /updateCheck on the server; it carries the package's app version and hash and the configured key and device id, and no label |
| Engine.RestartDecision | ios/CodePush/CodePush/Common/Core/CodePushBaseCore.swift:136-160 | read errors pass on; without a pending update or a current package, or under the not-latest same-version guard, nothing; else roll back exactly when the update was loading, mark it running exactly when it was not |
| Engine.Suppressed | ios/CodePush/CodePush/Common/Core/CodePushBaseCore.swift:250-256 | an update is reported exactly when one is offered and its hash differs from the local package's; nil equals nil |
| Engine.BaseCore.ConfiguredAppName | ios/CodePush/CodePush/Common/Core/CodePushBaseCore.swift:199-208 | never empty; the given application name when there is one |
| Engine.BaseCore.GetNativeConfiguration | ios/CodePush/CodePush/Common/Core/CodePushBaseCore.swift:199-218 | fails exactly when there is neither an app version nor a bundle version; otherwise the engine's values with the defaults "CodePush", the bundle version and the CodePush server |
| Engine.BaseCore.IsFirstRun | ios/CodePush/CodePush/Common/Core/CodePushBaseCore.swift:478-483 | true exactly when the app was just updated, the hash is non-empty and it is the current package's hash |
| Engine.BaseCore.GetUpdateMetadata | ios/CodePush/CodePush/Common/Core/CodePushBaseCore.swift:439-469 | the answer is UpdateMetadata of the state before the call; the failed list and the pending record are unchanged |
| Engine.BaseCore.LatestIsCurrent | ios/CodePush/CodePush/Common/Core/CodePushBaseCore.swift:461-467 | the latest metadata is the current package h; failedInstall says whether h is on the failed list, isFirstRun is didUpdate for a non-empty h, and isPending says whether a non-loading pending record names a non-empty h |
| Engine.BaseCore.PendingIsCurrentAndPending | ios/CodePush/CodePush/Common/Core/CodePushBaseCore.swift:451-454 | the pending metadata is the current package, whose hash has a pending record that is not loading |
| Engine.BaseCore.RunningIsNotPending | ios/CodePush/CodePush/Common/Core/CodePushBaseCore.swift:455-467 | the running metadata is the current package when it is not pending; otherwise it is the previous package |
| Engine.BaseCore.LatestMetadataExists | ios/CodePush/CodePush/Common/Core/CodePushBaseCore.swift:440-444 | with a current package, the latest metadata is never nil |
| Engine.BaseCore.RollbackPackage | ios/CodePush/CodePush/Common/Core/CodePushBaseCore.swift:490-497 | no-op without a current package; otherwise the package is appended to the failed list, the store rolls back and the pending record is removed; a failed deletion keeps the pending record |
| Engine.BaseCore.InitializeUpdateAfterRestart | ios/CodePush/CodePush/Common/Core/CodePushBaseCore.swift:133-162 | didUpdate holds exactly when a pending update is marked running, which removes its record; a loading update is rolled back and flagged for reporting; otherwise nothing changes |
| Engine.BaseCore.Initialize | ios/CodePush/CodePush/Common/Core/CodePushBaseCore.swift:119-123 | without a configuration nothing changes; otherwise the restart step runs |
| Engine.BaseCore.InstallUpdate | ios/CodePush/CodePush/Common/Core/CodePushBaseCore.swift:412-429 | the package is installed with the current one kept as previous; for a non-empty hash, then true with a pending record not loading; for an empty hash, an install error after the install |
| Engine.BaseCore.CheckForUpdate | ios/CodePush/CodePush/Common/Core/CodePushBaseCore.swift:228-262 | the answer is CheckOutcome: configuration and metadata errors wrapped, the key overridden when given, and the installed package's hash suppressed |
| Engine.BaseCore.NeverOffersInstalled | ios/CodePush/CodePush/Common/Core/CodePushBaseCore.swift:250-256 | a reported update never has the current package's hash |
| Engine.BaseCore.ExpandArchive | ios/CodePush/CodePush/Common/Core/CodePushBaseCore.swift:375-382 | unzip errors and configuration errors pass on; otherwise the URL of the entry point found in the merged folder, or MergeError |
| Engine.BaseCore.MergeUnzipped | ios/CodePush/CodePush/Common/Core/CodePushBaseCore.swift:379-382 | the merge runs with the configured application name as the app folder; the result is the URL of the entry point, or MergeError |
| Engine.BaseCore.DownloadUpdate | ios/CodePush/CodePush/Common/Core/CodePushBaseCore.swift:350-404 | success writes app.json with pending, not failed and not first run; every failure appends the package to the failed list and wraps the error as Download; and the branch for each case |
| Engine.BaseCore.DoDownloadAndInstall | ios/CodePush/CodePush/Common/Core/CodePushBaseCore.swift:331-341 | on success the update is current and pending; a download failure puts it on the failed list; no other failure touches the list |
| Engine.BaseCore.EffectiveOptions | ios/CodePush/CodePush/Common/Core/CodePushBaseCore.swift:281-292 | an empty deployment key is replaced by the engine's; no other option changes |
| Engine.BaseCore.DefaultSyncUsesEngineKey | ios/CodePush/CodePush/Common/Core/CodePushBaseCore.swift:269-271 | the parameterless sync runs with the default options under the engine's key |
| Engine.BaseCore.Sync | ios/CodePush/CodePush/Common/Core/CodePushBaseCore.swift:279-321 | configuration and check errors are wrapped as Sync; false exactly when no update is reported; true only once the offered update is current and pending; a failed download puts it on the failed list |

## Left out

- File I/O. `FileUtils` and `FileManager` are replaced by the typed state of the two managers. Failures of file operations other than deleting a package folder are not modelled: creating a folder, moving a file, copying and deleting inside a folder, and writing JSON always succeed. Deleting a folder fails for a missing folder or a hash in the set `undeletable`.
- JSON encoding and decoding. Stored records are typed values. A garbled status file or `app.json` cannot be represented. A garbled pending record is a `Decode` failure; the source aborts there with `fatalError`.
- Networking and callbacks. `ApiRequest`, `URLSession` and `DispatchQueue` are not modelled. The update check's answer is the parameter `fetch`, and the downloaded file is the parameter `fetched`. The callbacks run as sequential calls, so the model has no concurrency or re-entrancy.
- Unzipping is an opaque step. Its outcome is the parameter `extraction`: the `unzipped/` tree and the manifest, or an error.
- `contentsOfDirectory` order is the parameter `listing`. The completeness lemmas assume a listing that names exactly the entries of each directory.
- `isPackageLatest` and the URL's `absoluteString` are uninterpreted function parameters.
- The environment is given as constants of the engine. This covers the bundle's version, `identifierForVendor`, and the base directory; the documents-directory default of the initializer is not modelled.
- Initializer wiring. Building the managers and the builder facade are not modelled. The constructor takes the managers ready-made, and `Initialize` models the initializer's last two steps.
- Reports and restarts. Telemetry reports, install modes and restart timing are not implemented in the core, and are not modelled.
- Engine.BaseCore.EffectiveOptions: does not model the `nil` defaulting of installMode, mandatoryInstallMode and checkFrequency, because those fields are not optional, so the checks never fire.
- Engine.BaseCore.Sync: the source writes the effective options back into the caller's options object; the model returns them as `used` instead of updating an object in place.
- Engine.BaseCore.DownloadUpdate: does not restate the merged files of a ZIP update; PackageStore.UpdateManager.MergeDiff states them, and the entry point is stated as found in the merged folder.
- Engine.BaseCore.GetUpdateMetadata: states the new defaults only as unchanged, or with the failed-updates key reset to the empty list, without saying when each happens. The answer itself is exact.
- PackageStore.UpdateManager.GetPackage: a missing `app.json` is returned as a `FileSystem` error on its path. The source traps instead: `readFileToString` swallows the read error and returns an empty string, and `getObjectFromJsonFile` ends in `fatalError` when that does not decode (FileUtils.swift:68-80, CodePushUtils.swift:85-92). So every error the model derives from this case is a crash in the source. This holds in PackageStore.UpdateManager.GetCurrentPackage, PackageStore.UpdateManager.GetPreviousPackage, Engine.BaseCore.RollbackPackage, Engine.BaseCore.InitializeUpdateAfterRestart, Engine.BaseCore.GetUpdateMetadata and Engine.BaseCore.CheckForUpdate.
- Engine.BaseCore.InstallUpdate, Engine.BaseCore.DownloadUpdate, Engine.BaseCore.Sync, Engine.BaseCore.CheckForUpdate: state as preconditions the values the source force-unwraps, since the source traps without them. The same holds for ExtractionWellFormed, which DownloadUpdate, DoDownloadAndInstall, Sync, ExpandArchive, MergeUnzipped, MergeDiff, SeedAppFolder and MergeFolder require.
- `existsFailedUpdate` of the engine is a one-line delegation to the settings manager and has no member of its own. The same holds for the engine's `getCurrentPackagePath` and `getPreviousPackagePath`.
