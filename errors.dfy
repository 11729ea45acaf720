/**
 * The errors the core throws: the cases of `CodePushErrors`, `CodePushPackageErrors` and
 * `QueryUpdateErrors` as the code raises them, together with the failures of the
 * collaborators (file system, network, JSON decoder) that it lets through.
 */
module Errors {
  datatype Error =
    | InvalidParam                    // queryUpdate: the package has no app version
    | NoHashValue                     // installUpdate: the package to install has an empty hash
    | InitializationError             // getNativeConfiguration: the bundle has no version
    | FailedToConstructUrl            // queryUpdate: URLComponents produced no URL
    | FailedRollback(cause: Error)    // UpdateManager.rollbackPackage
    | FailedInstall(cause: Error)     // UpdateManager.installPackage
    | FailedDownload(cause: Error)    // UpdateManager.downloadPackage: stale folder not removable
    | MergeError(entryPoint: string)  // mergeDiff: no file of this name in the update
    | Download(cause: Error)          // BaseCore.downloadUpdate
    | Install(cause: Error)           // BaseCore.installUpdate
    | CheckForUpdate(cause: Error)    // BaseCore.checkForUpdate
    | Sync(cause: Error)              // BaseCore.sync
    | Initialization(cause: Error)    // BaseCore.getNativeConfiguration
    | FileSystem(path: seq<string>)   // a file operation on this path threw
    | Network                         // the HTTP request failed
    | Decode                          // a stored or received record did not decode
}
