/** CodePushSyncOptions.swift: the options of a sync and their defaults. */
module SyncOptionDefaults {
  import opened DataContracts

  datatype SyncOptions = SyncOptions(
    deploymentKey: string,
    installMode: InstallMode,
    mandatoryInstallMode: InstallMode,
    minimumBackgroundDuration: int,
    ignoreFailedUpdates: bool,
    checkFrequency: CheckFrequency)

  /** `init(_ deploymentKey:)`: install on next restart, mandatory immediately, no delay, ignore failed, check on start. */
  function SyncOptionsFor(deploymentKey: string): (o: SyncOptions)
    ensures o.deploymentKey == deploymentKey
    ensures o.installMode == OnNextRestart && o.mandatoryInstallMode == Immediate
    ensures o.minimumBackgroundDuration == 0 && o.ignoreFailedUpdates && o.checkFrequency == OnAppStart
  {
    SyncOptions(deploymentKey, OnNextRestart, Immediate, 0, true, OnAppStart)
  }

  /** `convenience init()`: the defaults with an empty deployment key. */
  function DefaultSyncOptions(): (o: SyncOptions)
    ensures o.deploymentKey == ""
    ensures o.installMode == OnNextRestart && o.mandatoryInstallMode == Immediate
    ensures o.minimumBackgroundDuration == 0 && o.ignoreFailedUpdates && o.checkFrequency == OnAppStart
  {
    SyncOptionsFor("")
  }
}
