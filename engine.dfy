/**
 * CodePushBaseCore.swift: the engine that ties the managers together. It reads the
 * configuration, decides what to do with a pending update after a restart, checks for,
 * downloads and installs updates, and rolls a broken update back.
 *
 * The completion handlers of the source are modelled as return values; the collaborators
 * that do I/O (the HTTP client, the unzipper, the directory listing, the bundle and the
 * device identifier) are parameters or constants of the engine.
 */
module Engine {
  import opened Optionals
  import opened Errors
  import opened Results
  import opened Constants
  import opened DataContracts
  import opened FileTree
  import opened UpdateUtils
  import opened PackageStore
  import opened Settings
  import opened LocalPackages
  import opened Acquisition
  import opened SyncOptionDefaults

  /** What initializeUpdateAfterRestart does about the pending update it finds. */
  datatype RestartAction = KeepState | RollBack | MarkRunning

  /**
   * The decision of initializeUpdateAfterRestart. Without a pending update, without a current
   * package, or for a current package that is not the latest but was built for this app
   * version, nothing happens. Otherwise an update that was still loading is rolled back and one
   * that was not is marked as running for the first time.
   */
  function RestartDecision(pending: Result<Option<PendingUpdate>>, current: Result<Option<LocalPackage>>,
                           isPackageLatest: (LocalPackage, string) -> bool, appVersion: string): (r: Result<RestartAction>)
    ensures pending.Failure? ==> r == Failure(pending.error)
    ensures pending == Success(None) ==> r == Success(KeepState)
    ensures pending.Success? && pending.value.Some? && current.Failure? ==> r == Failure(current.error)
    ensures r == Success(RollBack) <==>
              pending.Success? && pending.value.Some? && pending.value.value.pendingUpdateIsLoading &&
              current.Success? && current.value.Some? &&
              !(!isPackageLatest(current.value.value, appVersion) && Some(appVersion) == current.value.value.base.appVersion)
    ensures r == Success(MarkRunning) <==>
              pending.Success? && pending.value.Some? && !pending.value.value.pendingUpdateIsLoading &&
              current.Success? && current.value.Some? &&
              !(!isPackageLatest(current.value.value, appVersion) && Some(appVersion) == current.value.value.base.appVersion)
  {
    match pending
    case Failure(e) => Failure(e)
    case Success(None) => Success(KeepState)
    case Success(Some(update)) =>
      match current
      case Failure(e) => Failure(e)
      case Success(None) => Success(KeepState)
      case Success(Some(metadata)) =>
        if !isPackageLatest(metadata, appVersion) && Some(appVersion) == metadata.base.appVersion then
          Success(KeepState)
        else if update.pendingUpdateIsLoading then
          Success(RollBack)
        else
          Success(MarkRunning)
  }

  /**
   * The update checkForUpdate reports: none when the server offers nothing or offers the
   * package that is installed (compared by hash, a missing local package having no hash).
   */
  function Suppressed(update: Option<RemotePackage>, local: Option<LocalPackage>): (r: Option<RemotePackage>)
    ensures r.Some? <==> update.Some? && update.value.base.packageHash != (if local.Some? then local.value.base.packageHash else None)
    ensures r.Some? ==> r == update
  {
    if update.None? || update.value.base.packageHash == (if local.Some? then local.value.base.packageHash else None) then None
    else update
  }

  /** Every answer of the server decodes to an update info the decision can read. */
  ghost predicate AnswersDecidable(fetch: string -> Result<UpdateResponse>)
  {
    forall url :: fetch(url).Success? ==> Decidable(fetch(url).value.updateInfo)
  }

  /** downloadUpdate unwraps the hash and the download URL of the package it is given. */
  predicate Downloadable(update: RemotePackage)
  {
    update.base.packageHash.Some? && update.downloadURL.Some?
  }

  /** The bytes a download delivers, as downloadPackage reads them: a non-empty file of at least four bytes. */
  predicate Readable(fetched: Result<seq<byte>>)
  {
    fetched.Success? ==> |fetched.value| >= |ZipHeader|
  }

  /** The diff manifest of an archive names files below a top-level folder. */
  predicate ExtractionWellFormed(extraction: Result<Extraction>)
  {
    extraction.Success? && extraction.value.diffManifest.Some? ==>
      ManifestWellFormed(extraction.value.diffManifest.value)
  }

  class BaseCore {
    /** The values the engine was created with. */
    const deploymentKey: string
    const serverUrl: string
    const appName: string
    const appVersion: string
    /** The base directory of all CodePush files. */
    const baseDirectory: Path
    /** The file name of the app's entry point, as the entry-point provider gave it. */
    const appEntryPoint: string
    /** `CFBundleShortVersionString` of the app bundle, if it has one. */
    const bundleVersion: Option<string>
    /** `identifierForVendor` of the device. */
    const clientUniqueId: string
    /** `isPackageLatest` of the platform utilities. */
    const isPackageLatest: (LocalPackage, string) -> bool
    /** `absoluteString` of the file URL of a path. */
    const urlString: Path -> string

    const updateManager: UpdateManager
    const settingsManager: SettingsManager

    /** `CodePushState`: the app was just updated; a rollback is to be reported. */
    var didUpdate: bool
    var needToReportRollback: bool

    /** The application name of the configuration: the given one, or "CodePush" when it is empty. */
    function ConfiguredAppName(): (name: string)
      ensures name != ""
      ensures appName != "" ==> name == appName
    {
      if appName != "" then appName else CodePushDefaultAppName
    }

    /** The managers work under the configured base directory and application name. */
    ghost predicate Valid()
      reads this, updateManager
    {
      updateManager.Valid() &&
      updateManager.documentsDirectory == baseDirectory &&
      updateManager.appName == ConfiguredAppName() &&
      settingsManager.appName == Some(ConfiguredAppName())
    }

    /**
     * The construction of the engine up to its managers: the fields set, nothing updated yet.
     * The managers are given, configured with the engine's application name.
     */
    constructor(deploymentKey: string, serverUrl: string, appName: string, appVersion: string,
                baseDirectory: Path, appEntryPoint: string, bundleVersion: Option<string>, clientUniqueId: string,
                isPackageLatest: (LocalPackage, string) -> bool, urlString: Path -> string,
                updateManager: UpdateManager, settingsManager: SettingsManager)
      requires updateManager.Valid() && updateManager.documentsDirectory == baseDirectory
      requires updateManager.appName == (if appName != "" then appName else CodePushDefaultAppName)
      requires settingsManager.appName == Some(if appName != "" then appName else CodePushDefaultAppName)
      ensures Valid()
      ensures this.deploymentKey == deploymentKey && this.serverUrl == serverUrl && this.appName == appName
      ensures this.appVersion == appVersion && this.baseDirectory == baseDirectory
      ensures this.appEntryPoint == appEntryPoint && this.bundleVersion == bundleVersion
      ensures this.clientUniqueId == clientUniqueId && this.isPackageLatest == isPackageLatest
      ensures this.urlString == urlString
      ensures this.updateManager == updateManager && this.settingsManager == settingsManager
      ensures !didUpdate && !needToReportRollback
    {
      this.deploymentKey := deploymentKey;
      this.serverUrl := serverUrl;
      this.appName := appName;
      this.appVersion := appVersion;
      this.baseDirectory := baseDirectory;
      this.appEntryPoint := appEntryPoint;
      this.bundleVersion := bundleVersion;
      this.clientUniqueId := clientUniqueId;
      this.isPackageLatest := isPackageLatest;
      this.urlString := urlString;
      this.updateManager := updateManager;
      this.settingsManager := settingsManager;
      this.didUpdate := false;
      this.needToReportRollback := false;
    }

    /**
     * getNativeConfiguration: the engine's values with defaults for the empty ones: the
     * application name "CodePush", the bundle's version, the CodePush server. Without an app
     * version and without a bundle version the configuration cannot be made.
     */
    function GetNativeConfiguration(): (r: Result<Configuration>)
      ensures r.Failure? <==> appVersion == "" && bundleVersion.None?
      ensures r.Failure? ==> r.error == Initialization(InitializationError)
      ensures r.Success? ==>
                r.value.appName == Some(ConfiguredAppName()) &&
                r.value.appVersion == Some(if appVersion != "" then appVersion else bundleVersion.value) &&
                r.value.serverUrl == Some(if serverUrl != "" then serverUrl else CodePushServer) &&
                r.value.serverUrl.value != "" &&
                r.value.deploymentKey == Some(deploymentKey) && r.value.clientUniqueId == Some(clientUniqueId) &&
                r.value.baseDirectory == Some(baseDirectory) && r.value.packageHash.None?
    {
      if appVersion == "" && bundleVersion.None? then
        Failure(Initialization(InitializationError))
      else
        Success(Configuration(
          Some(ConfiguredAppName()),
          Some(if appVersion != "" then appVersion else bundleVersion.value),
          Some(clientUniqueId),
          Some(deploymentKey),
          Some(baseDirectory),
          Some(if serverUrl != "" then serverUrl else CodePushServer),
          None))
    }

    /** isFirstRun: the app was just updated to this (non-empty) hash, which is the current package. */
    function IsFirstRun(packageHash: string): (r: bool)
      reads this, updateManager
      ensures r ==> updateManager.GetCurrentPackageHash() == Some(packageHash) && packageHash != ""
      ensures !didUpdate ==> !r
      ensures didUpdate && packageHash != "" && updateManager.GetCurrentPackageHash() == Some(packageHash) ==> r
    {
      didUpdate && packageHash != "" && Some(packageHash) == updateManager.GetCurrentPackageHash()
    }

    /**
     * getUpdateMetadata: the installed package in the requested state. The current package is
     * pending when its (non-empty) hash is awaiting its first run. A pending request without a
     * pending update gives nothing; a running request while the current package is pending
     * gives the previous package; otherwise the current package with its failed-install,
     * first-run and pending flags set.
     */
    function UpdateMetadata(updateState: UpdateState): (r: Result<Option<LocalPackage>>)
      reads this, updateManager, settingsManager
      requires Valid()
    {
      match updateManager.GetCurrentPackage()
      case Failure(e) => Failure(e)
      case Success(None) => Success(None)
      case Success(Some(current)) =>
        var packageHash := current.base.packageHash.value;
        var pending := if packageHash != "" then settingsManager.IsPendingUpdate(Some(packageHash)) else Success(false);
        match pending
        case Failure(e) => Failure(e)
        case Success(isPending) =>
          if updateState == Pending && !isPending then Success(None)
          else if updateState == Running && isPending then updateManager.GetPreviousPackage()
          else Success(Some(current.(base := current.base.(failedInstall := Some(FailedIn(settingsManager.FailedUpdates(), packageHash))),
                                     isFirstRun := Some(IsFirstRun(packageHash)),
                                     isPending := Some(isPending))))
    }

    /**
     * getUpdateMetadata as the source runs it. Looking up the failed updates resets a list
     * that does not decode, which changes no answer.
     */
    method GetUpdateMetadata(updateState: UpdateState) returns (r: Result<Option<LocalPackage>>)
      requires Valid()
      modifies settingsManager
      ensures Valid()
      ensures r == old(UpdateMetadata(updateState))
      ensures settingsManager.FailedUpdates() == old(settingsManager.FailedUpdates())
      ensures settingsManager.GetPendingUpdate() == old(settingsManager.GetPendingUpdate())
      ensures settingsManager.defaults == old(settingsManager.defaults) ||
              settingsManager.defaults == old(settingsManager.defaults)[settingsManager.FailedKey() := FailedList([])]
    {
      var currentPackage := updateManager.GetCurrentPackage();
      if currentPackage.Failure? {
        return Failure(currentPackage.error);
      }
      if currentPackage.value.None? {
        return Success(None);
      }
      var current := currentPackage.value.value;
      var packageHash := current.base.packageHash.value;
      var currentUpdateIsPending := false;
      if packageHash != "" {
        var pending := settingsManager.IsPendingUpdate(Some(packageHash));
        if pending.Failure? {
          return Failure(pending.error);
        }
        currentUpdateIsPending := pending.value;
      }
      if updateState == Pending && !currentUpdateIsPending {
        return Success(None);
      } else if updateState == Running && currentUpdateIsPending {
        return updateManager.GetPreviousPackage();
      }
      var failedInstall := settingsManager.ExistsFailedUpdate(packageHash);
      var firstRun := IsFirstRun(packageHash);
      r := Success(Some(current.(base := current.base.(failedInstall := Some(failedInstall)),
                                 isFirstRun := Some(firstRun),
                                 isPending := Some(currentUpdateIsPending))));
    }
  
    /** The package store is as it was. */
    twostate predicate StoreUnchanged()
      reads updateManager
    {
      updateManager.statusFile == old(updateManager.statusFile) && updateManager.packages == old(updateManager.packages)
    }

    /**
     * The effect of rollbackPackage: without a current package nothing happens; otherwise the
     * current package is added to the failed updates, its folder deleted, the previous package
     * made current and the pending update dropped. When the folder cannot be deleted the
     * failure stays recorded, the packages stay as they were and the pending update is kept.
     */
    twostate predicate RolledBackFrom(new r: Result<()>)
      reads this, updateManager, settingsManager
    {
      match old(updateManager.GetCurrentPackage())
      case Failure(e) => r == Failure(e) && StoreUnchanged() && unchanged(settingsManager)
      case Success(None) => r == Success(()) && StoreUnchanged() && unchanged(settingsManager)
      case Success(Some(failed)) =>
        var info := old(updateManager.GetCurrentPackageInfo());
        info.currentPackage.Some? &&
        var packageHash := info.currentPackage.value;
        settingsManager.FailedUpdates() == old(settingsManager.FailedUpdates()) + [failed.base] &&
        if old(updateManager.Deletable(packageHash)) then
          r == Success(()) &&
          updateManager.statusFile == Some(RolledBack(info)) &&
          updateManager.packages == old(updateManager.packages) - {packageHash} &&
          settingsManager.GetPendingUpdate() == Success(None)
        else
          r == Failure(FailedRollback(FileSystem(updateManager.PackageFolderPath(packageHash)))) &&
          StoreUnchanged() &&
          settingsManager.GetPendingUpdate() == old(settingsManager.GetPendingUpdate())
    }

    /** rollbackPackage: record the current package as failed, roll the store back, drop the pending update. */
    method RollbackPackage() returns (r: Result<()>)
      requires Valid()
      modifies updateManager, settingsManager
      ensures Valid()
      ensures RolledBackFrom(r)
    {
      var failedPackage := updateManager.GetCurrentPackage();
      if failedPackage.Failure? {
        return Failure(failedPackage.error);
      }
      if failedPackage.value.None? {
        return Success(());
      }
      settingsManager.SaveFailedUpdate(failedPackage.value.value.base);
      r := updateManager.RollbackPackage();
      if r.Failure? {
        return;
      }
      settingsManager.RemovePendingUpdate();
    }

    /** The decision of initializeUpdateAfterRestart for the engine's current state. */
    function RestartActionNow(): Result<RestartAction>
      reads this, updateManager, settingsManager
    {
      RestartDecision(settingsManager.GetPendingUpdate(), updateManager.GetCurrentPackage(), isPackageLatest, appVersion)
    }

    /**
     * The effect of initializeUpdateAfterRestart. The app counts as just updated exactly when
     * a pending update is marked as running, which consumes the pending record; a rollback is
     * to be reported once an update that was still loading is rolled back. An error in reading
     * the pending record or the current package changes nothing else.
     */
    twostate predicate RestartedFrom(new r: Result<()>)
      reads this, updateManager, settingsManager
    {
      var action := old(RestartActionNow());
      didUpdate == (action == Success(MarkRunning)) &&
      needToReportRollback == (old(needToReportRollback) || action == Success(RollBack)) &&
      (action.Failure? ==> r == Failure(action.error) && StoreUnchanged() && unchanged(settingsManager)) &&
      (action == Success(KeepState) ==> r == Success(()) && StoreUnchanged() && unchanged(settingsManager)) &&
      (action == Success(MarkRunning) ==>
         r == Success(()) && StoreUnchanged() &&
         settingsManager.defaults == old(settingsManager.defaults) - {settingsManager.PendingKey()}) &&
      (action == Success(RollBack) ==> RolledBackFrom(r)) &&
      (r.Success? && action != Success(KeepState) ==> settingsManager.GetPendingUpdate() == Success(None))
    }

    /** initializeUpdateAfterRestart: act on the update left pending by the last run. */
    method InitializeUpdateAfterRestart() returns (r: Result<()>)
      requires Valid()
      modifies this, updateManager, settingsManager
      ensures Valid()
      ensures RestartedFrom(r)
    {
      didUpdate := false;
      var pendingUpdate := settingsManager.GetPendingUpdate();
      if pendingUpdate.Failure? {
        return Failure(pendingUpdate.error);
      }
      if pendingUpdate.value.None? {
        return Success(());
      }
      var packageMetadata := updateManager.GetCurrentPackage();
      if packageMetadata.Failure? {
        return Failure(packageMetadata.error);
      }
      if packageMetadata.value.None? ||
         (!isPackageLatest(packageMetadata.value.value, appVersion) &&
          Some(appVersion) == packageMetadata.value.value.base.appVersion) {
        return Success(());
      }
      if pendingUpdate.value.value.pendingUpdateIsLoading {
        needToReportRollback := true;
        r := RollbackPackage();
      } else {
        didUpdate := true;
        settingsManager.RemovePendingUpdate();
        r := Success(());
      }
    }

    /**
     * The last steps of the initializer: make the configuration, then act on the pending
     * update. Without a configuration nothing changes.
     */
    method Initialize() returns (r: Result<()>)
      requires Valid()
      modifies this, updateManager, settingsManager
      ensures Valid()
      ensures GetNativeConfiguration().Failure? ==>
                r == Failure(GetNativeConfiguration().error) && unchanged(this, settingsManager) && StoreUnchanged()
      ensures GetNativeConfiguration().Success? ==> RestartedFrom(r)
    {
      var configuration := GetNativeConfiguration();
      if configuration.Failure? {
        return Failure(configuration.error);
      }
      r := InitializeUpdateAfterRestart();
    }

    /**
     * installUpdate: install the package, keeping the current one as previous (asking whether
     * "any" update is pending, as the source does, always answers no), then record the package
     * as pending and not yet loading. A package with an empty hash is installed, but then
     * rejected with NoHashValue.
     */
    method InstallUpdate(package: LocalPackage) returns (r: Result<bool>)
      requires Valid()
      requires package.base.packageHash.Some?
      modifies updateManager, settingsManager
      ensures Valid()
      ensures old(settingsManager.GetPendingUpdate()).Failure? ==>
                r == Failure(old(settingsManager.GetPendingUpdate()).error) && StoreUnchanged() && unchanged(settingsManager)
      ensures old(settingsManager.GetPendingUpdate()).Success? ==>
                var info := old(updateManager.GetCurrentPackageInfo());
                var removed := InstallRemoves(info, package.base.packageHash, false);
                if removed.Some? && !old(updateManager.Deletable(removed.value)) then
                  r == Failure(FailedInstall(FileSystem(updateManager.PackageFolderPath(removed.value)))) &&
                  StoreUnchanged() && unchanged(settingsManager)
                else
                  updateManager.GetCurrentPackageInfo() == Installed(info, package.base.packageHash, false) &&
                  updateManager.packages == (if removed.Some? then old(updateManager.packages) - {removed.value}
                                             else old(updateManager.packages)) &&
                  (package.base.packageHash.value == "" ==>
                     r == Failure(Install(NoHashValue)) && unchanged(settingsManager)) &&
                  (package.base.packageHash.value != "" ==>
                     r == Success(true) &&
                     settingsManager.GetPendingUpdate() == Success(Some(PendingUpdate(package.base.packageHash.value, false))) &&
                     settingsManager.FailedUpdates() == old(settingsManager.FailedUpdates()))
    {
      var removeCurrent := settingsManager.IsPendingUpdate(None);
      if removeCurrent.Failure? {
        return Failure(removeCurrent.error);
      }
      var installed := updateManager.InstallPackage(package.base.packageHash, removeCurrent.value);
      if installed.Failure? {
        return Failure(installed.error);
      }
      var pendingHash := package.base.packageHash.value;
      if pendingHash == "" {
        return Failure(Install(NoHashValue));
      }
      settingsManager.SavePendingUpdate(PendingUpdate(pendingHash, false));
      r := Success(true);
    }

    /** checkForUpdate unwraps the package it queries with: the app has a version or a current package. */
    predicate QueryPackageExists()
      reads this, updateManager
    {
      appVersion != "" || updateManager.GetCurrentPackage() != Success(None)
    }

    /** With a current package, getUpdateMetadata(.latest) gives a package or an error, never nothing. */
    lemma LatestMetadataExists()
      requires Valid()
      requires updateManager.GetCurrentPackage() != Success(None)
      ensures UpdateMetadata(Latest) != Success(None)
    {
    }

    /**
     * The outcome of checkForUpdate(withKey:). Errors in making the configuration or reading the
     * local package are wrapped as CheckForUpdate; errors of the query itself are passed on. The
     * query is sent with the given key, if non-empty, and with the app's version alone when the
     * app has a version, otherwise with the installed package; an update with the installed
     * package's hash is not reported.
     */
    function CheckOutcome(key: string, formUrl: UrlComponents -> Option<string>,
                          fetch: string -> Result<UpdateResponse>): (r: Result<Option<RemotePackage>>)
      reads this, updateManager, settingsManager
      requires Valid() && QueryPackageExists() && AnswersDecidable(fetch)
    {
      match GetNativeConfiguration()
      case Failure(e) => Failure(Error.CheckForUpdate(e))
      case Success(native) =>
        var config := native.(deploymentKey := if key != "" then Some(key) else native.deploymentKey);
        match UpdateMetadata(Latest)
        case Failure(e) => Failure(Error.CheckForUpdate(e))
        case Success(local) =>
          var queryPackage := if appVersion != "" then CreateEmptyPackageForUpdateQuery(config.appVersion)
                              else (LatestMetadataExists(); local.value);
          match QueryUpdate(config, queryPackage, formUrl, fetch)
          case Failure(e) => Failure(e)
          case Success(update) => Success(Suppressed(update, local))
    }

    /** checkForUpdate(withKey:) as the source runs it. */
    method CheckForUpdate(key: string, formUrl: UrlComponents -> Option<string>,
                          fetch: string -> Result<UpdateResponse>) returns (r: Result<Option<RemotePackage>>)
      requires Valid() && QueryPackageExists() && AnswersDecidable(fetch)
      modifies settingsManager
      ensures Valid()
      ensures r == old(CheckOutcome(key, formUrl, fetch))
      ensures settingsManager.FailedUpdates() == old(settingsManager.FailedUpdates())
      ensures settingsManager.GetPendingUpdate() == old(settingsManager.GetPendingUpdate())
    {
      var native := GetNativeConfiguration();
      if native.Failure? {
        return Failure(Error.CheckForUpdate(native.error));
      }
      var configuration := native.value.(deploymentKey := if key != "" then Some(key) else native.value.deploymentKey);
      if appVersion == "" {
        LatestMetadataExists();
      }
      var localPackage := GetUpdateMetadata(Latest);
      if localPackage.Failure? {
        return Failure(Error.CheckForUpdate(localPackage.error));
      }
      var queryPackage := if appVersion != "" then CreateEmptyPackageForUpdateQuery(configuration.appVersion)
                          else localPackage.value.value;
      var result := QueryUpdate(configuration, queryPackage, formUrl, fetch);
      match result
      case Failure(e) =>
        r := Failure(e);
      case Success(update) =>
        r := Success(Suppressed(update, localPackage.value));
    }

    /** checkForUpdate never reports the package that is installed: its hash differs from the current one. */
    lemma NeverOffersInstalled(key: string, formUrl: UrlComponents -> Option<string>,
                               fetch: string -> Result<UpdateResponse>)
      requires Valid() && QueryPackageExists() && AnswersDecidable(fetch)
      requires CheckOutcome(key, formUrl, fetch).Success? && CheckOutcome(key, formUrl, fetch).value.Some?
      ensures CheckOutcome(key, formUrl, fetch).value.value.base.packageHash != updateManager.GetCurrentPackageHash()
    {
    }
  
    /**
     * The archive steps of downloadUpdate: unzip the archive stored in the package's folder,
     * merge it with the current package and find the entry point, whose URL is the result.
     */
    method ExpandArchive(packageHash: string, extraction: Result<Extraction>, listing: Path -> seq<string>)
      returns (r: Result<string>)
      requires Valid() && ExtractionWellFormed(extraction)
      requires packageHash in updateManager.packages && updateManager.packages[packageHash].diffManifest.None?
      modifies updateManager
      ensures Valid()
      ensures updateManager.statusFile == old(updateManager.statusFile)
      ensures SameOutside(updateManager.packages, old(updateManager.packages), packageHash)
      ensures packageHash in updateManager.packages
      ensures updateManager.packages[packageHash].metadata == old(updateManager.packages[packageHash].metadata)
      ensures r.Success? ==> updateManager.packages[packageHash].diffManifest.None?
      ensures if extraction.Failure? then
                r == Failure(extraction.error)
              else if GetNativeConfiguration().Failure? then
                r == Failure(GetNativeConfiguration().error)
              else
                var entry := FindEntryPointInUpdateContents(updateManager.packages[packageHash].files, listing, [],
                                                            appEntryPoint);
                (entry.None? ==> r == Failure(MergeError(appEntryPoint))) &&
                (entry.Some? ==> r == Success(urlString(updateManager.PackageFolderPath(packageHash) + entry.value)))
    {
      var unzipped := updateManager.UnzipPackage(packageHash, extraction);
      if unzipped.Failure? {
        return Failure(unzipped.error);
      }
      ghost var unzippedPackages := updateManager.packages;
      r := MergeUnzipped(packageHash, listing);
      SameOutsideTrans(updateManager.packages, unzippedPackages, old(updateManager.packages), packageHash);
    }

    /**
     * The merge step of downloadUpdate: with the configured application name as the app
     * folder, merge the unzipped package and give the URL of its entry point.
     */
    method MergeUnzipped(packageHash: string, listing: Path -> seq<string>) returns (r: Result<string>)
      requires Valid() && packageHash in updateManager.packages
      requires updateManager.packages[packageHash].diffManifest.Some? ==>
                 ManifestWellFormed(updateManager.packages[packageHash].diffManifest.value)
      modifies updateManager
      ensures Valid()
      ensures updateManager.statusFile == old(updateManager.statusFile)
      ensures SameOutside(updateManager.packages, old(updateManager.packages), packageHash)
      ensures packageHash in updateManager.packages
      ensures updateManager.packages[packageHash].metadata == old(updateManager.packages[packageHash].metadata)
      ensures GetNativeConfiguration().Success? ==> updateManager.packages[packageHash].diffManifest.None?
      ensures if GetNativeConfiguration().Failure? then
                r == Failure(GetNativeConfiguration().error)
              else
                var entry := FindEntryPointInUpdateContents(updateManager.packages[packageHash].files, listing, [],
                                                            appEntryPoint);
                (entry.None? ==> r == Failure(MergeError(appEntryPoint))) &&
                (entry.Some? ==> r == Success(urlString(updateManager.PackageFolderPath(packageHash) + entry.value)))
    {
      var configuration := GetNativeConfiguration();
      if configuration.Failure? {
        return Failure(configuration.error);
      }
      var merged := updateManager.MergeDiff(packageHash, appEntryPoint, configuration.value.appName.value, listing);
      if merged.Failure? {
        return Failure(merged.error);
      }
      r := Success(urlString(merged.value));
    }

    /**
     * downloadUpdate: download the package into the folder of its hash. A ZIP archive is
     * stored as `download.zip`, unzipped and merged with the current package, and the entry
     * point found in it becomes the package's entry point; any other file is stored under the
     * app's entry-point name and the entry point stays empty. The package is then written to
     * the folder's `app.json` as pending, not failed and not yet run. On any error the package
     * is added to the failed updates and the error is wrapped as Download.
     *
     * `fetched` is what the request to the download URL delivers, `extraction` what unzipping
     * the archive produces and `listing` the directory listing the entry-point search sees.
     */
    method DownloadUpdate(update: RemotePackage, fetched: Result<seq<byte>>, extraction: Result<Extraction>,
                          listing: Path -> seq<string>) returns (r: Result<LocalPackage>)
      requires Valid() && Downloadable(update) && Readable(fetched) && ExtractionWellFormed(extraction)
      modifies updateManager, settingsManager
      ensures Valid()
      ensures updateManager.statusFile == old(updateManager.statusFile)
      ensures SameOutside(updateManager.packages, old(updateManager.packages), update.base.packageHash.value)
      ensures r.Failure? ==>
                r.error.Download? &&
                settingsManager.FailedUpdates() == old(settingsManager.FailedUpdates()) + [update.base] &&
                settingsManager.GetPendingUpdate() == old(settingsManager.GetPendingUpdate())
      ensures r.Success? ==>
                settingsManager.defaults == old(settingsManager.defaults) &&
                SameDescriptor(r.value.base, update.base) && r.value.base.failedInstall == Some(false) &&
                r.value.isPending == Some(true) && r.value.isFirstRun == Some(false) &&
                update.base.packageHash.value in updateManager.packages &&
                updateManager.packages[update.base.packageHash.value].metadata == Some(r.value) &&
                updateManager.packages[update.base.packageHash.value].diffManifest.None?
      ensures var packageHash := update.base.packageHash.value;
              if packageHash in old(updateManager.packages) && packageHash in updateManager.undeletable then
                r == Failure(Download(FailedDownload(FileSystem(updateManager.PackageFolderPath(packageHash))))) &&
                updateManager.packages == old(updateManager.packages)
              else if fetched.Failure? then
                r == Failure(Download(fetched.error)) && packageHash !in updateManager.packages
              else if !HasZipSignature(fetched.value) then
                r.Success? && r.value.appEntryPoint == Some("") &&
                updateManager.packages[packageHash].files == EmptyFolder.files[[appEntryPoint] := fetched.value]
              else if extraction.Failure? then
                r == Failure(Download(extraction.error))
              else if GetNativeConfiguration().Failure? then
                r == Failure(Download(GetNativeConfiguration().error))
              else
                packageHash in updateManager.packages &&
                var merged := updateManager.packages[packageHash].files;
                var entry := FindEntryPointInUpdateContents(merged, listing, [], appEntryPoint);
                (entry.None? ==> r == Failure(Download(MergeError(appEntryPoint)))) &&
                (entry.Some? ==>
                   r.Success? && r.value.appEntryPoint == Some(urlString(updateManager.PackageFolderPath(packageHash) + entry.value)))
    {
      var packageHash := update.base.packageHash.value;
      var downloaded := updateManager.DownloadPackage(packageHash, fetched);
      if downloaded.Failure? {
        settingsManager.SaveFailedUpdate(update.base);
        return Failure(Download(downloaded.error));
      }
      var downloadResult := downloaded.value;
      var entryPoint := "";
      updateManager.CreatePackageFolder(packageHash);
      var fileName := if downloadResult.isZip then ZipFileName else appEntryPoint;
      updateManager.MoveIntoPackageFolder(packageHash, fileName, downloadResult.downloadFile);
      if downloadResult.isZip {
        var expanded := ExpandArchive(packageHash, extraction, listing);
        if expanded.Failure? {
          settingsManager.SaveFailedUpdate(update.base);
          return Failure(Download(expanded.error));
        }
        entryPoint := expanded.value;
      }
      var newPackage := CreateLocalPackage(false, false, true, entryPoint, update.base);
      updateManager.WritePackageMetadata(packageHash, newPackage);
      r := Success(newPackage);
    }
  
    /**
     * doDownloadAndInstall: download the update, then install it. Errors of either step are
     * passed on. A successful install leaves the update current and recorded as pending and
     * not yet loading; a failed download leaves it on the failed updates.
     */
    method DoDownloadAndInstall(update: RemotePackage, fetched: Result<seq<byte>>, extraction: Result<Extraction>,
                                listing: Path -> seq<string>) returns (r: Result<bool>)
      requires Valid() && Downloadable(update) && Readable(fetched) && ExtractionWellFormed(extraction)
      modifies updateManager, settingsManager
      ensures Valid()
      ensures r.Success? ==>
                r.value &&
                updateManager.GetCurrentPackageHash() == update.base.packageHash &&
                settingsManager.GetPendingUpdate() == Success(Some(PendingUpdate(update.base.packageHash.value, false))) &&
                settingsManager.FailedUpdates() == old(settingsManager.FailedUpdates())
      ensures r.Failure? && r.error.Download? ==>
                settingsManager.FailedUpdates() == old(settingsManager.FailedUpdates()) + [update.base] &&
                updateManager.statusFile == old(updateManager.statusFile)
      ensures r.Failure? && !r.error.Download? ==> settingsManager.FailedUpdates() == old(settingsManager.FailedUpdates())
    {
      var localPackage := DownloadUpdate(update, fetched, extraction, listing);
      if localPackage.Failure? {
        return Failure(localPackage.error);
      }
      r := InstallUpdate(localPackage.value);
    }

    /** The options a sync runs with: an empty deployment key is replaced by the engine's. */
    function EffectiveOptions(options: SyncOptions): (o: SyncOptions)
      ensures o.deploymentKey == if options.deploymentKey != "" then options.deploymentKey else deploymentKey
      ensures o.(deploymentKey := options.deploymentKey) == options
    {
      if options.deploymentKey == "" then options.(deploymentKey := deploymentKey) else options
    }

    /** `sync(callback:)` runs with the default options under the engine's deployment key. */
    lemma DefaultSyncUsesEngineKey()
      ensures EffectiveOptions(DefaultSyncOptions()) == SyncOptionsFor(deploymentKey)
    {
    }

    /** Every update checkForUpdate can report for these options carries a hash and a download URL. */
    predicate OffersDownloadable(options: SyncOptions, formUrl: UrlComponents -> Option<string>,
                                 fetch: string -> Result<UpdateResponse>)
      reads this, updateManager, settingsManager
      requires Valid() && QueryPackageExists() && AnswersDecidable(fetch)
    {
      var check := CheckOutcome(EffectiveOptions(options).deploymentKey, formUrl, fetch);
      check.Success? && check.value.Some? ==> Downloadable(check.value.value)
    }

    /**
     * sync: check for an update with the options' key (the engine's when empty), then download
     * and install it. Errors of the configuration and of the check are wrapped as Sync, errors
     * of the download and the install are passed on. The result is false exactly when there is
     * no update, and true once the update is installed, current and pending. The options
     * object of the caller is updated in place; `used` is its new value.
     */
    method Sync(options: SyncOptions, formUrl: UrlComponents -> Option<string>, fetch: string -> Result<UpdateResponse>,
                fetched: Result<seq<byte>>, extraction: Result<Extraction>, listing: Path -> seq<string>)
      returns (r: Result<bool>, used: SyncOptions)
      requires Valid() && QueryPackageExists() && AnswersDecidable(fetch)
      requires OffersDownloadable(options, formUrl, fetch)
      requires Readable(fetched) && ExtractionWellFormed(extraction)
      modifies updateManager, settingsManager
      ensures Valid()
      ensures used == EffectiveOptions(options)
      ensures GetNativeConfiguration().Failure? ==>
                r == Failure(Error.Sync(GetNativeConfiguration().error)) && StoreUnchanged() && unchanged(settingsManager)
      ensures GetNativeConfiguration().Success? ==>
                var check := old(CheckOutcome(used.deploymentKey, formUrl, fetch));
                (check.Failure? ==> r == Failure(Error.Sync(check.error))) &&
                (r == Success(false) <==> check == Success(None)) &&
                (r == Success(true) ==>
                   check.Success? && check.value.Some? &&
                   updateManager.GetCurrentPackageHash() == check.value.value.base.packageHash &&
                   settingsManager.GetPendingUpdate() ==
                     Success(Some(PendingUpdate(check.value.value.base.packageHash.value, false)))) &&
                (check.Success? && check.value.Some? && r.Failure? && r.error.Download? ==>
                   settingsManager.FailedUpdates() == old(settingsManager.FailedUpdates()) + [check.value.value.base])
    {
      used := EffectiveOptions(options);
      var configuration := GetNativeConfiguration();
      if configuration.Failure? {
        return Failure(Error.Sync(configuration.error)), used;
      }
      var remotePackage := CheckForUpdate(used.deploymentKey, formUrl, fetch);
      if remotePackage.Failure? {
        return Failure(Error.Sync(remotePackage.error)), used;
      }
      if remotePackage.value.None? {
        return Success(false), used;
      }
      r := DoDownloadAndInstall(remotePackage.value.value, fetched, extraction, listing);
    }

    /** getUpdateMetadata(.latest) gives the current package, whatever is pending. */
    lemma LatestIsCurrent()
      requires Valid()
      requires UpdateMetadata(Latest).Success? && UpdateMetadata(Latest).value.Some?
      ensures var p := UpdateMetadata(Latest).value.value;
              p.base.packageHash == updateManager.GetCurrentPackageHash() &&
              SameDescriptor(p.base, updateManager.GetCurrentPackage().value.value.base) &&
              var h := p.base.packageHash.value;
              p.base.failedInstall == Some(FailedIn(settingsManager.FailedUpdates(), h)) &&
              p.isFirstRun == Some(didUpdate && h != "") &&
              p.isPending == Some(h != "" && settingsManager.GetPendingUpdate() == Success(Some(PendingUpdate(h, false))))
    {
    }

    /** getUpdateMetadata(.pending) gives only a current package that is pending. */
    lemma PendingIsCurrentAndPending()
      requires Valid()
      requires UpdateMetadata(Pending).Success? && UpdateMetadata(Pending).value.Some?
      ensures var p := UpdateMetadata(Pending).value.value;
              p.isPending == Some(true) && p.base.packageHash == updateManager.GetCurrentPackageHash() &&
              settingsManager.GetPendingUpdate() == Success(Some(PendingUpdate(p.base.packageHash.value, false)))
    {
    }

    /**
     * getUpdateMetadata(.running) gives the current package when it is not pending, and the
     * previous package while the current one still awaits its first run.
     */
    lemma RunningIsNotPending()
      requires Valid()
      requires UpdateMetadata(Running).Success? && UpdateMetadata(Running).value.Some?
      ensures var p := UpdateMetadata(Running).value.value;
              (p.isPending == Some(false) && p.base.packageHash == updateManager.GetCurrentPackageHash()) ||
              (p.base.packageHash == updateManager.GetPreviousPackageHash() &&
               settingsManager.GetPendingUpdate() == Success(Some(PendingUpdate(updateManager.GetCurrentPackageHash().value, false))))
    {
    }
  }
}
