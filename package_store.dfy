/**
 * CodePushUpdateManager.swift: the packages stored on the device. Under
 * `<documents>/<appName>/` the status file `codepush.json` names the current and the previous
 * package by hash, and each package lives in the folder named by its hash.
 */
module PackageStore {
  import opened Optionals
  import opened Errors
  import opened Results
  import opened Constants
  import opened DataContracts
  import opened FileTree
  import opened UpdateUtils

  /**
   * A package folder: its files, and the two JSON records the core reads back, the update
   * metadata `app.json` and the diff manifest `hotcodepush.json`, held as typed values.
   */
  datatype PackageFolder = PackageFolder(files: Tree, diffManifest: Option<DiffManifest>, metadata: Option<LocalPackage>)

  /** A freshly created, empty package folder. */
  const EmptyFolder: PackageFolder := PackageFolder(map[], None, None)

  /** What unzipping a downloaded archive produces: the `unzipped/` folder and possibly a diff manifest. */
  datatype Extraction = Extraction(unzipped: Tree, diffManifest: Option<DiffManifest>)

  // ---------------------------------------------------------------------------------------
  // Recognising a ZIP archive

  /** The local file header signature of a ZIP archive (PKWARE APPNOTE.TXT, section 4.3.7). */
  const ZipHeader: seq<byte> := [0x50, 0x4B, 0x03, 0x04]

  /** The data begins with the ZIP signature. */
  predicate HasZipSignature(data: seq<byte>)
  {
    |data| >= |ZipHeader| && data[..|ZipHeader|] == ZipHeader
  }

  /**
   * The signature check of downloadPackage: compare the first four bytes with the ZIP
   * header, stopping at the first difference. Fewer than four bytes cannot be sliced.
   */
  method IsZip(data: seq<byte>) returns (isZip: bool)
    requires |data| >= |ZipHeader|
    ensures isZip <==> HasZipSignature(data)
  {
    var fileSignature := data[..|ZipHeader|];
    isZip := true;
    var i := 0;
    while i < |ZipHeader|
      invariant 0 <= i <= |ZipHeader|
      invariant isZip ==> fileSignature[..i] == ZipHeader[..i]
      invariant !isZip ==> fileSignature != ZipHeader
    {
      if ZipHeader[i] != fileSignature[i] {
        isZip := false;
        break;
      }
      assert fileSignature[..i + 1] == fileSignature[..i] + [fileSignature[i]];
      assert ZipHeader[..i + 1] == ZipHeader[..i] + [ZipHeader[i]];
      i := i + 1;
    }
    assert isZip ==> fileSignature == fileSignature[..|ZipHeader|];
  }

  // ---------------------------------------------------------------------------------------
  // The two pointers of the status file

  /** The hashes the status file points to. */
  function Pointed(info: PackageInfo): set<string>
  {
    (if info.currentPackage.Some? then {info.currentPackage.value} else {}) +
    (if info.previousPackage.Some? then {info.previousPackage.value} else {})
  }

  /** The current and the previous package are never the same package. */
  predicate Exclusive(info: PackageInfo)
  {
    info.currentPackage.Some? && info.previousPackage.Some? ==> info.currentPackage != info.previousPackage
  }

  /** The package folder installPackage deletes, if any. */
  function InstallRemoves(info: PackageInfo, packageHash: Option<string>, removeCurrent: bool): Option<string>
  {
    if packageHash.Some? && packageHash == info.currentPackage then None
    else if removeCurrent then info.currentPackage
    else if info.previousPackage.Some? && info.previousPackage != packageHash then info.previousPackage
    else None
  }

  /** The status installPackage leaves. */
  function Installed(info: PackageInfo, packageHash: Option<string>, removeCurrent: bool): PackageInfo
  {
    if packageHash.Some? && packageHash == info.currentPackage then info
    else if removeCurrent then PackageInfo(packageHash, info.previousPackage)
    else PackageInfo(packageHash, info.currentPackage)
  }

  /** The status rollbackPackage leaves. */
  function RolledBack(info: PackageInfo): PackageInfo
  {
    PackageInfo(info.previousPackage, None)
  }

  /** After an install the package installed is the current one. */
  lemma InstallMakesCurrent(info: PackageInfo, packageHash: Option<string>, removeCurrent: bool)
    ensures Installed(info, packageHash, removeCurrent).currentPackage == packageHash
  {
  }

  /** Installing the same hash twice is the same as installing it once, and the second install deletes nothing. */
  lemma InstallIdempotent(info: PackageInfo, packageHash: string, removeCurrent: bool, again: bool)
    ensures var once := Installed(info, Some(packageHash), removeCurrent);
            Installed(once, Some(packageHash), again) == once && InstallRemoves(once, Some(packageHash), again).None?
  {
  }

  /**
   * An install keeps the current and the previous package apart; when it replaces the current
   * update it does so only if the hash is not the previous package's.
   */
  lemma InstallKeepsExclusive(info: PackageInfo, packageHash: Option<string>, removeCurrent: bool)
    requires Exclusive(info)
    requires removeCurrent && packageHash.Some? && packageHash != info.currentPackage ==> packageHash != info.previousPackage
    ensures Exclusive(Installed(info, packageHash, removeCurrent))
  {
  }

  /** Replacing the current update with the previous package's hash makes both pointers equal. */
  lemma RemoveCurrentCanAlias(current: string, previous: string)
    requires current != previous
    ensures var info := Installed(PackageInfo(Some(current), Some(previous)), Some(previous), true);
            info.currentPackage == info.previousPackage == Some(previous)
  {
  }

  /**
   * Folders that the status file does not reach are not kept: if every folder is pointed to
   * or is the one being installed, then after the install every remaining folder is pointed to.
   */
  lemma InstallRetainsOnlyPointed(folders: set<string>, info: PackageInfo, packageHash: Option<string>, removeCurrent: bool)
    requires forall h :: h in folders ==> h in Pointed(info) || Some(h) == packageHash
    ensures var removed := InstallRemoves(info, packageHash, removeCurrent);
            var kept := if removed.Some? then folders - {removed.value} else folders;
            forall h :: h in kept ==> h in Pointed(Installed(info, packageHash, removeCurrent))
  {
  }

  /** A rollback makes the previous package current and leaves no previous package. */
  lemma RollbackRetainsOnlyPointed(folders: set<string>, info: PackageInfo)
    requires info.currentPackage.Some?
    requires forall h :: h in folders ==> h in Pointed(info)
    ensures Exclusive(RolledBack(info))
    ensures forall h :: h in folders - {info.currentPackage.value} ==> h in Pointed(RolledBack(info))
  {
  }

  /**
   * Installing two updates in turn and rolling back returns to the first: the first is current
   * again, there is no previous package, and the folder of the second is the one deleted.
   */
  lemma InstallInstallRollback(first: string, second: string, removeCurrent: bool)
    requires first != second
    ensures var once := Installed(EmptyPackageInfo, Some(first), removeCurrent);
            var twice := Installed(once, Some(second), false);
            InstallRemoves(EmptyPackageInfo, Some(first), removeCurrent).None? &&
            InstallRemoves(once, Some(second), false).None? &&
            twice == PackageInfo(Some(second), Some(first)) &&
            RolledBack(twice) == PackageInfo(Some(first), None)
  {
  }

  // ---------------------------------------------------------------------------------------
  // Merging a downloaded update into its folder

  /**
   * `<appFolder>/p` is a file of the new package once mergeDiff has copied the current
   * package in: for a diff update with a current package (`current` holds its files), a file
   * of either package's `<appFolder>` that the manifest does not delete; otherwise a file the
   * new package already had there.
   */
  predicate InSeed(files: Tree, diff: Option<DiffManifest>, current: Option<Tree>, appFolder: string, p: Path)
  {
    if diff.Some? && current.Some? then
      (Under(appFolder, p) in current.value || Under(appFolder, p) in files) && !DeletedBy(diff.value.deletedFiles, p)
    else Under(appFolder, p) in files
  }

  /** The contents of such a file: the current package's copy replaces the new package's. */
  function SeedValue(files: Tree, diff: Option<DiffManifest>, current: Option<Tree>, appFolder: string, p: Path): seq<byte>
    requires InSeed(files, diff, current, appFolder, p)
  {
    if diff.Some? && current.Some? && Under(appFolder, p) in current.value then current.value[Under(appFolder, p)]
    else files[Under(appFolder, p)]
  }

  /**
   * `r` is what mergeDiff leaves of the new package's files `files`: `<appFolder>` holds the
   * files of `unzipped/` and, where `unzipped/` has none, the copied-in files (InSeed);
   * `unzipped/` is gone; everything else is as it was. An app folder named `unzipped` is
   * copied onto itself and then deleted with everything in it.
   */
  ghost predicate MergedFrom(r: Tree, files: Tree, diff: Option<DiffManifest>, current: Option<Tree>, appFolder: string)
  {
    if appFolder == UnzippedFolderName then
      forall k :: (k in r <==> k in files && !([UnzippedFolderName] <= k)) && (k in r ==> r[k] == files[k])
    else
      (forall p :: Under(appFolder, p) in r <==> Under(UnzippedFolderName, p) in files || InSeed(files, diff, current, appFolder, p)) &&
      (forall p :: Under(UnzippedFolderName, p) in files ==> r[Under(appFolder, p)] == files[Under(UnzippedFolderName, p)]) &&
      (forall p :: Under(UnzippedFolderName, p) !in files && InSeed(files, diff, current, appFolder, p) ==>
                   r[Under(appFolder, p)] == SeedValue(files, diff, current, appFolder, p)) &&
      (forall p :: Under(UnzippedFolderName, p) !in r) &&
      (forall k :: (|k| == 0 || (k[0] != appFolder && k[0] != UnzippedFolderName)) ==>
                     (k in r <==> k in files) && (k in files ==> r[k] == files[k]))
  }

  /** MergedFrom says everything about the merged files: at most one tree satisfies it. */
  lemma MergedFromUnique(r1: Tree, r2: Tree, files: Tree, diff: Option<DiffManifest>, current: Option<Tree>, appFolder: string)
    requires MergedFrom(r1, files, diff, current, appFolder) && MergedFrom(r2, files, diff, current, appFolder)
    ensures r1 == r2
  {
    if appFolder != UnzippedFolderName {
      forall k
        ensures (k in r1 <==> k in r2) && (k in r1 ==> r1[k] == r2[k])
      {
        if |k| > 0 && (k[0] == appFolder || k[0] == UnzippedFolderName) {
          assert k == Under(k[0], k[1..]);
        }
      }
    }
    TreeEquality(r1, r2);
  }

  /**
   * The first file operation of mergeDiff: for a diff update with a current package,
   * copyNecessaryFilesFromCurrentPackage from the current package's `<appFolder>` into the
   * new one's. Only `<appFolder>` changes.
   */
  method SeedAppFolder(files: Tree, diff: Option<DiffManifest>, current: Option<Tree>, appFolder: string) returns (seeded: Tree)
    requires diff.Some? ==> ManifestWellFormed(diff.value)
    ensures forall p :: Under(appFolder, p) in seeded <==> InSeed(files, diff, current, appFolder, p)
    ensures forall p :: InSeed(files, diff, current, appFolder, p) ==>
                          seeded[Under(appFolder, p)] == SeedValue(files, diff, current, appFolder, p)
    ensures forall k :: (|k| == 0 || k[0] != appFolder) ==> (k in seeded <==> k in files) && (k in files ==> seeded[k] == files[k])
  {
    seeded := files;
    if diff.Some? && current.Some? {
      var newPackage := CopyNecessaryFilesFromCurrentPackage(diff.value, Subtree(current.value, appFolder), Subtree(files, appFolder));
      seeded := Replace(files, appFolder, newPackage);
    }
  }

  /**
   * The file operations of mergeDiff on the new package's folder: the current package is
   * copied in (SeedAppFolder); then the contents of `unzipped/` are copied over
   * `<appFolder>` and `unzipped/` is deleted.
   */
  method MergeFolder(files: Tree, diff: Option<DiffManifest>, current: Option<Tree>, appFolder: string) returns (r: Tree)
    requires diff.Some? ==> ManifestWellFormed(diff.value)
    ensures MergedFrom(r, files, diff, current, appFolder)
  {
    var seeded := SeedAppFolder(files, diff, current, appFolder);
    var unzipped := Subtree(seeded, UnzippedFolderName);
    r := CopyInto(seeded, appFolder, unzipped);
    r := Delete(r, [UnzippedFolderName]);
    if appFolder != UnzippedFolderName {
      forall p
        ensures Under(UnzippedFolderName, p) in seeded <==> Under(UnzippedFolderName, p) in files
      {
        assert Under(UnzippedFolderName, p)[0] != appFolder;
      }
      forall p
        ensures Under(appFolder, p) in r <==> Under(appFolder, p) in CopyInto(seeded, appFolder, unzipped)
      {
        assert Under(appFolder, p)[0] != UnzippedFolderName;
      }
      forall p
        ensures Under(UnzippedFolderName, p) !in r
      {
        assert [UnzippedFolderName] <= Under(UnzippedFolderName, p);
      }
    }
  }

  /**
   * A diff merge on concrete files: the current package holds a, b and c; the manifest
   * deletes b; the update supplies c and d. The merged `CodePush/` holds a as it was, c and
   * d with the new contents, and no b.
   */
  lemma DiffMergeExample(r: Tree)
    requires MergedFrom(r, map[["unzipped", "c"] := [4 as byte], ["unzipped", "d"] := [5]],
                        Some(DiffManifest([["CodePush", "b"]])),
                        Some(map[["CodePush", "a"] := [1 as byte], ["CodePush", "b"] := [2], ["CodePush", "c"] := [3]]),
                        "CodePush")
    ensures ["CodePush", "a"] in r && r[["CodePush", "a"]] == [1]
    ensures ["CodePush", "b"] !in r
    ensures ["CodePush", "c"] in r && r[["CodePush", "c"]] == [4]
    ensures ["CodePush", "d"] in r && r[["CodePush", "d"]] == [5]
  {
    var files := map[["unzipped", "c"] := [4 as byte], ["unzipped", "d"] := [5]];
    var deleted: seq<Path> := [["CodePush", "b"]];
    var current := map[["CodePush", "a"] := [1 as byte], ["CodePush", "b"] := [2], ["CodePush", "c"] := [3]];
    assert Under("CodePush", ["a"]) == ["CodePush", "a"];
    assert Under("CodePush", ["b"]) == ["CodePush", "b"];
    assert Under("CodePush", ["c"]) == ["CodePush", "c"];
    assert Under("CodePush", ["d"]) == ["CodePush", "d"];
    assert Under(UnzippedFolderName, ["a"]) == ["unzipped", "a"];
    assert Under(UnzippedFolderName, ["b"]) == ["unzipped", "b"];
    assert Under(UnzippedFolderName, ["c"]) == ["unzipped", "c"];
    assert Under(UnzippedFolderName, ["d"]) == ["unzipped", "d"];
    assert deleted[0][1..] == ["b"];
    assert DeletedBy(deleted, ["b"]);
    assert !(["b"] <= ["a"]);
    assert !DeletedBy(deleted, ["a"]);
  }

  // ---------------------------------------------------------------------------------------
  // The update manager

  /** Every stored `app.json` describes the package of the folder it is in. */
  ghost predicate MetadataMatchesFolders(packages: map<string, PackageFolder>)
  {
    forall h :: h in packages && packages[h].metadata.Some? ==> packages[h].metadata.value.base.packageHash == Some(h)
  }

  /** The two sets of package folders agree on every hash but `packageHash`. */
  ghost predicate SameOutside(after: map<string, PackageFolder>, before: map<string, PackageFolder>, packageHash: string)
  {
    forall h :: h != packageHash ==> (h in after <==> h in before) && (h in after ==> after[h] == before[h])
  }

  lemma SameOutsideTrans(a: map<string, PackageFolder>, b: map<string, PackageFolder>, c: map<string, PackageFolder>,
                         packageHash: string)
    requires SameOutside(a, b, packageHash) && SameOutside(b, c, packageHash)
    ensures SameOutside(a, c, packageHash)
  {
  }

  /** Storing one folder changes nothing outside its hash. */
  lemma StoreSameOutside(packages: map<string, PackageFolder>, packageHash: string, folder: PackageFolder)
    ensures SameOutside(packages[packageHash := folder], packages, packageHash)
  {
  }

  class UpdateManager {
    /** The base directory handed to the manager. */
    const documentsDirectory: Path
    /** The configured application name; it names the folder of all packages. */
    const appName: string
    /** Package folders the file system refuses to delete. */
    const undeletable: set<string>
    /** `codepush.json`, or None when the file does not exist. */
    var statusFile: Option<PackageInfo>
    /** The package folders, by hash. */
    var packages: map<string, PackageFolder>

    ghost predicate Valid()
      reads this
    {
      MetadataMatchesFolders(packages)
    }

    /** A manager over the packages already on the device. */
    constructor(documentsDirectory: Path, appName: string, undeletable: set<string>,
                statusFile: Option<PackageInfo>, packages: map<string, PackageFolder>)
      requires MetadataMatchesFolders(packages)
      ensures Valid()
      ensures this.documentsDirectory == documentsDirectory && this.appName == appName
      ensures this.undeletable == undeletable && this.statusFile == statusFile && this.packages == packages
    {
      this.documentsDirectory := documentsDirectory;
      this.appName := appName;
      this.undeletable := undeletable;
      this.statusFile := statusFile;
      this.packages := packages;
    }

    /** getCodePushPath: `<documents>/<appName>`. */
    function CodePushPath(): Path
    {
      Child(documentsDirectory, appName)
    }

    /** getStatusFilePath: `<documents>/<appName>/codepush.json`. */
    function StatusFilePath(): Path
    {
      Child(CodePushPath(), StatusFileName)
    }

    /** getPackageFolderPath: `<documents>/<appName>/<hash>`. */
    function PackageFolderPath(packageHash: string): Path
    {
      Child(CodePushPath(), packageHash)
    }

    /** Each hash has its own folder, and only a package hashed `codepush.json` would share the status file's path. */
    lemma FolderPathsDistinct(h1: string, h2: string)
      ensures PackageFolderPath(h1) == PackageFolderPath(h2) <==> h1 == h2
      ensures PackageFolderPath(h1) == StatusFilePath() <==> h1 == StatusFileName
    {
      if PackageFolderPath(h1) == PackageFolderPath(h2) {
        assert PackageFolderPath(h1)[|CodePushPath()|] == h1;
      }
      if PackageFolderPath(h1) == StatusFilePath() {
        assert PackageFolderPath(h1)[|CodePushPath()|] == h1;
      }
    }

    /** getCurrentPackageInfo: the status file, or no packages at all when it does not exist. */
    function GetCurrentPackageInfo(): (info: PackageInfo)
      reads this
      ensures statusFile.None? ==> info == EmptyPackageInfo
      ensures statusFile.Some? ==> info == statusFile.value
    {
      if statusFile.Some? then statusFile.value else EmptyPackageInfo
    }

    /** getCurrentPackageHash. */
    function GetCurrentPackageHash(): Option<string>
      reads this
    {
      GetCurrentPackageInfo().currentPackage
    }

    /** getPreviousPackageHash. */
    function GetPreviousPackageHash(): Option<string>
      reads this
    {
      GetCurrentPackageInfo().previousPackage
    }

    /** getPackage: the `app.json` of the package's folder; reading a missing one fails. */
    function GetPackage(packageHash: string): (r: Result<LocalPackage>)
      reads this
      ensures r.Success? <==> packageHash in packages && packages[packageHash].metadata.Some?
      ensures r.Success? ==> r.value == packages[packageHash].metadata.value
      ensures Valid() && r.Success? ==> r.value.base.packageHash == Some(packageHash)
      ensures r.Failure? ==> r.error == FileSystem(Child(PackageFolderPath(packageHash), PackageFileName))
    {
      if packageHash in packages && packages[packageHash].metadata.Some? then
        Success(packages[packageHash].metadata.value)
      else
        Failure(FileSystem(Child(PackageFolderPath(packageHash), PackageFileName)))
    }

    /** getCurrentPackage: nothing without a current pointer, else the current package's metadata. */
    function GetCurrentPackage(): (r: Result<Option<LocalPackage>>)
      reads this
      ensures GetCurrentPackageHash().None? ==> r == Success(None)
      ensures GetCurrentPackageHash().Some? ==>
                (r.Success? <==> GetPackage(GetCurrentPackageHash().value).Success?)
      ensures Valid() && r.Success? && r.value.Some? ==>
                r.value.value.base.packageHash == GetCurrentPackageHash()
    {
      match GetCurrentPackageHash()
      case None => Success(None)
      case Some(h) =>
        match GetPackage(h)
        case Success(p) => Success(Some(p))
        case Failure(e) => Failure(e)
    }

    /** getPreviousPackage: nothing without a previous pointer, else the previous package's metadata. */
    function GetPreviousPackage(): (r: Result<Option<LocalPackage>>)
      reads this
      ensures GetPreviousPackageHash().None? ==> r == Success(None)
      ensures GetPreviousPackageHash().Some? ==>
                (r.Success? <==> GetPackage(GetPreviousPackageHash().value).Success?)
      ensures Valid() && r.Success? && r.value.Some? ==>
                r.value.value.base.packageHash == GetPreviousPackageHash()
    {
      match GetPreviousPackageHash()
      case None => Success(None)
      case Some(h) =>
        match GetPackage(h)
        case Success(p) => Success(Some(p))
        case Failure(e) => Failure(e)
    }

    /** getCurrentPackagePath: the current package's folder, if there is a current package. */
    function GetCurrentPackagePath(): (r: Option<Path>)
      reads this
      ensures r.Some? <==> GetCurrentPackageHash().Some?
      ensures r.Some? ==> r.value == PackageFolderPath(GetCurrentPackageHash().value)
    {
      match GetCurrentPackageHash()
      case None => None
      case Some(h) => Some(PackageFolderPath(h))
    }

    /** getPreviousPackagePath: the previous package's folder, if there is a previous package. */
    function GetPreviousPackagePath(): (r: Option<Path>)
      reads this
      ensures r.Some? <==> GetPreviousPackageHash().Some?
      ensures r.Some? ==> r.value == PackageFolderPath(GetPreviousPackageHash().value)
    {
      match GetPreviousPackageHash()
      case None => None
      case Some(h) => Some(PackageFolderPath(h))
    }

    /** Deleting the folder of `packageHash` succeeds: the folder exists and may be removed. */
    predicate Deletable(packageHash: string)
      reads this
    {
      packageHash in packages && packageHash !in undeletable
    }

    /**
     * rollbackPackage: delete the current package's folder, make the previous package current
     * and forget the previous one. A failure leaves everything as it was.
     */
    method RollbackPackage() returns (r: Result<()>)
      requires Valid()
      requires GetCurrentPackageHash().Some?
      modifies this
      ensures Valid()
      ensures var info := old(GetCurrentPackageInfo());
              var failed := info.currentPackage.value;
              if old(Deletable(failed)) then
                r == Success(()) && statusFile == Some(RolledBack(info)) && packages == old(packages) - {failed}
              else
                r == Failure(FailedRollback(FileSystem(PackageFolderPath(failed)))) &&
                statusFile == old(statusFile) && packages == old(packages)
    {
      var info := GetCurrentPackageInfo();
      var currentPackageHash := GetCurrentPackageHash().value;
      if !Deletable(currentPackageHash) {
        return Failure(FailedRollback(FileSystem(PackageFolderPath(currentPackageHash))));
      }
      packages := packages - {currentPackageHash};
      statusFile := Some(PackageInfo(info.previousPackage, None));
      r := Success(());
    }

    /**
     * installPackage: make `packageHash` current. Nothing happens when it already is. With
     * `removeCurrent` the current package's folder is deleted; otherwise the previous
     * package's folder is deleted, unless it is the package being installed, and the current
     * package becomes the previous one. A failed deletion leaves everything as it was.
     */
    method InstallPackage(packageHash: Option<string>, removeCurrent: bool) returns (r: Result<()>)
      requires Valid()
      modifies this
      ensures Valid()
      ensures var info := old(GetCurrentPackageInfo());
              var removed := InstallRemoves(info, packageHash, removeCurrent);
              if removed.Some? && !old(Deletable(removed.value)) then
                r == Failure(FailedInstall(FileSystem(PackageFolderPath(removed.value)))) &&
                statusFile == old(statusFile) && packages == old(packages)
              else if packageHash.Some? && packageHash == info.currentPackage then
                r == Success(()) && statusFile == old(statusFile) && packages == old(packages)
              else
                r == Success(()) && statusFile == Some(Installed(info, packageHash, removeCurrent)) &&
                packages == (if removed.Some? then old(packages) - {removed.value} else old(packages))
    {
      var info := GetCurrentPackageInfo();
      var currentPackageHash := GetCurrentPackageHash();
      if packageHash.Some? && packageHash == currentPackageHash {
        return Success(());
      }
      if removeCurrent {
        if currentPackageHash.Some? {
          if !Deletable(currentPackageHash.value) {
            return Failure(FailedInstall(FileSystem(PackageFolderPath(currentPackageHash.value))));
          }
          packages := packages - {currentPackageHash.value};
        }
      } else {
        var previousPackageHash := GetPreviousPackageHash();
        if previousPackageHash.Some? && previousPackageHash != packageHash {
          if !Deletable(previousPackageHash.value) {
            return Failure(FailedInstall(FileSystem(PackageFolderPath(previousPackageHash.value))));
          }
          packages := packages - {previousPackageHash.value};
        }
        info := info.(previousPackage := info.currentPackage);
      }
      info := info.(currentPackage := packageHash);
      statusFile := Some(info);
      r := Success(());
    }

    /**
     * downloadPackage: remove a stale folder of the hash, then classify the downloaded file.
     * `fetched` is what the download request delivered. A folder that cannot be removed gives
     * FailedDownload before anything is fetched; a failed download is passed on.
     */
    method DownloadPackage(packageHash: string, fetched: Result<seq<byte>>) returns (r: Result<DownloadPackageResult>)
      requires Valid()
      requires fetched.Success? ==> |fetched.value| >= |ZipHeader|
      modifies this
      ensures Valid()
      ensures statusFile == old(statusFile)
      ensures if packageHash in old(packages) && packageHash in undeletable then
                r == Failure(FailedDownload(FileSystem(PackageFolderPath(packageHash)))) && packages == old(packages)
              else
                packages == old(packages) - {packageHash} &&
                (fetched.Failure? ==> r == Failure(fetched.error)) &&
                (fetched.Success? ==> r == Success(DownloadPackageResult(fetched.value, HasZipSignature(fetched.value))))
    {
      if packageHash in packages {
        if !Deletable(packageHash) {
          return Failure(FailedDownload(FileSystem(PackageFolderPath(packageHash))));
        }
        packages := packages - {packageHash};
      }
      match fetched
      case Failure(e) =>
        r := Failure(e);
      case Success(downloadFile) =>
        var isZip := IsZip(downloadFile);
        r := Success(DownloadPackageResult(downloadFile, isZip));
    }

    /** `createDirectoryIfNotExists` on the package's folder. */
    method CreatePackageFolder(packageHash: string)
      requires Valid()
      modifies this
      ensures Valid()
      ensures statusFile == old(statusFile)
      ensures packages == if packageHash in old(packages) then old(packages) else old(packages)[packageHash := EmptyFolder]
    {
      if packageHash !in packages {
        packages := packages[packageHash := EmptyFolder];
      }
    }

    /** `moveFile`: the downloaded file becomes `<folder>/<fileName>`. */
    method MoveIntoPackageFolder(packageHash: string, fileName: string, data: seq<byte>)
      requires Valid() && packageHash in packages
      modifies this
      ensures Valid()
      ensures statusFile == old(statusFile)
      ensures packages == old(packages)[packageHash :=
                old(packages[packageHash]).(files := old(packages[packageHash]).files[[fileName] := data])]
    {
      var folder := packages[packageHash];
      packages := packages[packageHash := folder.(files := folder.files[[fileName] := data])];
    }

    /** `unzipPackage`: the archive's contents land in `<folder>/unzipped/`, its manifest in the folder. */
    method UnzipPackage(packageHash: string, extraction: Result<Extraction>) returns (r: Result<()>)
      requires Valid() && packageHash in packages
      modifies this
      ensures Valid()
      ensures statusFile == old(statusFile)
      ensures extraction.Failure? ==> r == Failure(extraction.error) && packages == old(packages)
      ensures extraction.Success? ==>
                packageHash in packages && SameOutside(packages, old(packages), packageHash) &&
                packages[packageHash].metadata == old(packages[packageHash].metadata) &&
                packages[packageHash].diffManifest == extraction.value.diffManifest
      ensures extraction.Success? ==>
                r == Success(()) &&
                packages == old(packages)[packageHash := old(packages[packageHash]).(
                  files := CopyInto(old(packages[packageHash]).files, UnzippedFolderName, extraction.value.unzipped),
                  diffManifest := extraction.value.diffManifest)]
    {
      match extraction
      case Failure(e) =>
        r := Failure(e);
      case Success(x) =>
        var folder := packages[packageHash];
        var files := CopyInto(folder.files, UnzippedFolderName, x.unzipped);
        StoreSameOutside(packages, packageHash, folder.(files := files, diffManifest := x.diffManifest));
        packages := packages[packageHash := folder.(files := files, diffManifest := x.diffManifest)];
        r := Success(());
    }

    /** `writeObjectToJsonFile` of the package's `app.json`. */
    method WritePackageMetadata(packageHash: string, package: LocalPackage)
      requires Valid() && packageHash in packages
      requires package.base.packageHash == Some(packageHash)
      modifies this
      ensures Valid()
      ensures statusFile == old(statusFile)
      ensures packages == old(packages)[packageHash := old(packages[packageHash]).(metadata := Some(package))]
    {
      var folder := packages[packageHash];
      packages := packages[packageHash := folder.(metadata := Some(package))];
    }

    /** The files mergeDiff copies from: None without a current package; a missing folder copies nothing. */
    function CurrentPackageFiles(): (r: Option<Tree>)
      reads this
      ensures r.Some? <==> GetCurrentPackageHash().Some?
    {
      match GetCurrentPackageHash()
      case None => None
      case Some(h) => Some(if h in packages then packages[h].files else map[])
    }

    /**
     * mergeDiff: merge the new package's folder (see MergedFrom), drop its diff manifest, and
     * search the folder for the entry point in the file system's listing order. Without an
     * entry point the merged folder stays and MergeError is thrown. The folder of a hash
     * that was never downloaded cannot be listed.
     */
    method MergeDiff(newHash: string, expectedEntryPoint: string, appFolder: string, listing: Path -> seq<string>)
      returns (r: Result<Path>)
      requires Valid()
      requires newHash in packages && packages[newHash].diffManifest.Some? ==>
                 ManifestWellFormed(packages[newHash].diffManifest.value)
      modifies this
      ensures Valid()
      ensures statusFile == old(statusFile)
      ensures newHash !in old(packages) ==>
                r == Failure(FileSystem(PackageFolderPath(newHash))) && packages == old(packages)
      ensures newHash in old(packages) ==>
                newHash in packages && SameOutside(packages, old(packages), newHash) &&
                packages[newHash].diffManifest.None? &&
                packages[newHash].metadata == old(packages[newHash].metadata) &&
                MergedFrom(packages[newHash].files, old(packages[newHash].files), old(packages[newHash].diffManifest),
                           old(CurrentPackageFiles()), appFolder) &&
                var entry := FindEntryPointInUpdateContents(packages[newHash].files, listing, [], expectedEntryPoint);
                (entry.None? ==> r == Failure(MergeError(expectedEntryPoint))) &&
                (entry.Some? ==> r == Success(PackageFolderPath(newHash) + entry.value))
    {
      if newHash !in packages {
        return Failure(FileSystem(PackageFolderPath(newHash)));
      }
      var folder := packages[newHash];
      var current := CurrentPackageFiles();
      var files := MergeFolder(folder.files, folder.diffManifest, current, appFolder);
      packages := packages[newHash := folder.(files := files, diffManifest := None)];
      var appEntryPoint := FindEntryPointInUpdateContents(files, listing, [], expectedEntryPoint);
      if appEntryPoint.None? {
        r := Failure(MergeError(expectedEntryPoint));
      } else {
        r := Success(PackageFolderPath(newHash) + appEntryPoint.value);
      }
    }
  }
}
