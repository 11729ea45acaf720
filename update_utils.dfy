/**
 * CodePushUpdateUtils.swift: applying a diff manifest to the files of the current package,
 * and the depth-first search for the entry point of an update.
 *
 * The order in which the file system lists a directory is not specified, so it is a
 * parameter: `listing(folder)` is what `contentsOfDirectory` returns for `folder`.
 */
module UpdateUtils {
  import opened Optionals
  import opened DataContracts
  import opened FileTree

  /** Every deleted file has the two path components that removing the first one needs. */
  predicate ManifestWellFormed(manifest: DiffManifest)
  {
    forall i :: 0 <= i < |manifest.deletedFiles| ==> |manifest.deletedFiles[i]| >= 2
  }

  /** `p` is, or lies below, one of the deleted files once that file's first component is removed. */
  predicate DeletedBy(deletedFiles: seq<Path>, p: Path)
  {
    exists i :: 0 <= i < |deletedFiles| && |deletedFiles[i]| > 0 && deletedFiles[i][1..] <= p
  }

  /**
   * The new package folder after the diff is applied: every file of the current package
   * (replacing a file of the same path) and every file already there, except those the
   * manifest deletes.
   */
  function Reconciled(currentPackage: Tree, newPackage: Tree, deletedFiles: seq<Path>): (r: Tree)
    ensures forall p :: p in r <==> (p in currentPackage || p in newPackage) && !DeletedBy(deletedFiles, p)
    ensures forall p :: p in r ==> r[p] == if p in currentPackage then currentPackage[p] else newPackage[p]
  {
    var copied := newPackage + currentPackage;
    map p | p in copied && !DeletedBy(deletedFiles, p) :: copied[p]
  }

  /** Deleting one more path of the manifest extends the reconciliation by that entry. */
  lemma ReconciledStep(currentPackage: Tree, newPackage: Tree, deletedFiles: seq<Path>, i: nat)
    requires i < |deletedFiles| && |deletedFiles[i]| > 0
    ensures Delete(Reconciled(currentPackage, newPackage, deletedFiles[..i]), deletedFiles[i][1..]) ==
            Reconciled(currentPackage, newPackage, deletedFiles[..i + 1])
  {
    var before := deletedFiles[..i];
    var after := deletedFiles[..i + 1];
    forall p
      ensures DeletedBy(after, p) <==> DeletedBy(before, p) || deletedFiles[i][1..] <= p
    {
      if DeletedBy(after, p) {
        var j :| 0 <= j < |after| && |after[j]| > 0 && after[j][1..] <= p;
        if j < i {
          assert before[j] == after[j];
        }
      }
      if DeletedBy(before, p) {
        var j :| 0 <= j < |before| && |before[j]| > 0 && before[j][1..] <= p;
        assert after[j] == before[j];
      }
      if deletedFiles[i][1..] <= p {
        assert after[i] == deletedFiles[i];
      }
    }
  }

  /**
   * copyNecessaryFilesFromCurrentPackage: copy the current package into the new one, then
   * delete each file the manifest names, first path component removed, if it exists.
   */
  method CopyNecessaryFilesFromCurrentPackage(manifest: DiffManifest, currentPackage: Tree, newPackage: Tree)
    returns (r: Tree)
    requires ManifestWellFormed(manifest)
    ensures forall p :: p in r <==> (p in currentPackage || p in newPackage) && !DeletedBy(manifest.deletedFiles, p)
    ensures forall p :: p in r ==> r[p] == if p in currentPackage then currentPackage[p] else newPackage[p]
  {
    r := newPackage + currentPackage;
    assert r == Reconciled(currentPackage, newPackage, manifest.deletedFiles[..0]);
    for i := 0 to |manifest.deletedFiles|
      invariant r == Reconciled(currentPackage, newPackage, manifest.deletedFiles[..i])
    {
      var fileToDelete := manifest.deletedFiles[i][1..];
      if Exists(r, fileToDelete) {
        r := Delete(r, fileToDelete);
      } else {
        DeleteAbsent(r, fileToDelete);
      }
      ReconciledStep(currentPackage, newPackage, manifest.deletedFiles, i);
    }
    assert manifest.deletedFiles[..|manifest.deletedFiles|] == manifest.deletedFiles;
    assert r == Reconciled(currentPackage, newPackage, manifest.deletedFiles);
  }

  /**
   * findEntryPointInUpdateContents, over the entries `files` of `folder` still to visit:
   * a directory is searched first and its result returned if there is one; a file whose
   * name is the expected name is returned; otherwise the search goes on.
   */
  function SearchEntries(t: Tree, listing: Path -> seq<string>, folder: Path, files: seq<string>,
                         expectedFileName: string): (r: Option<Path>)
    ensures r.Some? ==> folder < r.value && LastName(r.value) == expectedFileName && !IsDirectory(t, r.value)
    decreases Height(t) - |folder|, |files|
  {
    if files == [] then None
    else
      var fullFilePath := Child(folder, files[0]);
      if IsDirectory(t, fullFilePath) then
        var found := SearchEntries(t, listing, fullFilePath, listing(fullFilePath), expectedFileName);
        if found.Some? then found else SearchEntries(t, listing, folder, files[1..], expectedFileName)
      else if files[0] == expectedFileName then Some(fullFilePath)
      else SearchEntries(t, listing, folder, files[1..], expectedFileName)
  }

  /** findEntryPointInUpdateContents: search `folder` for a file named `expectedFileName`. */
  function FindEntryPointInUpdateContents(t: Tree, listing: Path -> seq<string>, folder: Path,
                                          expectedFileName: string): (r: Option<Path>)
    ensures r.Some? ==> folder < r.value && LastName(r.value) == expectedFileName && !IsDirectory(t, r.value)
  {
    SearchEntries(t, listing, folder, listing(folder), expectedFileName)
  }

  /** The entries a depth-first walk in listing order meets that are not directories, in order. */
  function Walk(t: Tree, listing: Path -> seq<string>, folder: Path, files: seq<string>): seq<Path>
    decreases Height(t) - |folder|, |files|
  {
    if files == [] then []
    else
      var fullFilePath := Child(folder, files[0]);
      if IsDirectory(t, fullFilePath) then
        Walk(t, listing, fullFilePath, listing(fullFilePath)) + Walk(t, listing, folder, files[1..])
      else [fullFilePath] + Walk(t, listing, folder, files[1..])
  }

  /** The first path of `ps` whose file name is `name`. */
  function FirstNamed(ps: seq<Path>, name: string): (r: Option<Path>)
    ensures r.Some? ==> r.value in ps && |r.value| > 0 && LastName(r.value) == name
    ensures r.None? <==> forall p :: p in ps && |p| > 0 ==> LastName(p) != name
  {
    if ps == [] then None
    else if |ps[0]| > 0 && LastName(ps[0]) == name then Some(ps[0])
    else FirstNamed(ps[1..], name)
  }

  lemma {:induction false} FirstNamedAppend(a: seq<Path>, b: seq<Path>, name: string)
    ensures FirstNamed(a + b, name) == if FirstNamed(a, name).Some? then FirstNamed(a, name) else FirstNamed(b, name)
  {
    if a != [] {
      assert (a + b)[1..] == a[1..] + b;
      FirstNamedAppend(a[1..], b, name);
    } else {
      assert a + b == b;
    }
  }

  /** The search returns the first file named `expectedFileName` in depth-first listing order. */
  lemma {:induction false} SearchIsFirstOfWalk(t: Tree, listing: Path -> seq<string>, folder: Path,
                                               files: seq<string>, expectedFileName: string)
    ensures SearchEntries(t, listing, folder, files, expectedFileName) ==
            FirstNamed(Walk(t, listing, folder, files), expectedFileName)
    decreases Height(t) - |folder|, |files|
  {
    if files != [] {
      var fullFilePath := Child(folder, files[0]);
      var rest := Walk(t, listing, folder, files[1..]);
      SearchIsFirstOfWalk(t, listing, folder, files[1..], expectedFileName);
      if IsDirectory(t, fullFilePath) {
        SearchIsFirstOfWalk(t, listing, fullFilePath, listing(fullFilePath), expectedFileName);
        FirstNamedAppend(Walk(t, listing, fullFilePath, listing(fullFilePath)), rest, expectedFileName);
      } else {
        FirstNamedAppend([fullFilePath], rest, expectedFileName);
      }
    }
  }

  /** The listing names only entries that exist. */
  ghost predicate ListsOnlyEntries(t: Tree, listing: Path -> seq<string>)
  {
    forall folder: Path, name: string :: name in listing(folder) ==> Exists(t, Child(folder, name))
  }

  /** The listing names every entry that exists. */
  ghost predicate ListsAllEntries(t: Tree, listing: Path -> seq<string>)
  {
    forall folder: Path, name: string :: Exists(t, Child(folder, name)) ==> name in listing(folder)
  }

  /** With a listing of existing entries, the walk meets only files of the tree, below `folder`. */
  lemma {:induction false} WalkSound(t: Tree, listing: Path -> seq<string>, folder: Path, files: seq<string>)
    requires ListsOnlyEntries(t, listing)
    requires forall name :: name in files ==> Exists(t, Child(folder, name))
    ensures forall p :: p in Walk(t, listing, folder, files) ==> p in t && folder < p
    decreases Height(t) - |folder|, |files|
  {
    if files != [] {
      var fullFilePath := Child(folder, files[0]);
      WalkSound(t, listing, folder, files[1..]);
      if IsDirectory(t, fullFilePath) {
        WalkSound(t, listing, fullFilePath, listing(fullFilePath));
      }
    }
  }

  /** With a complete listing, the walk meets every file below `folder` whose first step is in `files`. */
  lemma {:induction false} WalkComplete(t: Tree, listing: Path -> seq<string>, folder: Path, files: seq<string>,
                                        p: Path)
    requires WellFormed(t) && ListsAllEntries(t, listing)
    requires p in t && folder < p && p[|folder|] in files
    ensures p in Walk(t, listing, folder, files)
    decreases Height(t) - |folder|, |files|
  {
    var fullFilePath := Child(folder, files[0]);
    if files[0] != p[|folder|] {
      WalkComplete(t, listing, folder, files[1..], p);
    } else {
      assert fullFilePath <= p;
      if IsDirectory(t, fullFilePath) {
        var q :| q in t && fullFilePath < q;
        assert fullFilePath != p;
        var next := Child(fullFilePath, p[|fullFilePath|]);
        assert next <= p;
        assert Exists(t, next) by {
          if next != p {
            assert next < p;
          }
        }
        WalkComplete(t, listing, fullFilePath, listing(fullFilePath), p);
      } else {
        assert !(fullFilePath < p);
        assert fullFilePath == p;
        assert Walk(t, listing, folder, files) == [fullFilePath] + Walk(t, listing, folder, files[1..]);
      }
    }
  }

  /** With an exact listing of a well-formed tree, the search finds a file of the tree. */
  lemma FindEntryPointSound(t: Tree, listing: Path -> seq<string>, folder: Path, expectedFileName: string)
    requires ListsOnlyEntries(t, listing)
    ensures var r := FindEntryPointInUpdateContents(t, listing, folder, expectedFileName);
            r.Some? ==> r.value in t
  {
    SearchIsFirstOfWalk(t, listing, folder, listing(folder), expectedFileName);
    WalkSound(t, listing, folder, listing(folder));
  }

  /**
   * With an exact listing of a well-formed tree, the search finds nothing exactly when no
   * file below `folder` carries the expected name.
   */
  lemma FindEntryPointComplete(t: Tree, listing: Path -> seq<string>, folder: Path, expectedFileName: string)
    requires WellFormed(t) && ListsOnlyEntries(t, listing) && ListsAllEntries(t, listing)
    ensures FindEntryPointInUpdateContents(t, listing, folder, expectedFileName).None? <==>
            forall p :: p in t && folder < p ==> LastName(p) != expectedFileName
  {
    var walk := Walk(t, listing, folder, listing(folder));
    SearchIsFirstOfWalk(t, listing, folder, listing(folder), expectedFileName);
    WalkSound(t, listing, folder, listing(folder));
    WalkCoversFolder(t, listing, folder);
  }

  /** With a complete listing, the walk of `folder` meets every file below it. */
  lemma WalkCoversFolder(t: Tree, listing: Path -> seq<string>, folder: Path)
    requires WellFormed(t) && ListsAllEntries(t, listing)
    ensures forall p :: p in t && folder < p ==> p in Walk(t, listing, folder, listing(folder))
  {
    forall p | p in t && folder < p
      ensures p in Walk(t, listing, folder, listing(folder))
    {
      var first := Child(folder, p[|folder|]);
      assert first <= p;
      assert Exists(t, first) by {
        if first != p {
          assert first < p;
        }
      }
      WalkComplete(t, listing, folder, listing(folder), p);
    }
  }
}
