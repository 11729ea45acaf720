/**
 * A directory tree as the file operations of the core see it: a finite map from the path of
 * each regular file (its components, relative to the tree's root) to its bytes. Directories
 * are not stored; a directory exists exactly when it is a proper prefix of some file path.
 * These are the operations of the `FileUtils` collaborator that the core relies on
 * (`fileExists`, `deleteEntityAtPath`, `copyDirectoryContents`).
 */
module FileTree {
  import opened DataContracts

  type Path = seq<string>
  type Tree = map<Path, seq<byte>>

  /** `appendPathComponent`: the entry `name` inside `folder`. */
  function Child(folder: Path, name: string): (p: Path)
    ensures |p| == |folder| + 1 && folder < p && p[|folder|] == name
  {
    folder + [name]
  }

  /** The path `p` inside the top-level folder `name`. */
  function Under(name: string, p: Path): (q: Path)
    ensures |q| == |p| + 1 && q[0] == name && q[1..] == p
  {
    [name] + p
  }

  /** The last component of a path: the file name. */
  function LastName(p: Path): string
    requires |p| > 0
  {
    p[|p| - 1]
  }

  /** `q` is a directory: some file lies strictly below it. */
  predicate IsDirectory(t: Tree, q: Path)
  {
    exists p :: p in t && q < p
  }

  /** `fileExists`: `q` is a file or a directory. */
  predicate Exists(t: Tree, q: Path)
  {
    q in t || IsDirectory(t, q)
  }

  /** No file path is also a directory, as on a real file system. */
  ghost predicate WellFormed(t: Tree)
  {
    forall p, q :: p in t && q in t ==> !(p < q)
  }

  /** `deleteEntityAtPath`: remove the file `q`, or the directory `q` with everything below it. */
  function Delete(t: Tree, q: Path): (r: Tree)
    ensures forall p :: p in r <==> p in t && !(q <= p)
    ensures forall p :: p in r ==> r[p] == t[p]
  {
    map p | p in t && !(q <= p) :: t[p]
  }

  /** Deleting what does not exist changes nothing. */
  lemma DeleteAbsent(t: Tree, q: Path)
    requires !Exists(t, q)
    ensures Delete(t, q) == t
  {
    forall p | p in t
      ensures !(q <= p)
    {
      assert q != p && !(q < p);
    }
  }

  /** The keys of `t` inside the top-level folder `name`, relative to that folder. */
  function SubtreeKeys(t: Tree, name: string): (ks: set<Path>)
    ensures forall p :: p in ks <==> Under(name, p) in t
  {
    var ks := set k | k in t && |k| > 0 && k[0] == name :: k[1..];
    assert forall k | k in t && |k| > 0 && k[0] == name :: Under(name, k[1..]) == k;
    ks
  }

  /** The contents of the top-level folder `name`, as a tree of its own. */
  function Subtree(t: Tree, name: string): (s: Tree)
    ensures forall p :: p in s <==> Under(name, p) in t
    ensures forall p :: p in s ==> s[p] == t[Under(name, p)]
  {
    map p | p in SubtreeKeys(t, name) :: t[Under(name, p)]
  }

  /** The tree `s` stored as the top-level folder `name`. */
  function Place(s: Tree, name: string): (t: Tree)
    ensures forall p :: Under(name, p) in t <==> p in s
    ensures forall p :: p in s ==> t[Under(name, p)] == s[p]
    ensures forall k :: k in t ==> |k| > 0 && k[0] == name
  {
    var keys := set p | p in s :: Under(name, p);
    map k | k in keys :: s[k[1..]]
  }

  /** `copyDirectoryContents(s, name)`: the files of `s` written into the folder `name`, replacing same paths. */
  function CopyInto(t: Tree, name: string, s: Tree): (r: Tree)
    ensures forall p :: Under(name, p) in r <==> p in s || Under(name, p) in t
    ensures forall p :: p in s ==> r[Under(name, p)] == s[p]
    ensures forall p :: p !in s && Under(name, p) in t ==> r[Under(name, p)] == t[Under(name, p)]
    ensures forall k :: k in t && (|k| == 0 || k[0] != name) ==> k in r && r[k] == t[k]
    ensures forall k :: k in r ==> k in t || (|k| > 0 && k[0] == name)
  {
    t + Place(s, name)
  }

  /** The folder `name` replaced by `s`: what remains of `t` outside it, plus `s` inside it. */
  function Replace(t: Tree, name: string, s: Tree): (r: Tree)
    ensures forall p :: Under(name, p) in r <==> p in s
    ensures forall p :: p in s ==> r[Under(name, p)] == s[p]
    ensures forall k :: k in t && (|k| == 0 || k[0] != name) ==> k in r && r[k] == t[k]
    ensures forall k :: k in r ==> k in t || (|k| > 0 && k[0] == name)
  {
    Delete(t, [name]) + Place(s, name)
  }

  /** Two trees with the same files and contents are the same tree. */
  lemma TreeEquality(a: Tree, b: Tree)
    requires forall k :: k in a <==> k in b
    requires forall k :: k in a ==> a[k] == b[k]
    ensures a == b
  {
  }

  /** The length of the longest file path: directories are shorter. */
  ghost function Height(t: Tree): (h: nat)
    ensures forall p :: p in t ==> |p| <= h
  {
    MaxLength(t.Keys)
  }

  ghost function MaxLength(ks: set<Path>): (h: nat)
    ensures forall p :: p in ks ==> |p| <= h
    decreases ks
  {
    if ks == {} then 0
    else
      var k :| k in ks;
      var rest := MaxLength(ks - {k});
      if |k| > rest then |k| else rest
  }
}
