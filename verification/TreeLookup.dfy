/** Lookups in a validated tree, and what the root's membership identity pins down. */
module TreeLookup {
  import opened Wrappers
  import opened ByteStrings
  import opened VfsPaths
  import opened Membership
  import opened TreeContract

  datatype VirtualStat = VirtualStat(
    size: u64,
    isFile: bool,
    isDir: bool,
    isSymlink: bool,
    mode: nat,
    mtime: u64,
    ctime: u64,
    nlink: nat,
    contentHash: Option<Hash256>)

  function RegularFile(size: u64, hash: Hash256, executable: bool, mtime: u64): VirtualStat {
    VirtualStat(size, true, false, false, if executable then 493 else 420, mtime, mtime, 1, Some(hash))
  }

  function SymlinkStat(size: u64, hash: Hash256, mtime: u64): VirtualStat {
    VirtualStat(size, false, false, true, 511, mtime, mtime, 1, Some(hash))
  }

  function DirectoryStat(mtime: u64): VirtualStat {
    VirtualStat(0, false, true, false, 493, mtime, mtime, 2, None)
  }

  function Exists(tree: CachedTree, path: VfsPath): bool {
    path in tree.byPath || path in tree.directories
  }

  function RequireArtifact(tree: CachedTree, path: VfsPath): VfsResult<TreeArtifact> {
    if path in tree.byPath then Ok(tree.byPath[path])
    else if path in tree.directories then Err(IsDirectory)
    else Err(NotFound)
  }

  function StatPath(tree: CachedTree, path: VfsPath): VfsResult<VirtualStat> {
    if path in tree.byPath then
      var a := tree.byPath[path];
      match a.entry
      case Blob(hash, executable) => Ok(RegularFile(a.size, hash, executable, a.mtime))
      case Symlink(target) => Ok(SymlinkStat(a.size, target, a.mtime))
      case Gitlink(_) => Err(UnsupportedRepositoryBoundary)
    else if path in tree.directories then Ok(DirectoryStat(tree.directories[path].mutation.authorityGeneration))
    else Err(NotFound)
  }

  function ListDir(tree: CachedTree, path: VfsPath): VfsResult<seq<DirEntry>> {
    if path in tree.directories then Ok(tree.directories[path].entries)
    else if path in tree.byPath then Err(NotDirectory)
    else Err(NotFound)
  }

  /** What a stat says of each kind of path, field by field. */
  lemma StatTells(tree: CachedTree, path: VfsPath)
    ensures path in tree.byPath && tree.byPath[path].entry.Gitlink? ==> StatPath(tree, path) == Err(UnsupportedRepositoryBoundary)
    ensures path !in tree.byPath && path !in tree.directories ==> StatPath(tree, path) == Err(NotFound)
    ensures path in tree.byPath && !tree.byPath[path].entry.Gitlink? ==>
              && StatPath(tree, path).Ok?
              && var s, a := StatPath(tree, path).value, tree.byPath[path];
                 && s.size == a.size && s.mtime == s.ctime == a.mtime && s.nlink == 1 && !s.isDir
                 && (s.isFile <==> a.entry.Blob?) && (s.isSymlink <==> a.entry.Symlink?)
                 && s.contentHash == Some(if a.entry.Blob? then a.entry.hash else a.entry.targetBlob)
                 && s.mode == if a.entry.Symlink? then 511 else if a.entry.executable then 493 else 420
    ensures path !in tree.byPath && path in tree.directories ==>
              && StatPath(tree, path).Ok?
              && var s := StatPath(tree, path).value;
                 && s.isDir && !s.isFile && !s.isSymlink && s.size == 0 && s.nlink == 2 && s.mode == 493
                 && s.contentHash.None? && s.mtime == s.ctime == tree.directories[path].mutation.authorityGeneration
  {
  }

  /** A listing answers for exactly the directories, and tells a file from nothing at all. */
  lemma ListTells(tree: CachedTree, path: VfsPath)
    ensures ListDir(tree, path).Ok? <==> path in tree.directories
    ensures ListDir(tree, path).Ok? ==> ListDir(tree, path).value == tree.directories[path].entries
    ensures ListDir(tree, path) == Err(NotDirectory) <==> path in tree.byPath && path !in tree.directories
    ensures ListDir(tree, path) == Err(NotFound) <==> path !in tree.byPath && path !in tree.directories
  {
  }

  /** What `from_snapshot` establishes, without the wire document. */
  ghost predicate Validated(tree: CachedTree, sha: Bytes -> Hash256) {
    && PrefixFree(tree.byPath)
    && tree.version == tree.binding.authorityGeneration
    && Indexes(tree.directories, sha, tree.byPath, tree.version, tree.binding.workspaceGeneration)
  }

  /** Listing, existence and kind agree in every validated tree. */
  lemma TreeIsCoherent(tree: CachedTree, sha: Bytes -> Hash256, dir: VfsPath, name: VfsName)
    requires Validated(tree, sha)
    ensures Exists(tree, Join(dir, name)) <==>
            ListDir(tree, dir).Ok? && name in EntryNames(ListDir(tree, dir).value)
  {
    var child := Join(dir, name);
    JoinThenParent(dir, name);
    AncestorSplits(dir, child);
    if Exists(tree, child) {
      assert child in tree.byPath || IsDirectoryOf(child, tree.byPath);
      var p :| p in tree.byPath && AtOrBelow(child, p);
      ChildIsUnique(dir, p, name);
      assert IsDirectoryOf(dir, tree.byPath);
    }
    if dir in tree.directories {
      assert Lists(tree.directories[dir].entries, dir, tree.byPath);
    }
  }

  /** `kind` is what a stat of the same path shows: a boundary has no stat. */
  predicate Shows(stat: VfsResult<VirtualStat>, kind: FileType) {
    match kind
    case File => stat.Ok? && stat.value.isFile && !stat.value.isDir && !stat.value.isSymlink
    case Directory => stat.Ok? && stat.value.isDir && !stat.value.isFile && !stat.value.isSymlink
    case Symlink => stat.Ok? && stat.value.isSymlink && !stat.value.isFile && !stat.value.isDir
    case Gitlink => stat == Err(UnsupportedRepositoryBoundary)
  }

  /** In every validated tree each listed entry has the kind a stat of the child shows. */
  lemma ListedKindIsStatKind(tree: CachedTree, sha: Bytes -> Hash256, dir: VfsPath, i: nat)
    requires Validated(tree, sha) && ListDir(tree, dir).Ok? && i < |ListDir(tree, dir).value|
    ensures var entry := ListDir(tree, dir).value[i]; Shows(StatPath(tree, Join(dir, entry.name)), entry.fileType)
  {
    var entries := tree.directories[dir].entries;
    var child := Join(dir, entries[i].name);
    assert Lists(entries, dir, tree.byPath);
    assert entries[i].name == EntryNames(entries)[i] && entries[i].name in EntryNames(entries);
    StatTells(tree, child);
    if child !in tree.byPath {
      assert Below(child, tree.byPath);
      assert IsDirectoryOf(child, tree.byPath);
    }
  }

  /// Uniqueness: the contract of `from_snapshot` leaves nothing open

  lemma ListingUnique(x: seq<DirEntry>, y: seq<DirEntry>, dir: VfsPath, byPath: map<VfsPath, TreeArtifact>)
    requires Lists(x, dir, byPath) && Lists(y, dir, byPath)
    ensures x == y
  {
    forall k: Bytes ensures k in EntryNames(x) <==> k in EntryNames(y) {
      if ValidName(k) {
        assert k in EntryNames(x) <==> Join(dir, k) in byPath || Below(Join(dir, k), byPath);
      } else {
        NamesAreValid(x, k);
        NamesAreValid(y, k);
      }
    }
    SortedUnique(EntryNames(x), EntryNames(y));
    forall i | 0 <= i < |x| ensures x[i] == y[i] {
      assert EntryNames(x)[i] == EntryNames(y)[i] == x[i].name;
      assert x[i].name in EntryNames(x);
    }
  }

  lemma NamesAreValid(entries: seq<DirEntry>, k: Bytes)
    ensures k in EntryNames(entries) ==> ValidName(k)
  {
  }

  /** Two indexes of one artifact map are the same index. */
  lemma IndexUnique(
    x: map<VfsPath, CachedDirectory>, y: map<VfsPath, CachedDirectory>, sha: Bytes -> Hash256,
    byPath: map<VfsPath, TreeArtifact>, authorityGeneration: u64, workspaceGeneration: u64)
    requires Indexes(x, sha, byPath, authorityGeneration, workspaceGeneration)
    requires Indexes(y, sha, byPath, authorityGeneration, workspaceGeneration)
    ensures x == y
  {
    forall dir: VfsPath ensures dir in x <==> dir in y {
      assert dir in x <==> IsDirectoryOf(dir, byPath);
    }
    forall dir: VfsPath | dir in x ensures x[dir] == y[dir] {
      ListingUnique(x[dir].entries, y[dir].entries, dir, byPath);
    }
  }

  lemma SameArtifact(
    x: map<VfsPath, TreeArtifact>, y: map<VfsPath, TreeArtifact>, artifacts: seq<WireArtifact>, p: VfsPath)
    requires Carries(x, artifacts, |artifacts|) && Carries(y, artifacts, |artifacts|) && p in x
    ensures p in y && x[p] == y[p]
  {
    assert ComesFrom(p, artifacts, |artifacts|);
    var i :| 0 <= i < |artifacts| && artifacts[i].path == p;
    assert Holds(x, artifacts[i]) && Holds(y, artifacts[i]);
  }

  lemma ArtifactsUnique(x: map<VfsPath, TreeArtifact>, y: map<VfsPath, TreeArtifact>, artifacts: seq<WireArtifact>)
    requires Carries(x, artifacts, |artifacts|) && Carries(y, artifacts, |artifacts|)
    ensures x == y
  {
    forall p: VfsPath | p in x ensures p in y && x[p] == y[p] { SameArtifact(x, y, artifacts, p); }
    forall p: VfsPath | p in y ensures p in x { SameArtifact(y, x, artifacts, p); }
  }

  /** Any two trees that satisfy the contract for one snapshot are equal. */
  lemma TreeUnique(s: CachedTree, t: CachedTree, sha: Bytes -> Hash256, snapshot: WireSnapshot)
    requires IsTreeOf(s, sha, snapshot) && IsTreeOf(t, sha, snapshot)
    ensures s == t
  {
    ArtifactsUnique(s.byPath, t.byPath, snapshot.artifacts);
    IndexUnique(s.directories, t.directories, sha, s.byPath, s.version, snapshot.binding.workspaceGeneration);
  }

  /// The root's membership identity

  function RootStream(tree: CachedTree): Bytes {
    Stream(ROOT, Under(ROOT, Entries(tree.byPath)))
  }

  function RootMembership(tree: CachedTree): Option<Hash256> {
    if ROOT in tree.directories then Some(tree.directories[ROOT].mutation.membership) else None
  }

  /** SHA-256 does not collide on these two inputs. */
  predicate NoCollision(sha: Bytes -> Hash256, x: Bytes, y: Bytes) {
    sha(x) == sha(y) ==> x == y
  }

  lemma {:induction false} RootHoldsAll(located: seq<Located>)
    requires forall i :: 0 <= i < |located| ==> located[i].path != ROOT
    ensures Under(ROOT, located) == located
  {
    if located != [] {
      RootHoldsAll(located[..|located| - 1]);
    }
  }

  lemma EntriesInjective(x: map<VfsPath, TreeArtifact>, y: map<VfsPath, TreeArtifact>)
    requires Entries(x) == Entries(y)
    ensures x == y
  {
    forall p: VfsPath ensures (p in x <==> p in y) && (p in x ==> x[p] == y[p]) {
      if p in x { EntryIn(x, y, p); }
      if p in y { EntryIn(y, x, p); }
    }
  }

  lemma EntryIn(x: map<VfsPath, TreeArtifact>, y: map<VfsPath, TreeArtifact>, p: VfsPath)
    requires Entries(x) == Entries(y) && p in x
    ensures p in y && x[p] == y[p]
  {
    EntriesHold(x, p);
    var i :| 0 <= i < |Entries(y)| && Entries(y)[i] == Located(p, x[p]);
  }

  predicate TreeSized(tree: CachedTree) {
    AllSized(Entries(tree.byPath))
  }

  /** The root membership of two validated trees is equal exactly when their artifact maps are. */
  lemma RootMembershipPinsArtifacts(s: CachedTree, t: CachedTree, sha: Bytes -> Hash256)
    requires Validated(s, sha) && Validated(t, sha)
    requires TreeSized(s) && TreeSized(t) && NoCollision(sha, RootStream(s), RootStream(t))
    ensures RootMembership(s).Some? && RootMembership(t).Some?
    ensures RootMembership(s) == RootMembership(t) <==> s.byPath == t.byPath
  {
    assert IsDirectoryOf(ROOT, s.byPath) && IsDirectoryOf(ROOT, t.byPath);
    if RootMembership(s) == RootMembership(t) {
      var x, y := Entries(s.byPath), Entries(t.byPath);
      RootHoldsAll(x);
      RootHoldsAll(y);
      StreamInjective(ROOT, x, ROOT, y);
      EntriesInjective(s.byPath, t.byPath);
    }
  }
}
