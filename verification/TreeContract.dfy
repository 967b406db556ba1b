/** Turning one wire snapshot into an indexed tree: which snapshots are accepted and what the index holds. */
module TreeContract {
  import opened Wrappers
  import opened ByteStrings
  import opened VfsPaths
  import opened Membership

  datatype FileType = File | Directory | Symlink | Gitlink

  datatype DirEntry = DirEntry(name: VfsName, fileType: FileType)

  /** `stamp` stands for the parts of the binding that are only ever compared as a whole. */
  datatype Binding = Binding(
    repositoryId: Bytes,
    workspaceId: Bytes,
    authorityGeneration: u64,
    workspaceGeneration: u64,
    stamp: Bytes)

  datatype WireArtifact = WireArtifact(path: Bytes, artifact: TreeArtifact)

  /** `identity` is the answer of the model crate's own validation, which this project treats as given. */
  datatype WireSnapshot = WireSnapshot(
    identity: Option<Bytes>,
    binding: Binding,
    artifacts: seq<WireArtifact>)

  datatype DirectoryMutationIdentity = DirectoryMutationIdentity(
    authorityGeneration: u64,
    workspaceGeneration: u64,
    membership: Hash256)

  datatype CachedDirectory = CachedDirectory(mutation: DirectoryMutationIdentity, entries: seq<DirEntry>)

  datatype CachedTree = CachedTree(
    binding: Binding,
    version: u64,
    etag: Bytes,
    byPath: map<VfsPath, TreeArtifact>,
    directories: map<VfsPath, CachedDirectory>)

  datatype TreeError =
    | InvalidSnapshot
    | InvalidTreePath
    | RepeatedPath
    | TooManyDescendants
    | NotADescendant
    | KindConflict
    | PrefixCollision

  function FileTypeOf(entry: TreeEntry): FileType {
    match entry
    case Blob(_, _) => FileType.File
    case Symlink(_) => FileType.Symlink
    case Gitlink(_) => FileType.Gitlink
  }

  /// What an index must hold

  /** The artifacts in the order the path-sorted map yields them. */
  function Entries(byPath: map<VfsPath, TreeArtifact>): (r: seq<Located>)
    ensures |r| == |byPath|
    ensures forall i :: 0 <= i < |r| ==> r[i].path in byPath && byPath[r[i].path] == r[i].artifact
    ensures forall i, j :: 0 <= i < j < |r| ==> Less(r[i].path, r[j].path)
  {
    var keys := SortedKeys(byPath.Keys);
    assert forall i :: 0 <= i < |keys| ==> keys[i] in keys;
    seq(|keys|, i requires 0 <= i < |keys| => var p: VfsPath := keys[i]; Located(p, byPath[p]))
  }

  lemma EntriesHold(byPath: map<VfsPath, TreeArtifact>, p: VfsPath)
    requires p in byPath
    ensures Located(p, byPath[p]) in Entries(byPath)
  {
    var keys := SortedKeys(byPath.Keys);
    assert p in keys;
    var i :| 0 <= i < |keys| && keys[i] == p;
    assert Entries(byPath)[i] == Located(p, byPath[p]);
  }

  /** The descendants of `dir`, in order. */
  function Under(dir: VfsPath, located: seq<Located>): seq<Located> {
    if located == [] then []
    else
      var last := located[|located| - 1];
      Under(dir, located[..|located| - 1]) + (if IsAncestorOf(dir, last.path) then [last] else [])
  }

  /** The root and every proper ancestor of an artifact. */
  predicate IsDirectoryOf(dir: VfsPath, byPath: map<VfsPath, TreeArtifact>) {
    dir == ROOT || exists p :: p in byPath && IsAncestorOf(dir, p)
  }

  predicate Below(top: VfsPath, byPath: map<VfsPath, TreeArtifact>) {
    exists p :: p in byPath && IsAncestorOf(top, p)
  }

  function EntryNames(entries: seq<DirEntry>): (r: seq<Bytes>)
    ensures |r| == |entries|
    ensures forall i :: 0 <= i < |r| ==> r[i] == entries[i].name
  {
    seq(|entries|, i requires 0 <= i < |entries| => entries[i].name)
  }

  /**
   A listing of `dir`: strictly sorted by name, naming exactly the children something is at or below,
   as a directory exactly when something is strictly below and as the artifact's own type otherwise.
   */
  ghost predicate Lists(entries: seq<DirEntry>, dir: VfsPath, byPath: map<VfsPath, TreeArtifact>) {
    && StrictlySorted(EntryNames(entries))
    && (forall name: VfsName ::
          name in EntryNames(entries) <==> Join(dir, name) in byPath || Below(Join(dir, name), byPath))
    && (forall i :: 0 <= i < |entries| ==>
          var child := Join(dir, entries[i].name);
          && (entries[i].fileType == Directory <==> Below(child, byPath))
          && (child in byPath ==> entries[i].fileType == FileTypeOf(byPath[child].entry)))
  }

  ghost predicate Indexes(
    directories: map<VfsPath, CachedDirectory>, sha: Bytes -> Hash256,
    byPath: map<VfsPath, TreeArtifact>, authorityGeneration: u64, workspaceGeneration: u64)
  {
    && (forall dir: VfsPath :: dir in directories <==> IsDirectoryOf(dir, byPath))
    && (forall dir :: dir in directories ==>
          && directories[dir].mutation == DirectoryMutationIdentity(
               authorityGeneration, workspaceGeneration, sha(Stream(dir, Under(dir, Entries(byPath)))))
          && Lists(directories[dir].entries, dir, byPath))
  }

  /** No artifact is the root and none is an ancestor of another. */
  predicate PrefixFree(byPath: map<VfsPath, TreeArtifact>) {
    ROOT !in byPath && forall p, q :: p in byPath && q in byPath ==> !IsAncestorOf(p, q)
  }

  /// The directory builder

  /** `fed` is what the hasher has been given so far. */
  datatype DirectoryBuilder = DirectoryBuilder(fed: Bytes, count: nat, entries: map<VfsName, FileType>)

  function NewBuilder(dir: VfsPath): DirectoryBuilder {
    DirectoryBuilder(Header(dir), 0, map[])
  }

  function ChildKind(dir: VfsPath, located: Located): FileType
    requires IsAncestorOf(dir, located.path)
  {
    if ChildTowards(dir, located.path).1 then Directory else FileTypeOf(located.artifact.entry)
  }

  function AddDescendant(builder: DirectoryBuilder, dir: VfsPath, located: Located): Result<DirectoryBuilder, TreeError> {
    if builder.count + 1 >= U64_LIMIT then Err(TooManyDescendants)
    else if StripDirPrefix(dir, located.path).None? then Err(NotADescendant)
    else
      var name := ChildTowards(dir, located.path).0;
      var kind := ChildKind(dir, located);
      if name in builder.entries && builder.entries[name] != kind then Err(KindConflict)
      else Ok(DirectoryBuilder(builder.fed + Record(located), builder.count + 1, builder.entries[name := kind]))
  }

  /** One builder's history: it is given the descendants of `dir` among `located`, in order. */
  function Feed(dir: VfsPath, located: seq<Located>): Result<DirectoryBuilder, TreeError> {
    if located == [] then Ok(NewBuilder(dir))
    else
      var last := located[|located| - 1];
      var builder :- Feed(dir, located[..|located| - 1]);
      if IsAncestorOf(dir, last.path) then AddDescendant(builder, dir, last) else Ok(builder)
  }

  lemma FeedExtends(dir: VfsPath, before: seq<Located>, last: Located)
    ensures Feed(dir, before + [last]) ==
            if Feed(dir, before).Ok? && IsAncestorOf(dir, last.path)
            then AddDescendant(Feed(dir, before).value, dir, last) else Feed(dir, before)
  {
    assert (before + [last])[..|before|] == before;
  }

  lemma {:induction false} FeedKeepsErrors(dir: VfsPath, located: seq<Located>, n: nat)
    requires n <= |located| && Feed(dir, located[..n]).Err?
    ensures Feed(dir, located).Err?
  {
    if n < |located| {
      var shorter := located[..|located| - 1];
      assert shorter[..n] == located[..n];
      FeedKeepsErrors(dir, shorter, n);
    } else {
      assert located[..n] == located;
    }
  }

  lemma {:induction false} RecordsAppend(x: seq<Located>, last: Located)
    ensures Records(x + [last]) == Records(x) + Record(last)
  {
    if x == [] {
      assert x + [last] == [last];
      assert [last][1..] == [];
    } else {
      RecordsAppend(x[1..], last);
      assert (x + [last])[0] == x[0];
      assert (x + [last])[1..] == x[1..] + [last];
      Regroup(Record(x[0]), Records(x[1..]), Record(last));
    }
  }

  /** What one successful step does to a builder. */
  lemma StepEffect(dir: VfsPath, before: seq<Located>, last: Located)
    requires Feed(dir, before + [last]).Ok?
    ensures Feed(dir, before).Ok?
    ensures var b, c := Feed(dir, before).value, Feed(dir, before + [last]).value;
            if IsAncestorOf(dir, last.path) then
              var name, kind := ChildTowards(dir, last.path).0, ChildKind(dir, last);
              && c.fed == b.fed + Record(last)
              && c.count == b.count + 1
              && (name in b.entries ==> b.entries[name] == kind)
              && c.entries == b.entries[name := kind]
            else c == b
  {
    FeedExtends(dir, before, last);
  }

  /** What a builder has hashed and counted. */
  lemma {:induction false} FeedHashes(dir: VfsPath, located: seq<Located>)
    requires Feed(dir, located).Ok?
    ensures Feed(dir, located).value.fed == Header(dir) + Records(Under(dir, located))
    ensures Feed(dir, located).value.count == |Under(dir, located)|
  {
    if located != [] {
      var shorter, last := located[..|located| - 1], located[|located| - 1];
      assert located == shorter + [last];
      StepEffect(dir, shorter, last);
      FeedHashes(dir, shorter);
      UnderGrows(dir, shorter, last);
    } else {
      assert Header(dir) + [] == Header(dir);
    }
  }

  lemma UnderGrows(dir: VfsPath, before: seq<Located>, last: Located)
    ensures var records, more := Records(Under(dir, before)), Records(Under(dir, before + [last]));
            if IsAncestorOf(dir, last.path) then
              |Under(dir, before + [last])| == |Under(dir, before)| + 1 && Header(dir) + more == Header(dir) + records + Record(last)
            else Under(dir, before + [last]) == Under(dir, before)
  {
    assert (before + [last])[..|before|] == before;
    if IsAncestorOf(dir, last.path) {
      RecordsAppend(Under(dir, before), last);
      Regroup(Header(dir), Records(Under(dir, before)), Record(last));
    }
  }

  ghost predicate Reaches(dir: VfsPath, located: Located, name: VfsName) {
    IsAncestorOf(dir, located.path) && ChildTowards(dir, located.path).0 == name
  }

  /** What a builder lists: each child once, with the one kind every descendant gives it ... */
  lemma {:induction false} FeedKinds(dir: VfsPath, located: seq<Located>, i: nat)
    requires Feed(dir, located).Ok? && i < |located| && IsAncestorOf(dir, located[i].path)
    ensures ChildTowards(dir, located[i].path).0 in Feed(dir, located).value.entries
    ensures Feed(dir, located).value.entries[ChildTowards(dir, located[i].path).0] == ChildKind(dir, located[i])
  {
    var shorter, last := located[..|located| - 1], located[|located| - 1];
    assert located == shorter + [last];
    StepEffect(dir, shorter, last);
    if i < |shorter| { FeedKinds(dir, shorter, i); }
  }

  /** ... and nothing else. */
  lemma {:induction false} FeedListsOnly(dir: VfsPath, located: seq<Located>, name: VfsName) returns (i: nat)
    requires Feed(dir, located).Ok? && name in Feed(dir, located).value.entries
    ensures i < |located| && Reaches(dir, located[i], name)
  {
    var n := |located| - 1;
    assert located == located[..n] + [located[n]];
    StepEffect(dir, located[..n], located[n]);
    if name in Feed(dir, located[..n]).value.entries {
      i := FeedListsOnly(dir, located[..n], name);
    } else {
      i := n;
    }
  }

  /** Two descendants that give one child different kinds. */
  ghost predicate Clash(dir: VfsPath, x: Located, y: Located) {
    && IsAncestorOf(dir, x.path) && IsAncestorOf(dir, y.path)
    && ChildTowards(dir, x.path).0 == ChildTowards(dir, y.path).0
    && ChildKind(dir, x) != ChildKind(dir, y)
  }

  /** A builder fails only for two clashing descendants or for more of them than a `u64` counts. */
  lemma {:induction false} FeedFails(dir: VfsPath, located: seq<Located>)
    requires Feed(dir, located).Err?
    ensures |located| >= U64_LIMIT || exists i, j :: 0 <= i < j < |located| && Clash(dir, located[i], located[j])
  {
    var n := |located| - 1;
    var shorter, last := located[..n], located[n];
    if Feed(dir, shorter).Err? {
      FeedFails(dir, shorter);
      if i, j :| 0 <= i < j < |shorter| && Clash(dir, shorter[i], shorter[j]) {
        assert Clash(dir, located[i], located[j]);
      }
    } else {
      FeedHashes(dir, shorter);
      UnderShorter(dir, shorter);
      var builder := Feed(dir, shorter).value;
      if builder.count + 1 < U64_LIMIT {
        var name := ChildTowards(dir, last.path).0;
        var i := FeedListsOnly(dir, shorter, name);
        FeedKinds(dir, shorter, i);
        assert Clash(dir, located[i], located[n]);
      }
    }
  }

  lemma {:induction false} UnderShorter(dir: VfsPath, located: seq<Located>)
    ensures |Under(dir, located)| <= |located|
  {
    if located != [] { UnderShorter(dir, located[..|located| - 1]); }
  }

  /** A clash means that one of the two artifacts lies below the other. */
  lemma ClashIsCollision(dir: VfsPath, x: Located, y: Located)
    requires Clash(dir, x, y) && x.path != y.path
    ensures IsAncestorOf(x.path, y.path) || IsAncestorOf(y.path, x.path)
  {
    var name := ChildTowards(dir, x.path).0;
    ChildIsUnique(dir, x.path, name);
    ChildIsUnique(dir, y.path, name);
  }

  /// Building the index

  /** A directory without a builder yet is one that has been given nothing. */
  function BuilderAt(builders: map<VfsPath, DirectoryBuilder>, dir: VfsPath): DirectoryBuilder {
    if dir in builders then builders[dir] else NewBuilder(dir)
  }

  ghost predicate FeedErr(dir: VfsPath, located: seq<Located>) {
    Feed(dir, located).Err?
  }

  /** The ancestors of `path` the walk towards the root has passed when it stands at `current`. */
  predicate Passed(dir: VfsPath, path: VfsPath, current: Option<VfsPath>) {
    IsAncestorOf(dir, path) && (current.Some? ==> !AtOrBelow(dir, current.value))
  }

  /** Every directory's builder has the history it should have: with the last artifact once passed. */
  ghost predicate Fed(
    builders: map<VfsPath, DirectoryBuilder>, before: seq<Located>, last: Located, current: Option<VfsPath>)
  {
    forall dir: VfsPath :: FedAt(builders, before, last, current, dir)
  }

  ghost predicate AllFed(builders: map<VfsPath, DirectoryBuilder>, located: seq<Located>) {
    forall dir: VfsPath :: Ok(BuilderAt(builders, dir)) == Feed(dir, located)
  }

  lemma PassedStep(dir: VfsPath, path: VfsPath, current: VfsPath)
    requires IsAncestorOf(current, path)
    ensures Passed(dir, path, Parent(current)) <==> Passed(dir, path, Some(current)) || dir == current
  {
    if current != [] { AncestorSplits(dir, current); }
  }

  lemma FedStart(builders: map<VfsPath, DirectoryBuilder>, before: seq<Located>, last: Located)
    requires AllFed(builders, before)
    ensures Fed(builders, before, last, Parent(last.path))
    ensures forall dir: VfsPath :: !Passed(dir, last.path, Parent(last.path))
    ensures last.path != [] ==> IsAncestorOf(Parent(last.path).value, last.path)
  {
    forall dir: VfsPath ensures !Passed(dir, last.path, Parent(last.path)) {
      if last.path != [] { AncestorSplits(dir, last.path); }
    }
    if last.path != [] { AncestorSplits(Parent(last.path).value, last.path); }
  }

  lemma FedFails(builders: map<VfsPath, DirectoryBuilder>, before: seq<Located>, last: Located, dir: VfsPath)
    requires Fed(builders, before, last, Some(dir)) && IsAncestorOf(dir, last.path)
    requires AddDescendant(BuilderAt(builders, dir), dir, last).Err?
    ensures FeedErr(dir, before + [last])
  {
    assert FedAt(builders, before, last, Some(dir), dir);
    FeedExtends(dir, before, last);
  }

  lemma FedDone(builders: map<VfsPath, DirectoryBuilder>, before: seq<Located>, last: Located)
    requires Fed(builders, before, last, None)
    ensures AllFed(builders, before + [last])
  {
    forall dir: VfsPath ensures Ok(BuilderAt(builders, dir)) == Feed(dir, before + [last]) {
      assert FedAt(builders, before, last, None, dir);
      FeedExtends(dir, before, last);
    }
  }

  /** One move up: the parent is still an ancestor of where the walk began. */
  lemma MoveUp(current: VfsPath, path: VfsPath)
    requires IsAncestorOf(current, path)
    ensures current != [] ==> IsAncestorOf(Parent(current).value, path)
    ensures forall dir: VfsPath :: Passed(dir, path, Parent(current)) <==> Passed(dir, path, Some(current)) || dir == current
  {
    if current != [] {
      var up := Parent(current).value;
      AncestorSplits(up, current);
      AncestorIsPrefix(up, current);
      AncestorIsPrefix(current, path);
      AncestorIsPrefix(up, path);
      assert Names(path)[..|Names(up)|] == Names(path)[..|Names(current)|][..|Names(up)|];
    }
    forall dir: VfsPath { PassedStep(dir, path, current); }
  }

  ghost predicate FedAt(
    builders: map<VfsPath, DirectoryBuilder>, before: seq<Located>, last: Located, current: Option<VfsPath>, dir: VfsPath)
  {
    Ok(BuilderAt(builders, dir)) ==
    Feed(dir, if Passed(dir, last.path, current) then before + [last] else before)
  }

  lemma FedStep(
    builders: map<VfsPath, DirectoryBuilder>, before: seq<Located>, last: Located, current: VfsPath, fed: DirectoryBuilder)
    requires Fed(builders, before, last, Some(current)) && IsAncestorOf(current, last.path)
    requires AddDescendant(BuilderAt(builders, current), current, last) == Ok(fed)
    ensures Fed(builders[current := fed], before, last, Parent(current))
  {
    var now, up := builders[current := fed], Parent(current);
    forall dir: VfsPath ensures FedAt(now, before, last, up, dir) {
      assert FedAt(builders, before, last, Some(current), dir);
      if dir == current { FeedExtends(dir, before, last); }
      PassedStep(dir, last.path, current);
    }
  }

  /** Walk the parent chain of one artifact, feeding it to each of its ancestors. */
  method FeedAncestors(builders: map<VfsPath, DirectoryBuilder>, ghost before: seq<Located>, last: Located)
    returns (r: Result<map<VfsPath, DirectoryBuilder>, TreeError>)
    requires AllFed(builders, before)
    ensures r.Ok? ==> AllFed(r.value, before + [last])
    ensures r.Ok? ==> forall dir: VfsPath :: dir in r.value <==> dir in builders || IsAncestorOf(dir, last.path)
    ensures r.Err? ==> exists dir: VfsPath :: FeedErr(dir, before + [last])
  {
    var now := builders;
    var current := Parent(last.path);
    FedStart(builders, before, last);
    while current.Some?
      invariant current.Some? ==> IsAncestorOf(current.value, last.path)
      invariant Fed(now, before, last, current)
      invariant forall dir: VfsPath :: dir in now <==> dir in builders || Passed(dir, last.path, current)
      decreases if current.Some? then |current.value| + 1 else 0
    {
      var dir := current.value;
      var fed := AddDescendant(BuilderAt(now, dir), dir, last);
      if fed.Err? {
        FedFails(now, before, last, dir);
        return Err(fed.error);
      }
      FedStep(now, before, last, dir, fed.value);
      MoveUp(dir, last.path);
      now := now[dir := fed.value];
      current := Parent(dir);
    }
    FedDone(now, before, last);
    return Ok(now);
  }

  /** The entries of one builder as its sorted listing. */
  function Listing(entries: map<VfsName, FileType>): (r: seq<DirEntry>)
    ensures StrictlySorted(EntryNames(r))
    ensures forall name: VfsName :: name in EntryNames(r) <==> name in entries
    ensures forall i :: 0 <= i < |r| ==> r[i].name in entries && r[i].fileType == entries[r[i].name]
  {
    var keys := SortedKeys(entries.Keys);
    assert forall i :: 0 <= i < |keys| ==> keys[i] in keys;
    var r := seq(|keys|, i requires 0 <= i < |keys| => var n: VfsName := keys[i]; DirEntry(n, entries[n]));
    assert EntryNames(r) == keys;
    r
  }

  function Finish(
    sha: Bytes -> Hash256, builder: DirectoryBuilder, authorityGeneration: u64, workspaceGeneration: u64): CachedDirectory
  {
    var membership := sha(builder.fed + BigEndian(8, builder.count));
    CachedDirectory(
      DirectoryMutationIdentity(authorityGeneration, workspaceGeneration, membership), Listing(builder.entries))
  }

  /** What one artifact at or below a child says about the child's entry. */
  lemma Contributes(dir: VfsPath, byPath: map<VfsPath, TreeArtifact>, name: VfsName, p: VfsPath)
    requires Feed(dir, Entries(byPath)).Ok? && p in byPath && AtOrBelow(Join(dir, name), p)
    ensures var entries := Feed(dir, Entries(byPath)).value.entries;
            name in entries && entries[name] == if p == Join(dir, name) then FileTypeOf(byPath[p].entry) else Directory
  {
    EntriesHold(byPath, p);
    var i :| 0 <= i < |Entries(byPath)| && Entries(byPath)[i] == Located(p, byPath[p]);
    ChildIsUnique(dir, p, name);
    FeedKinds(dir, Entries(byPath), i);
  }

  lemma ListedName(dir: VfsPath, byPath: map<VfsPath, TreeArtifact>, name: VfsName)
    requires Feed(dir, Entries(byPath)).Ok?
    ensures name in Feed(dir, Entries(byPath)).value.entries <==>
            exists p :: p in byPath && AtOrBelow(Join(dir, name), p)
  {
    var entries := Feed(dir, Entries(byPath)).value.entries;
    if name in entries {
      var i := FeedListsOnly(dir, Entries(byPath), name);
      ChildIsUnique(dir, Entries(byPath)[i].path, name);
    } else if p :| p in byPath && AtOrBelow(Join(dir, name), p) {
      Contributes(dir, byPath, name, p);
    }
  }

  lemma ListedKind(dir: VfsPath, byPath: map<VfsPath, TreeArtifact>, name: VfsName)
    requires Feed(dir, Entries(byPath)).Ok? && name in Feed(dir, Entries(byPath)).value.entries
    ensures var kind := Feed(dir, Entries(byPath)).value.entries[name];
            && (kind == Directory <==> Below(Join(dir, name), byPath))
            && (Join(dir, name) in byPath ==> kind == FileTypeOf(byPath[Join(dir, name)].entry))
  {
    var kind := Feed(dir, Entries(byPath)).value.entries[name];
    ListedName(dir, byPath, name);
    forall p | p in byPath && AtOrBelow(Join(dir, name), p)
      ensures kind == if p == Join(dir, name) then FileTypeOf(byPath[p].entry) else Directory
    {
      Contributes(dir, byPath, name, p);
    }
    KindOfChild(Join(dir, name), byPath, kind);
  }

  lemma KindOfChild(child: VfsPath, byPath: map<VfsPath, TreeArtifact>, kind: FileType)
    requires exists p :: p in byPath && AtOrBelow(child, p)
    requires forall p :: p in byPath && AtOrBelow(child, p) ==>
               kind == if p == child then FileTypeOf(byPath[p].entry) else Directory
    ensures kind == Directory <==> Below(child, byPath)
    ensures child in byPath ==> kind == FileTypeOf(byPath[child].entry)
  {
  }

  /** A builder that was given everything lists the children of its directory. */
  lemma FinishedLists(dir: VfsPath, byPath: map<VfsPath, TreeArtifact>)
    requires Feed(dir, Entries(byPath)).Ok?
    ensures Lists(Listing(Feed(dir, Entries(byPath)).value.entries), dir, byPath)
  {
    var entries := Feed(dir, Entries(byPath)).value.entries;
    var listing := Listing(entries);
    forall name: VfsName
      ensures name in EntryNames(listing) <==> Join(dir, name) in byPath || Below(Join(dir, name), byPath)
    {
      ListedName(dir, byPath, name);
      assert name in entries <==> exists p :: p in byPath && AtOrBelow(Join(dir, name), p);
    }
    forall i | 0 <= i < |listing|
      ensures var child := Join(dir, listing[i].name);
              && (listing[i].fileType == Directory <==> Below(child, byPath))
              && (child in byPath ==> listing[i].fileType == FileTypeOf(byPath[child].entry))
    {
      ListedKind(dir, byPath, listing[i].name);
    }
  }

  /** `build_directory_index`: one pass over the sorted artifacts, each feeding all of its ancestors. */
  method BuildBuilders(located: seq<Located>) returns (r: Result<map<VfsPath, DirectoryBuilder>, TreeError>)
    ensures r.Ok? ==> FedUpTo(r.value, located, |located|)
    ensures r.Err? ==> SomeFails(located)
  {
    var builders: map<VfsPath, DirectoryBuilder> := map[ROOT := NewBuilder(ROOT)];
    FedNothing(located);
    for i := 0 to |located|
      invariant FedUpTo(builders, located, i)
    {
      var fed := FeedAncestors(builders, located[..i], located[i]);
      if fed.Err? {
        FedNoFurther(located, i);
        return fed;
      }
      FedFurther(builders, fed.value, located, i);
      builders := fed.value;
    }
    return Ok(builders);
  }

  method BuildDirectoryIndex(
    sha: Bytes -> Hash256, byPath: map<VfsPath, TreeArtifact>, authorityGeneration: u64, workspaceGeneration: u64)
    returns (r: Result<map<VfsPath, CachedDirectory>, TreeError>)
    ensures r.Ok? ==> Indexes(r.value, sha, byPath, authorityGeneration, workspaceGeneration)
    ensures r.Err? ==> |byPath| >= U64_LIMIT || !PrefixFree(byPath)
    ensures r.Ok? && ROOT !in byPath ==> |byPath| < U64_LIMIT
  {
    var builders := BuildBuilders(Entries(byPath));
    if builders.Err? {
      IndexFails(byPath);
      return Err(builders.error);
    }
    var directories := map dir | dir in builders.value ::
      Finish(sha, builders.value[dir], authorityGeneration, workspaceGeneration);
    FinishedIndex(sha, byPath, authorityGeneration, workspaceGeneration, builders.value, directories);
    RootCounts(byPath, builders.value);
    return Ok(directories);
  }

  /** The root is an ancestor of everything else, so its count is the number of artifacts. */
  lemma RootCounts(byPath: map<VfsPath, TreeArtifact>, builders: map<VfsPath, DirectoryBuilder>)
    requires FedUpTo(builders, Entries(byPath), |Entries(byPath)|)
    ensures ROOT !in byPath ==> |byPath| < U64_LIMIT
  {
    var located := Entries(byPath);
    assert located[..|located|] == located;
    assert Ok(BuilderAt(builders, ROOT)) == Feed(ROOT, located);
    if ROOT !in byPath { RootFeed(located); }
  }

  lemma {:induction false} RootFeed(located: seq<Located>)
    requires forall i :: 0 <= i < |located| ==> located[i].path != ROOT
    requires Feed(ROOT, located).Ok?
    ensures Feed(ROOT, located).value.count == |located| < U64_LIMIT
  {
    if located != [] { RootFeed(located[..|located| - 1]); }
  }

  /** The builders after the first `n` artifacts: the root and their ancestors, each with its history. */
  ghost predicate FedUpTo(builders: map<VfsPath, DirectoryBuilder>, located: seq<Located>, n: nat)
    requires n <= |located|
  {
    && AllFed(builders, located[..n])
    && forall dir: VfsPath ::
         dir in builders <==> dir == ROOT || exists j :: 0 <= j < n && IsAncestorOf(dir, located[j].path)
  }

  ghost predicate SomeFails(located: seq<Located>) {
    exists n: nat, dir: VfsPath :: n <= |located| && FeedErr(dir, located[..n])
  }

  lemma FedNothing(located: seq<Located>)
    ensures FedUpTo(map[ROOT := NewBuilder(ROOT)], located, 0)
  {
  }

  lemma FedNoFurther(located: seq<Located>, i: nat)
    requires i < |located| && exists dir: VfsPath :: FeedErr(dir, located[..i] + [located[i]])
    ensures SomeFails(located)
  {
    assert located[..i + 1] == located[..i] + [located[i]];
    var dir: VfsPath :| FeedErr(dir, located[..i] + [located[i]]);
    assert FeedErr(dir, located[..i + 1]);
  }

  lemma FedFurther(
    before: map<VfsPath, DirectoryBuilder>, after: map<VfsPath, DirectoryBuilder>, located: seq<Located>, i: nat)
    requires i < |located| && FedUpTo(before, located, i)
    requires AllFed(after, located[..i] + [located[i]])
    requires forall dir: VfsPath :: dir in after <==> dir in before || IsAncestorOf(dir, located[i].path)
    ensures FedUpTo(after, located, i + 1)
  {
    assert located[..i + 1] == located[..i] + [located[i]];
    forall dir: VfsPath
      ensures dir in after <==> dir == ROOT || exists j :: 0 <= j < i + 1 && IsAncestorOf(dir, located[j].path)
    {
      if dir in before && dir != ROOT {
        var j :| 0 <= j < i && IsAncestorOf(dir, located[j].path);
        assert 0 <= j < i + 1;
      }
    }
  }

  lemma IndexFails(byPath: map<VfsPath, TreeArtifact>)
    requires SomeFails(Entries(byPath))
    ensures |byPath| >= U64_LIMIT || !PrefixFree(byPath)
  {
    var located := Entries(byPath);
    var n: nat, dir: VfsPath :| n <= |located| && FeedErr(dir, located[..n]);
    FeedKeepsErrors(dir, located, n);
    FeedFails(dir, located);
    if |located| < U64_LIMIT {
      var i, j :| 0 <= i < j < |located| && Clash(dir, located[i], located[j]);
      LessTotal(located[i].path, located[j].path);
      ClashIsCollision(dir, located[i], located[j]);
    }
  }

  lemma FinishedIndex(
    sha: Bytes -> Hash256, byPath: map<VfsPath, TreeArtifact>, authorityGeneration: u64, workspaceGeneration: u64,
    builders: map<VfsPath, DirectoryBuilder>, directories: map<VfsPath, CachedDirectory>)
    requires FedUpTo(builders, Entries(byPath), |Entries(byPath)|)
    requires directories == map dir | dir in builders ::
                              Finish(sha, builders[dir], authorityGeneration, workspaceGeneration)
    ensures Indexes(directories, sha, byPath, authorityGeneration, workspaceGeneration)
  {
    var located := Entries(byPath);
    assert located[..|located|] == located;
    forall dir: VfsPath ensures dir in directories <==> IsDirectoryOf(dir, byPath) {
      if p :| p in byPath && IsAncestorOf(dir, p) {
        EntriesHold(byPath, p);
      }
    }
    forall dir | dir in directories
      ensures directories[dir].mutation == DirectoryMutationIdentity(
                authorityGeneration, workspaceGeneration, sha(Stream(dir, Under(dir, located))))
      ensures Lists(directories[dir].entries, dir, byPath)
    {
      assert Ok(BuilderAt(builders, dir)) == Feed(dir, located);
      FeedHashes(dir, located);
      FinishedLists(dir, byPath);
    }
  }

  /// Accepting a snapshot

  predicate Holds(byPath: map<VfsPath, TreeArtifact>, wire: WireArtifact) {
    ValidPath(wire.path) && wire.path in byPath && byPath[wire.path] == wire.artifact
  }

  predicate ComesFrom(p: VfsPath, artifacts: seq<WireArtifact>, n: nat)
    requires n <= |artifacts|
  {
    exists i :: 0 <= i < n && artifacts[i].path == p
  }

  /** `byPath` carries exactly the first `n` wire artifacts. */
  ghost predicate Carries(byPath: map<VfsPath, TreeArtifact>, artifacts: seq<WireArtifact>, n: nat)
    requires n <= |artifacts|
  {
    && |byPath| == n
    && (forall i :: 0 <= i < n ==> Holds(byPath, artifacts[i]))
    && (forall p :: p in byPath ==> ComesFrom(p, artifacts, n))
  }

  predicate DistinctPaths(artifacts: seq<WireArtifact>, n: nat)
    requires n <= |artifacts|
  {
    forall i, j :: 0 <= i < j < n ==> artifacts[i].path != artifacts[j].path
  }

  /** The snapshots that are accepted, past the identity check of the model crate. */
  predicate Acceptable(artifacts: seq<WireArtifact>) {
    && |artifacts| < U64_LIMIT
    && (forall i :: 0 <= i < |artifacts| ==> artifacts[i].path != ROOT && ValidPath(artifacts[i].path))
    && DistinctPaths(artifacts, |artifacts|)
    && (forall i, j :: 0 <= i < |artifacts| && 0 <= j < |artifacts| ==> !IsAncestorOf(artifacts[i].path, artifacts[j].path))
  }

  ghost predicate IsTreeOf(tree: CachedTree, sha: Bytes -> Hash256, snapshot: WireSnapshot) {
    && snapshot.identity == Some(tree.etag)
    && tree.binding == snapshot.binding
    && tree.version == snapshot.binding.authorityGeneration
    && Carries(tree.byPath, snapshot.artifacts, |snapshot.artifacts|)
    && PrefixFree(tree.byPath)
    && Indexes(tree.directories, sha, tree.byPath, tree.version, snapshot.binding.workspaceGeneration)
  }

  /** The first loop of `from_snapshot`: every path valid, none repeated. */
  method CollectPaths(artifacts: seq<WireArtifact>) returns (r: Result<map<VfsPath, TreeArtifact>, TreeError>)
    ensures r.Ok? ==> Carries(r.value, artifacts, |artifacts|) && DistinctPaths(artifacts, |artifacts|)
    ensures r.Err? ==> !Acceptable(artifacts)
  {
    var byPath: map<VfsPath, TreeArtifact> := map[];
    for i := 0 to |artifacts|
      invariant Carries(byPath, artifacts, i)
      invariant DistinctPaths(artifacts, i)
    {
      var path := FromBytes(artifacts[i].path);
      if path.Err? {
        return Err(InvalidTreePath);
      }
      if path.value in byPath {
        RepeatIsRefused(byPath, artifacts, i);
        return Err(RepeatedPath);
      }
      DistinctNext(byPath, artifacts, i);
      CarriesOneMore(byPath, artifacts, i);
      byPath := byPath[path.value := artifacts[i].artifact];
    }
    return Ok(byPath);
  }

  lemma RepeatIsRefused(byPath: map<VfsPath, TreeArtifact>, artifacts: seq<WireArtifact>, i: nat)
    requires i < |artifacts| && Carries(byPath, artifacts, i)
    requires ValidPath(artifacts[i].path) && artifacts[i].path in byPath
    ensures !DistinctPaths(artifacts, |artifacts|)
  {
    assert ComesFrom(artifacts[i].path, artifacts, i);
  }

  lemma DistinctNext(byPath: map<VfsPath, TreeArtifact>, artifacts: seq<WireArtifact>, i: nat)
    requires i < |artifacts| && Carries(byPath, artifacts, i) && DistinctPaths(artifacts, i)
    requires ValidPath(artifacts[i].path) && artifacts[i].path !in byPath
    ensures DistinctPaths(artifacts, i + 1)
  {
    var path: VfsPath := artifacts[i].path;
    forall j, k | 0 <= j < k < i + 1 ensures artifacts[j].path != artifacts[k].path {
      if k == i {
        assert Holds(byPath, artifacts[j]);
        assert artifacts[j].path in byPath;
      }
    }
  }

  lemma CarriesOneMore(byPath: map<VfsPath, TreeArtifact>, artifacts: seq<WireArtifact>, i: nat)
    requires i < |artifacts| && Carries(byPath, artifacts, i)
    requires ValidPath(artifacts[i].path) && artifacts[i].path !in byPath
    ensures Carries(byPath[artifacts[i].path := artifacts[i].artifact], artifacts, i + 1)
  {
    var path: VfsPath := artifacts[i].path;
    var after := byPath[path := artifacts[i].artifact];
    forall j | 0 <= j < i + 1 ensures Holds(after, artifacts[j]) {
      if j < i { assert Holds(byPath, artifacts[j]); }
    }
    forall p | p in after ensures ComesFrom(p, artifacts, i + 1) {
      if p != path { assert ComesFrom(p, artifacts, i); }
    }
  }

  /** The index, and the check that no directory is an artifact. */
  method IndexPaths(
    sha: Bytes -> Hash256, byPath: map<VfsPath, TreeArtifact>, authorityGeneration: u64, workspaceGeneration: u64)
    returns (r: Result<map<VfsPath, CachedDirectory>, TreeError>)
    ensures r.Ok? <==> |byPath| < U64_LIMIT && PrefixFree(byPath)
    ensures r.Ok? ==> Indexes(r.value, sha, byPath, authorityGeneration, workspaceGeneration)
  {
    r := BuildDirectoryIndex(sha, byPath, authorityGeneration, workspaceGeneration);
    if r.Ok? {
      CollisionIsPrefix(r.value, byPath);
      if dir :| dir in r.value && dir in byPath {
        r := Err(PrefixCollision);
      }
    }
  }

  /** `CachedTree::from_snapshot`. */
  method FromSnapshot(sha: Bytes -> Hash256, snapshot: WireSnapshot) returns (r: Result<CachedTree, TreeError>)
    ensures r.Ok? <==> snapshot.identity.Some? && Acceptable(snapshot.artifacts)
    ensures r.Ok? ==> IsTreeOf(r.value, sha, snapshot)
  {
    if snapshot.identity.None? {
      return Err(InvalidSnapshot);
    }
    var byPath :- CollectPaths(snapshot.artifacts);
    AcceptableIsPrefixFree(byPath, snapshot.artifacts);
    var directories :- IndexPaths(
      sha, byPath, snapshot.binding.authorityGeneration, snapshot.binding.workspaceGeneration);
    return Ok(CachedTree(
      snapshot.binding, snapshot.binding.authorityGeneration, snapshot.identity.value, byPath, directories));
  }

  lemma CollisionIsPrefix(directories: map<VfsPath, CachedDirectory>, byPath: map<VfsPath, TreeArtifact>)
    requires forall dir: VfsPath :: dir in directories <==> IsDirectoryOf(dir, byPath)
    ensures PrefixFree(byPath) <==> forall dir :: dir in directories ==> dir !in byPath
  {
    if p, q :| p in byPath && q in byPath && IsAncestorOf(p, q) {
      assert IsDirectoryOf(p, byPath);
    }
    assert IsDirectoryOf(ROOT, byPath);
  }

  lemma AcceptableIsPrefixFree(byPath: map<VfsPath, TreeArtifact>, artifacts: seq<WireArtifact>)
    requires Carries(byPath, artifacts, |artifacts|) && DistinctPaths(artifacts, |artifacts|)
    ensures Acceptable(artifacts) <==> |byPath| < U64_LIMIT && PrefixFree(byPath)
  {
    forall i | 0 <= i < |artifacts| ensures Holds(byPath, artifacts[i]) {}
    forall p | p in byPath ensures ComesFrom(p, artifacts, |artifacts|) {}
  }

  /// Every acceptable set of artifacts has an index

  lemma {:induction false} FeedOutside(dir: VfsPath, located: seq<Located>)
    requires forall i :: 0 <= i < |located| ==> !IsAncestorOf(dir, located[i].path)
    ensures Feed(dir, located) == Ok(NewBuilder(dir))
  {
    if located != [] { FeedOutside(dir, located[..|located| - 1]); }
  }

  lemma FeedSucceeds(byPath: map<VfsPath, TreeArtifact>, dir: VfsPath)
    requires PrefixFree(byPath) && |byPath| < U64_LIMIT
    ensures Feed(dir, Entries(byPath)).Ok?
  {
    var located := Entries(byPath);
    if Feed(dir, located).Err? {
      assert located[..|located|] == located;
      assert FeedErr(dir, located[..|located|]);
      IndexFails(byPath);
    }
  }

  /** The root and every ancestor of an artifact, as a finite set. */
  function DirectorySet(byPath: map<VfsPath, TreeArtifact>): set<VfsPath> {
    {ROOT} + (set p, d | p in byPath && d in ParentChain(p) :: d)
  }

  predicate Above(dir: VfsPath, located: seq<Located>) {
    exists j :: 0 <= j < |located| && IsAncestorOf(dir, located[j].path)
  }

  lemma InDirectorySet(byPath: map<VfsPath, TreeArtifact>, dir: VfsPath)
    ensures dir in DirectorySet(byPath) <==> dir == ROOT || Above(dir, Entries(byPath))
  {
    var located := Entries(byPath);
    if p :| p in byPath && dir in ParentChain(p) {
      ChainEnumeratesAncestors(dir, p);
      EntriesHold(byPath, p);
    }
    if j :| 0 <= j < |located| && IsAncestorOf(dir, located[j].path) {
      ChainEnumeratesAncestors(dir, located[j].path);
    }
  }

  /** The builder of one directory, fed with everything. */
  function FedBuilder(byPath: map<VfsPath, TreeArtifact>, dir: VfsPath): DirectoryBuilder
    requires PrefixFree(byPath) && |byPath| < U64_LIMIT
  {
    FeedSucceeds(byPath, dir);
    Feed(dir, Entries(byPath)).value
  }

  lemma BuildersExist(byPath: map<VfsPath, TreeArtifact>) returns (builders: map<VfsPath, DirectoryBuilder>)
    requires PrefixFree(byPath) && |byPath| < U64_LIMIT
    ensures FedUpTo(builders, Entries(byPath), |Entries(byPath)|)
  {
    var located := Entries(byPath);
    builders := map dir | dir in DirectorySet(byPath) :: FedBuilder(byPath, dir);
    assert located[..|located|] == located;
    forall dir: VfsPath ensures dir in builders <==> dir == ROOT || Above(dir, located) { InDirectorySet(byPath, dir); }
    forall dir: VfsPath ensures Ok(BuilderAt(builders, dir)) == Feed(dir, located) {
      FeedSucceeds(byPath, dir);
      if dir !in builders { FeedOutside(dir, located); }
    }
  }

  /** A prefix-free map of fewer than 2^64 artifacts has an index. */
  lemma IndexExists(
    sha: Bytes -> Hash256, byPath: map<VfsPath, TreeArtifact>, authorityGeneration: u64, workspaceGeneration: u64)
    returns (directories: map<VfsPath, CachedDirectory>)
    requires PrefixFree(byPath) && |byPath| < U64_LIMIT
    ensures Indexes(directories, sha, byPath, authorityGeneration, workspaceGeneration)
  {
    var builders := BuildersExist(byPath);
    directories := map dir | dir in builders :: Finish(sha, builders[dir], authorityGeneration, workspaceGeneration);
    FinishedIndex(sha, byPath, authorityGeneration, workspaceGeneration, builders, directories);
  }
}
