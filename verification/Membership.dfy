/**
 The byte stream hashed for one directory's membership identity, and why equal streams mean equal
 descendants.
 */
module Membership {
  import opened ByteStrings
  import opened VfsPaths

  type Hash256 = h: Bytes | |h| == 32 witness seq(32, _ => 0)
  type ArtifactId = id: Bytes | |id| == 16 witness seq(16, _ => 0)

  datatype TreeEntry =
    | Blob(hash: Hash256, executable: bool)
    | Symlink(targetBlob: Hash256)
    | Gitlink(target: Bytes)

  datatype TreeArtifact = TreeArtifact(artifactId: ArtifactId, entry: TreeEntry, size: u64, mtime: u64)

  /** One key and value of the `by_path` map. */
  datatype Located = Located(path: VfsPath, artifact: TreeArtifact)

  /** `kin-vfs-directory-membership-v1` and a NUL. */
  const DOMAIN: Bytes :=
    [107, 105, 110, 45, 118, 102, 115, 45, 100, 105, 114, 101, 99, 116, 111, 114, 121, 45,
     109, 101, 109, 98, 101, 114, 115, 104, 105, 112, 45, 118, 49, 0]

  function LenPrefixed(bytes: Bytes): Bytes {
    BigEndian(8, |bytes|) + bytes
  }

  function EntryBytes(entry: TreeEntry): Bytes {
    match entry
    case Blob(hash, executable) => [0] + hash + [if executable then 1 else 0]
    case Symlink(target) => [1] + target
    case Gitlink(target) => [2] + LenPrefixed(target)
  }

  function Ascii(text: string): Bytes
    requires forall i :: 0 <= i < |text| ==> text[i] < 128 as char
  {
    seq(|text|, i requires 0 <= i < |text| => text[i] as byte)
  }

  lemma DomainIsText()
    ensures DOMAIN == Ascii("kin-vfs-directory-membership-v1") + [0]
  {
  }

  /** The tag and flag bytes of each kind of entry. */
  lemma PinnedBytes(hash: Hash256, target: Bytes)
    ensures EntryBytes(Blob(hash, false)) == [0] + hash + [0]
    ensures EntryBytes(Blob(hash, true)) == [0] + hash + [1]
    ensures EntryBytes(Symlink(hash)) == [1] + hash
    ensures EntryBytes(Gitlink(target)) == [2] + BigEndian(8, |target|) + target
  {
    assert [2] + (BigEndian(8, |target|) + target) == [2] + BigEndian(8, |target|) + target;
  }

  function SizeBytes(a: TreeArtifact): Bytes {
    BigEndian(8, a.size) + BigEndian(8, a.mtime)
  }

  function ArtifactBytes(a: TreeArtifact): Bytes {
    a.artifactId + (EntryBytes(a.entry) + SizeBytes(a))
  }

  /** What one descendant feeds the hasher. */
  function Record(located: Located): Bytes {
    LenPrefixed(located.path) + ArtifactBytes(located.artifact)
  }

  function Records(descendants: seq<Located>): Bytes {
    if descendants == [] then [] else Record(descendants[0]) + Records(descendants[1..])
  }

  function Header(dir: VfsPath): Bytes {
    DOMAIN + LenPrefixed(dir)
  }

  /** Everything the hasher of `dir` has been fed when it is finalized. */
  function Stream(dir: VfsPath, descendants: seq<Located>): Bytes {
    Header(dir) + Records(descendants) + BigEndian(8, |descendants|)
  }

  /** Lengths are `usize`, so they fit the eight bytes that carry them. */
  predicate Sized(located: Located) {
    && |located.path| < U64_LIMIT
    && (located.artifact.entry.Gitlink? ==> |located.artifact.entry.target| < U64_LIMIT)
  }

  predicate AllSized(descendants: seq<Located>) {
    forall i :: 0 <= i < |descendants| ==> Sized(descendants[i])
  }

  /// Self-delimiting pieces

  lemma Regroup(x: Bytes, y: Bytes, z: Bytes)
    ensures x + y + z == x + (y + z)
  {
  }

  lemma PeelFixed(x: Bytes, r: Bytes, y: Bytes, s: Bytes)
    requires |x| == |y| && x + r == y + s
    ensures x == y && r == s
  {
    assert (x + r)[..|x|] == x && (y + s)[..|y|] == y;
    assert (x + r)[|x|..] == r && (y + s)[|y|..] == s;
  }

  lemma PeelLenPrefixed(x: Bytes, r: Bytes, y: Bytes, s: Bytes)
    requires |x| < U64_LIMIT && |y| < U64_LIMIT
    requires LenPrefixed(x) + r == LenPrefixed(y) + s
    ensures x == y && r == s
  {
    Pow256Eight();
    Regroup(BigEndian(8, |x|), x, r);
    Regroup(BigEndian(8, |y|), y, s);
    PeelFixed(BigEndian(8, |x|), x + r, BigEndian(8, |y|), y + s);
    BigEndianInjective(8, |x|, |y|);
    PeelFixed(x, r, y, s);
  }

  lemma PeelU64(m: u64, r: Bytes, n: u64, s: Bytes)
    requires BigEndian(8, m) + r == BigEndian(8, n) + s
    ensures m == n && r == s
  {
    Pow256Eight();
    PeelFixed(BigEndian(8, m), r, BigEndian(8, n), s);
    BigEndianInjective(8, m, n);
  }

  lemma PeelEntry(e: TreeEntry, r: Bytes, f: TreeEntry, s: Bytes)
    requires e.Gitlink? ==> |e.target| < U64_LIMIT
    requires f.Gitlink? ==> |f.target| < U64_LIMIT
    requires EntryBytes(e) + r == EntryBytes(f) + s
    ensures e == f && r == s
  {
    SameTag(e, r, f, s);
    match e
    case Gitlink(target) =>
      Regroup([2], LenPrefixed(target), r);
      Regroup([2], LenPrefixed(f.target), s);
      PeelFixed([2], LenPrefixed(target) + r, [2], LenPrefixed(f.target) + s);
      PeelLenPrefixed(target, r, f.target, s);
    case Symlink(target) =>
      PeelFixed([1] + target, r, [1] + f.targetBlob, s);
      PeelFixed([1], target, [1], f.targetBlob);
    case Blob(hash, executable) =>
      PeelFixed(EntryBytes(e), r, EntryBytes(f), s);
      var x, y := [if executable then 1 else 0], [if f.executable then 1 else 0];
      PeelFixed([0] + hash, x, [0] + f.hash, y);
      PeelFixed([0], hash, [0], f.hash);
  }

  lemma SameTag(e: TreeEntry, r: Bytes, f: TreeEntry, s: Bytes)
    requires EntryBytes(e) + r == EntryBytes(f) + s
    ensures e.Blob? == f.Blob? && e.Symlink? == f.Symlink?
  {
    assert (EntryBytes(e) + r)[0] == EntryBytes(e)[0];
    assert (EntryBytes(f) + s)[0] == EntryBytes(f)[0];
  }

  lemma PeelSizes(a: TreeArtifact, r: Bytes, b: TreeArtifact, s: Bytes)
    requires SizeBytes(a) + r == SizeBytes(b) + s
    ensures a.size == b.size && a.mtime == b.mtime && r == s
  {
    Regroup(BigEndian(8, a.size), BigEndian(8, a.mtime), r);
    Regroup(BigEndian(8, b.size), BigEndian(8, b.mtime), s);
    PeelU64(a.size, BigEndian(8, a.mtime) + r, b.size, BigEndian(8, b.mtime) + s);
    PeelU64(a.mtime, r, b.mtime, s);
  }

  lemma PeelArtifact(a: TreeArtifact, r: Bytes, b: TreeArtifact, s: Bytes)
    requires a.entry.Gitlink? ==> |a.entry.target| < U64_LIMIT
    requires b.entry.Gitlink? ==> |b.entry.target| < U64_LIMIT
    requires ArtifactBytes(a) + r == ArtifactBytes(b) + s
    ensures a == b && r == s
  {
    var x, y := EntryBytes(a.entry) + SizeBytes(a), EntryBytes(b.entry) + SizeBytes(b);
    Regroup(a.artifactId, x, r);
    Regroup(b.artifactId, y, s);
    PeelFixed(a.artifactId, x + r, b.artifactId, y + s);
    Regroup(EntryBytes(a.entry), SizeBytes(a), r);
    Regroup(EntryBytes(b.entry), SizeBytes(b), s);
    PeelEntry(a.entry, SizeBytes(a) + r, b.entry, SizeBytes(b) + s);
    PeelSizes(a, r, b, s);
  }

  /** A record says where it ends, so a stream of records can be read back one at a time. */
  lemma PeelRecord(x: Located, r: Bytes, y: Located, s: Bytes)
    requires Sized(x) && Sized(y)
    requires Record(x) + r == Record(y) + s
    ensures x == y && r == s
  {
    Regroup(LenPrefixed(x.path), ArtifactBytes(x.artifact), r);
    Regroup(LenPrefixed(y.path), ArtifactBytes(y.artifact), s);
    PeelLenPrefixed(x.path, ArtifactBytes(x.artifact) + r, y.path, ArtifactBytes(y.artifact) + s);
    PeelArtifact(x.artifact, r, y.artifact, s);
  }

  lemma RecordsLonger(x: seq<Located>)
    ensures x != [] ==> |Records(x)| > 0
  {
  }

  lemma SameHeadAndTail<T>(x: seq<T>, y: seq<T>)
    requires x != [] && y != [] && x[0] == y[0] && x[1..] == y[1..]
    ensures x == y
  {
    assert x == [x[0]] + x[1..];
    assert y == [y[0]] + y[1..];
  }

  /** Records followed by any eight bytes determine the records, so even the count is redundant. */
  lemma {:induction false} RecordsInjective(x: seq<Located>, r: Bytes, y: seq<Located>, s: Bytes)
    requires AllSized(x) && AllSized(y) && |r| == |s| == 8
    requires Records(x) + r == Records(y) + s
    ensures x == y
  {
    EndTogether(x, r, y, s);
    if x != [] {
      RecordsStep(x, r, y, s);
      RecordsInjective(x[1..], r, y[1..], s);
      SameHeadAndTail(x, y);
    }
  }

  lemma EndTogether(x: seq<Located>, r: Bytes, y: seq<Located>, s: Bytes)
    requires |r| == |s|
    requires Records(x) + r == Records(y) + s
    ensures x == [] <==> y == []
  {
    RecordsLonger(x);
    RecordsLonger(y);
    assert |Records(x) + r| == |Records(y) + s|;
  }

  lemma RecordsStep(x: seq<Located>, r: Bytes, y: seq<Located>, s: Bytes)
    requires x != [] && y != [] && AllSized(x) && AllSized(y)
    requires Records(x) + r == Records(y) + s
    ensures x[0] == y[0] && Records(x[1..]) + r == Records(y[1..]) + s
  {
    Regroup(Record(x[0]), Records(x[1..]), r);
    Regroup(Record(y[0]), Records(y[1..]), s);
    PeelRecord(x[0], Records(x[1..]) + r, y[0], Records(y[1..]) + s);
  }

  /** Equal membership streams name the same directory and the same ordered descendants. */
  lemma StreamInjective(d: VfsPath, x: seq<Located>, e: VfsPath, y: seq<Located>)
    requires |d| < U64_LIMIT && |e| < U64_LIMIT && AllSized(x) && AllSized(y)
    requires Stream(d, x) == Stream(e, y)
    ensures d == e && x == y
  {
    var i, j := BigEndian(8, |x|), BigEndian(8, |y|);
    StreamGroups(d, x);
    StreamGroups(e, y);
    PeelFixed(DOMAIN, LenPrefixed(d) + (Records(x) + i), DOMAIN, LenPrefixed(e) + (Records(y) + j));
    PeelLenPrefixed(d, Records(x) + i, e, Records(y) + j);
    RecordsInjective(x, i, y, j);
  }

  lemma StreamGroups(d: VfsPath, x: seq<Located>)
    ensures Stream(d, x) == DOMAIN + (LenPrefixed(d) + (Records(x) + BigEndian(8, |x|)))
  {
    var i := BigEndian(8, |x|);
    Regroup(Header(d), Records(x), i);
    Regroup(DOMAIN, LenPrefixed(d), Records(x) + i);
  }
}
