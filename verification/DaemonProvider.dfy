/** The provider's own state: the installed snapshot and the cache of verified bodies. */
module DaemonProvider {
  import opened Wrappers
  import opened ByteStrings
  import opened ByteRanges
  import opened VfsPaths
  import opened Membership
  import opened TreeContract
  import opened TreeLookup
  import opened Lru
  import opened Succession

  const CONTENT_CACHE_CAP: nat := 64

  datatype BlobReply = NoReply | Missing | RefusedStatus | Body(data: Bytes)

  datatype Op = ReadFile | ReadRange(offset: u64, len: u64) | ReadLink

  /** The content address and size a read goes to the blob store with, or the precise kind error. */
  function Address(tree: CachedTree, op: Op, path: VfsPath): VfsResult<(Hash256, u64)> {
    match RequireArtifact(tree, path)
    case Err(IsDirectory) => Err(if op.ReadLink? then InvalidInput else IsDirectory)
    case Err(error) => Err(error)
    case Ok(a) =>
      match a.entry
      case Gitlink(_) => Err(UnsupportedRepositoryBoundary)
      case Blob(hash, _) => if op.ReadLink? then Err(InvalidInput) else Ok((hash, a.size))
      case Symlink(target) => Ok((target, a.size))
  }

  /** A range the advertised size already shows to be empty is answered without the body. */
  predicate NeedsBody(op: Op, size: u64) {
    op.ReadRange? ==> op.len != 0 && op.offset < size
  }

  function Cut(op: Op, body: Bytes): VfsResult<Bytes> {
    if op.ReadRange? then SliceVerifiedBlob(body, op.offset, op.len) else Ok(body)
  }

  /** Size first, then digest: what a fetched body must satisfy before it is exposed or cached. */
  predicate Verifies(sha: Bytes -> Hash256, hash: Hash256, size: u64, reply: BlobReply) {
    reply.Body? && |reply.data| == size && sha(reply.data) == hash
  }

  ghost predicate Verified(sha: Bytes -> Hash256, bodies: map<Hash256, Bytes>) {
    forall h :: h in bodies ==> sha(bodies[h]) == h
  }

  /** These are the bytes `op` asks for, out of a body with the digest `tree` holds for `path`. */
  ghost predicate Genuine(sha: Bytes -> Hash256, tree: CachedTree, op: Op, path: VfsPath, bytes: Bytes, body: Bytes) {
    && Address(tree, op, path).Ok?
    && var (hash, size) := Address(tree, op, path).value;
       if NeedsBody(op, size) then sha(body) == hash && Cut(op, body) == Ok(bytes)
       else bytes == []
  }

  /** The bodies at hand, and what the blob store would send for the address asked. */
  datatype Supply = Supply(bodies: map<Hash256, Bytes>, reply: BlobReply)

  /** A body of this digest: the one at hand, or else the reply, if its digest and size are right. */
  predicate Supplied(sha: Bytes -> Hash256, supply: Supply, hash: Hash256, size: u64, body: Bytes) {
    if hash in supply.bodies then body == supply.bodies[hash]
    else supply.reply == Body(body) && |body| == size && sha(body) == hash
  }

  /** `r` is what `op` makes of a body of this digest, or `Provider` for want of one. */
  ghost predicate Yields(sha: Bytes -> Hash256, supply: Supply, hash: Hash256, size: u64, op: Op, r: VfsResult<Bytes>) {
    match op
    case ReadRange(offset, len) =>
      if len == 0 || offset >= size then r == Ok([])
      else if r.Ok? then exists body :: Supplied(sha, supply, hash, size, body) && r.value == Range(body, offset, len)
      else r.error == Provider && forall body :: Supplied(sha, supply, hash, size, body) ==> |body| >= U64_LIMIT
    case _ =>
      if r.Ok? then Supplied(sha, supply, hash, size, r.value)
      else r.error == Provider && forall body :: !Supplied(sha, supply, hash, size, body)
  }

  /**
   What each operation must answer for each kind of path: a file or the target of a link by its digest, and
   the exact refusal for a directory, a repository boundary, a file asked for its target, and nothing at all.
   */
  ghost predicate ReadsAs(
    sha: Bytes -> Hash256, tree: CachedTree, supply: Supply, op: Op, path: VfsPath, r: VfsResult<Bytes>)
  {
    if path in tree.byPath then
      match tree.byPath[path].entry
      case Blob(hash, _) => if op == ReadLink then r == Err(InvalidInput) else Yields(sha, supply, hash, tree.byPath[path].size, op, r)
      case Symlink(target) => Yields(sha, supply, target, tree.byPath[path].size, op, r)
      case Gitlink(_) => r == Err(UnsupportedRepositoryBoundary)
    else if path in tree.directories then r == Err(if op == ReadLink then InvalidInput else IsDirectory)
    else r == Err(NotFound)
  }

  /** What a snapshot answers when `store` holds the bodies. */
  function TreeRead(tree: CachedTree, store: Hash256 -> VfsResult<Bytes>, op: Op, path: VfsPath): VfsResult<Bytes> {
    match Address(tree, op, path)
    case Err(error) => Err(error)
    case Ok((hash, size)) =>
      if !NeedsBody(op, size) then Ok([])
      else match store(hash)
        case Ok(body) => Cut(op, body)
        case Err(error) => Err(error)
  }

  /** What a read comes to, given the snapshot, the bodies at hand and the blob store's reply. */
  function Outcome(
    sha: Bytes -> Hash256, tree: Option<CachedTree>, bodies: map<Hash256, Bytes>, op: Op, path: VfsPath, reply: BlobReply)
      : VfsResult<Bytes>
  {
    if tree.None? then Err(Provider)
    else match Address(tree.value, op, path)
      case Err(error) => Err(error)
      case Ok((hash, size)) =>
        if !NeedsBody(op, size) then Ok([])
        else if hash in bodies then Cut(op, bodies[hash])
        else if Verifies(sha, hash, size, reply) then Cut(op, reply.data)
        else Err(Provider)
  }

  lemma OutcomeReadsAs(
    sha: Bytes -> Hash256, tree: CachedTree, bodies: map<Hash256, Bytes>, op: Op, path: VfsPath, reply: BlobReply)
    ensures ReadsAs(sha, tree, Supply(bodies, reply), op, path, Outcome(sha, Some(tree), bodies, op, path, reply))
  {
    var supply := Supply(bodies, reply);
    var address := Address(tree, op, path);
    if address.Ok? {
      var (hash, size) := address.value;
      assert hash in bodies ==> Supplied(sha, supply, hash, size, bodies[hash]);
      assert hash !in bodies && Verifies(sha, hash, size, reply) ==> Supplied(sha, supply, hash, size, reply.data);
    }
  }

  class KinDaemonProvider {
    const sha: Bytes -> Hash256
    var tree: Option<CachedTree>
    var contentCache: LruCache<Hash256, Bytes>

    ghost predicate Valid()
      reads this
    {
      && Indexed(tree, sha)
      && contentCache.Valid()
      && Verified(sha, contentCache.entries)
    }

    constructor (sha: Bytes -> Hash256)
      ensures Valid() && this.sha == sha && tree.None?
      ensures contentCache.entries == map[] && contentCache.capacity == 64
    {
      this.sha := sha;
      this.tree := None;
      this.contentCache := Empty(CONTENT_CACHE_CAP);
    }

    /** `ensure_tree`, from the moment its response arrives. */
    method EnsureTree(c: Completion) returns (ok: bool)
      requires Valid()
      modifies this`tree
      ensures Valid()
      ensures Refreshes(sha, old(tree), c, tree, ok)
      ensures c.response.Document? && Presentable(c.response.header, c.response.body, c.response.local) ==>
                forall next :: IsTreeOf(next, sha, c.response.body.value) && Comparable(sha, old(tree), next) ==>
                  AsDecided(old(tree), next, tree, ok)
    {
      match c.response {
        case Unreachable => return false;
        case Refused => return false;
        case NotModified(local) =>
          return c.cachedEtag.Some? && tree.Some? && tree.value.etag == c.cachedEtag.value && local;
        case Document(header, body, local) =>
          var headerEtag := ParseEtagHeader(header);
          if headerEtag.None? || body.None? || body.value.identity != headerEtag || !local {
            return false;
          }
          var next := FromSnapshot(sha, body.value);
          if next.Err? {
            return false;
          }
          TreeOfIsValidated(next.value, sha, body.value);
          ok := Succeed(next.value);
          forall other | IsTreeOf(other, sha, body.value) && Comparable(sha, old(tree), other)
            ensures AsDecided(old(tree), other, tree, ok)
          {
            RefreshDecides(sha, old(tree), c, tree, ok, other);
          }
      }
    }

    /** Plan the succession and follow the plan. */
    method Succeed(next: CachedTree) returns (ok: bool)
      requires Valid() && Validated(next, sha)
      modifies this`tree
      ensures Valid()
      ensures Installs(sha, old(tree), next, tree, ok)
      ensures Comparable(sha, old(tree), next) ==> AsDecided(old(tree), next, tree, ok)
    {
      assert IsDirectoryOf(ROOT, next.byPath);
      assert tree.Some? ==> IsDirectoryOf(ROOT, tree.value.byPath);
      var plan := PlanSuccession(tree, next);
      if plan == Ok(Install) {
        tree := Some(next);
      }
      if Comparable(sha, old(tree), next) { InstallsAsDecided(sha, old(tree), next, tree, plan.Ok?); }
      return plan.Ok?;
    }

    /** `fetch_verified_blob`, with the reply its request would get. */
    method FetchVerifiedBlob(hash: Hash256, expectedSize: u64, reply: BlobReply) returns (r: VfsResult<Bytes>)
      requires Valid()
      modifies this`contentCache
      ensures Valid()
      ensures r.Ok? ==> sha(r.value) == hash
      ensures if hash in old(contentCache.entries)
              then r == Ok(old(contentCache.entries)[hash])
              else r == if Verifies(sha, hash, expectedSize, reply) then Ok(reply.data) else Err(Provider)
      ensures contentCache ==
              if hash in old(contentCache.entries) then old(contentCache).Get(hash).0
              else if r.Ok? then old(contentCache).Put(hash, r.value)
              else old(contentCache)
    {
      var (cache, hit) := contentCache.Get(hash);
      contentCache := cache;
      if hit.Some? {
        return Ok(hit.value);
      }
      if !reply.Body? || |reply.data| != expectedSize || sha(reply.data) != hash {
        return Err(Provider);
      }
      contentCache := contentCache.Put(hash, reply.data);
      return Ok(reply.data);
    }

    /** `read_file`, `read_range` and `read_link`: refresh, look up, fetch, cut. */
    method Read(op: Op, path: VfsPath, c: Completion, reply: BlobReply) returns (r: VfsResult<Bytes>)
      requires Valid()
      modifies this`tree, this`contentCache
      ensures Valid()
      ensures || (Refreshes(sha, old(tree), c, tree, true) &&
                  r == Outcome(sha, tree, old(contentCache.entries), op, path, reply) &&
                  (tree.Some? ==> ReadsAs(sha, tree.value, Supply(old(contentCache.entries), reply), op, path, r)))
              || (Refreshes(sha, old(tree), c, tree, false) && r == Err(Provider))
      ensures tree.None? ==> r == Err(Provider)
      ensures r.Ok? ==> tree.Some? && exists body :: Genuine(sha, tree.value, op, path, r.value, body)
    {
      var ok := EnsureTree(c);
      if !ok || tree.None? {
        return Err(Provider);
      }
      r := ReadInstalled(op, path, reply);
    }

    method ReadInstalled(op: Op, path: VfsPath, reply: BlobReply) returns (r: VfsResult<Bytes>)
      requires Valid() && tree.Some?
      modifies this`contentCache
      ensures Valid()
      ensures r == Outcome(sha, tree, old(contentCache.entries), op, path, reply)
      ensures ReadsAs(sha, tree.value, Supply(old(contentCache.entries), reply), op, path, r)
      ensures var address := Address(tree.value, op, path);
              contentCache.entries ==
                if && address.Ok? && NeedsBody(op, address.value.1) && address.value.0 !in old(contentCache.entries)
                   && Verifies(sha, address.value.0, address.value.1, reply)
                then old(contentCache).Put(address.value.0, reply.data).entries
                else old(contentCache.entries)
      ensures r.Ok? ==> exists body :: Genuine(sha, tree.value, op, path, r.value, body)
    {
      OutcomeReadsAs(sha, tree.value, contentCache.entries, op, path, reply);
      var address :- Address(tree.value, op, path);
      var (hash, size) := address;
      if !NeedsBody(op, size) {
        assert Genuine(sha, tree.value, op, path, [], []);
        return Ok([]);
      }
      var body :- FetchVerifiedBlob(hash, size, reply);
      r := Cut(op, body);
      assert r.Ok? ==> Genuine(sha, tree.value, op, path, r.value, body);
    }
  }

  /// Interleaved reads, refreshes and evictions

  datatype Call =
    | Waiting(op: Op, path: VfsPath, tree: CachedTree, hash: Hash256, size: u64)
    | Done(op: Op, path: VfsPath, tree: CachedTree, result: VfsResult<Bytes>, body: Bytes, fetched: bool)

  datatype State = State(tree: Option<CachedTree>, bodies: map<Hash256, Bytes>, calls: map<nat, Call>)

  datatype Event =
    | Refresh(completion: Completion)
    | Begin(call: nat, op: Op, path: VfsPath)
    | Hit(call: nat)
    | Reply(call: nat, reply: BlobReply)
    | Evict(hash: Hash256)

  function Started(tree: CachedTree, op: Op, path: VfsPath): Call {
    match Address(tree, op, path)
    case Err(error) => Done(op, path, tree, Err(error), [], false)
    case Ok((hash, size)) =>
      if NeedsBody(op, size) then Waiting(op, path, tree, hash, size)
      else Done(op, path, tree, Ok([]), [], false)
  }

  ghost predicate Next(sha: Bytes -> Hash256, s: State, e: Event, t: State) {
    match e
    case Refresh(c) => Completes(sha, s.tree, c, t.tree) && t.bodies == s.bodies && t.calls == s.calls
    case Begin(call, op, path) =>
      s.tree.Some? && call !in s.calls && t == s.(calls := s.calls[call := Started(s.tree.value, op, path)])
    case Hit(call) =>
      && call in s.calls && s.calls[call].Waiting? && s.calls[call].hash in s.bodies
      && var w := s.calls[call];
         var body := s.bodies[w.hash];
         t == s.(calls := s.calls[call := Done(w.op, w.path, w.tree, Cut(w.op, body), body, false)])
    case Reply(call, reply) =>
      && call in s.calls && s.calls[call].Waiting?
      && var w := s.calls[call];
         if Verifies(sha, w.hash, w.size, reply) then
           t == s.(bodies := s.bodies[w.hash := reply.data],
                   calls := s.calls[call := Done(w.op, w.path, w.tree, Cut(w.op, reply.data), reply.data, true)])
         else t == s.(calls := s.calls[call := Done(w.op, w.path, w.tree, Err(Provider), [], false)])
    case Evict(hash) => t == s.(bodies := s.bodies - {hash})
  }

  ghost predicate Run(sha: Bytes -> Hash256, states: seq<State>, events: seq<Event>) {
    && |states| == |events| + 1
    && states[0] == State(None, map[], map[])
    && forall i :: 0 <= i < |events| ==> Next(sha, states[i], events[i], states[i + 1])
  }

  /** What the path, taken alone, answers out of bodies that have the digest they are filed under. */
  ghost predicate Sourced(
    sha: Bytes -> Hash256, tree: CachedTree, supply: Supply, op: Op, path: VfsPath, result: VfsResult<Bytes>)
  {
    Verified(sha, supply.bodies) && ReadsAs(sha, tree, supply, op, path, result)
  }

  ghost predicate Answered(sha: Bytes -> Hash256, call: Call) {
    match call
    case Waiting(op, path, tree, hash, size) => NeedsBody(op, size) && Address(tree, op, path) == Ok((hash, size))
    case Done(op, path, tree, result, body, fetched) =>
      && (result.Ok? ==> Genuine(sha, tree, op, path, result.value, body))
      && (exists supply :: Sourced(sha, tree, supply, op, path, result))
      && (fetched ==> Address(tree, op, path).Ok? && |body| == Address(tree, op, path).value.1)
  }

  ghost predicate Inv(sha: Bytes -> Hash256, s: State) {
    Verified(sha, s.bodies) && forall call :: call in s.calls ==> Answered(sha, s.calls[call])
  }

  lemma OutcomeIsSourced(
    sha: Bytes -> Hash256, tree: CachedTree, bodies: map<Hash256, Bytes>, op: Op, path: VfsPath, reply: BlobReply)
    requires Verified(sha, bodies)
    ensures exists supply :: Sourced(sha, tree, supply, op, path, Outcome(sha, Some(tree), bodies, op, path, reply))
  {
    OutcomeReadsAs(sha, tree, bodies, op, path, reply);
    assert Sourced(sha, tree, Supply(bodies, reply), op, path, Outcome(sha, Some(tree), bodies, op, path, reply));
  }

  lemma StartedIsAnswered(sha: Bytes -> Hash256, tree: CachedTree, op: Op, path: VfsPath)
    ensures Answered(sha, Started(tree, op, path))
  {
    OutcomeIsSourced(sha, tree, map[], op, path, NoReply);
  }

  lemma HitIsAnswered(sha: Bytes -> Hash256, bodies: map<Hash256, Bytes>, w: Call)
    requires w.Waiting? && Answered(sha, w) && w.hash in bodies && Verified(sha, bodies)
    ensures Answered(sha, Done(w.op, w.path, w.tree, Cut(w.op, bodies[w.hash]), bodies[w.hash], false))
  {
    OutcomeIsSourced(sha, w.tree, bodies, w.op, w.path, NoReply);
  }

  lemma ReplyIsAnswered(sha: Bytes -> Hash256, w: Call, reply: BlobReply)
    requires w.Waiting? && Answered(sha, w)
    ensures Answered(sha, if Verifies(sha, w.hash, w.size, reply)
                          then Done(w.op, w.path, w.tree, Cut(w.op, reply.data), reply.data, true)
                          else Done(w.op, w.path, w.tree, Err(Provider), [], false))
  {
    OutcomeIsSourced(sha, w.tree, map[], w.op, w.path, reply);
  }

  lemma NextKeepsInv(sha: Bytes -> Hash256, s: State, e: Event, t: State)
    requires Inv(sha, s) && Next(sha, s, e, t)
    ensures Inv(sha, t)
  {
    if e.Begin? { StartedIsAnswered(sha, s.tree.value, e.op, e.path); }
    if e.Hit? { HitIsAnswered(sha, s.bodies, s.calls[e.call]); }
    if e.Reply? { ReplyIsAnswered(sha, s.calls[e.call], e.reply); }
    forall call | call in t.calls ensures Answered(sha, t.calls[call]) {
      if call in s.calls { assert Answered(sha, s.calls[call]); }
    }
  }

  /**
   In every interleaving of reads with refreshes, replies and evictions, a cached body has the digest it
   is filed under, and every byte returned comes from a body whose digest is the one the snapshot the call
   consulted holds for the path; a freshly fetched body also has the advertised size. Every answer, error or not,
   is what that snapshot answers the operation for that kind of path.
   */
  lemma {:induction false} EveryByteIsVerified(sha: Bytes -> Hash256, states: seq<State>, events: seq<Event>, i: nat)
    requires Run(sha, states, events) && i < |states|
    ensures Inv(sha, states[i])
  {
    if i > 0 {
      EveryByteIsVerified(sha, states, events, i - 1);
      assert Next(sha, states[i - 1], events[i - 1], states[i - 1 + 1]);
      NextKeepsInv(sha, states[i - 1], events[i - 1], states[i]);
    }
  }

  /** ... and that snapshot was the installed one at some earlier instant of the run. */
  lemma {:induction false} ConsultedWasInstalled(
    sha: Bytes -> Hash256, states: seq<State>, events: seq<Event>, i: nat, call: nat)
    requires Run(sha, states, events) && i < |states| && call in states[i].calls
    ensures exists j :: 0 <= j <= i && states[j].tree == Some(states[i].calls[call].tree)
  {
    assert i > 0;
    assert Next(sha, states[i - 1], events[i - 1], states[i - 1 + 1]);
    if call in states[i - 1].calls {
      ConsultedWasInstalled(sha, states, events, i - 1, call);
      var j :| 0 <= j <= i - 1 && states[j].tree == Some(states[i - 1].calls[call].tree);
      assert states[i].calls[call].tree == states[i - 1].calls[call].tree;
    } else {
      assert states[i - 1].tree == Some(states[i].calls[call].tree);
    }
  }

  /// A body longer than advertised

  function FileOf(hash: Hash256, size: u64): TreeArtifact {
    TreeArtifact(seq(16, _ => 0), Blob(hash, false), size, 0)
  }

  /** Two files of one content, `a` with its size and `b` advertised as empty. */
  function TwoSizes(sha: Bytes -> Hash256): WireSnapshot {
    WireSnapshot(
      Some([97]), Binding([], [], 0, 0, []),
      [WireArtifact([97], FileOf(sha([1]), 1)), WireArtifact([98], FileOf(sha([1]), 0))])
  }

  lemma TwoSizesIsAcceptable(sha: Bytes -> Hash256)
    ensures ValidPath([97]) && ValidPath([98])
    ensures Presentable(Some(IfNoneMatchValue([97])), Some(TwoSizes(sha)), true)
  {
    NameIsPath([97]);
    NameIsPath([98]);
    EtagRoundTrip(IfNoneMatchValue([97]), [97]);
  }

  lemma TwoSizesTree(sha: Bytes -> Hash256, tree: CachedTree)
    requires IsTreeOf(tree, sha, TwoSizes(sha))
    ensures ValidPath([97]) && ValidPath([98])
    ensures [97] in tree.byPath && tree.byPath[[97]] == FileOf(sha([1]), 1)
    ensures [98] in tree.byPath && tree.byPath[[98]] == FileOf(sha([1]), 0)
  {
    NameIsPath([97]);
    NameIsPath([98]);
    var artifacts := TwoSizes(sha).artifacts;
    assert Holds(tree.byPath, artifacts[0]) && Holds(tree.byPath, artifacts[1]);
  }

  predicate HoldsTwoSizes(sha: Bytes -> Hash256, tree: Option<CachedTree>, a: VfsPath, b: VfsPath) {
    && tree.Some?
    && a in tree.value.byPath && tree.value.byPath[a] == FileOf(sha([1]), 1)
    && b in tree.value.byPath && tree.value.byPath[b] == FileOf(sha([1]), 0)
  }

  method InstallTwoSizes(sha: Bytes -> Hash256) returns (provider: KinDaemonProvider, a: VfsPath, b: VfsPath)
    ensures fresh(provider) && provider.Valid() && provider.sha == sha && provider.contentCache.entries == map[]
    ensures HoldsTwoSizes(sha, provider.tree, a, b)
  {
    TwoSizesIsAcceptable(sha);
    a, b := [97], [98];
    provider := new KinDaemonProvider(sha);
    var c := Completion(None, Document(Some(IfNoneMatchValue([97])), Some(TwoSizes(sha)), true));
    var installed := provider.EnsureTree(c);
    assert provider.tree.Some? && IsTreeOf(provider.tree.value, sha, TwoSizes(sha));
    TwoSizesTree(sha, provider.tree.value);
  }

  /**
   A provider that installs that snapshot and reads `a`, which is fetched and verified, answers for `b` the
   cached byte to a read and nothing to a range.
   */
  method ShortSizeEmptiesTheRange(sha: Bytes -> Hash256)
    returns (first: VfsResult<Bytes>, file: VfsResult<Bytes>, range: VfsResult<Bytes>)
    ensures first == Ok([1]) && file == Ok([1]) && range == Ok([])
  {
    var provider, a, b := InstallTwoSizes(sha);
    first := provider.ReadInstalled(ReadFile, a, Body([1]));
    file := provider.ReadInstalled(ReadFile, b, NoReply);
    range := provider.ReadInstalled(ReadRange(0, 1), b, NoReply);
  }
}
