/**
 The version-scoped read cache (tree.rs, cache.rs): its class, and every interleaving of readers with
 version bumps, evictions, late inserts and invalidations.
 */
module ReadCache {
  import opened Wrappers
  import opened ByteStrings
  import opened ByteRanges
  import opened VfsPaths
  import opened TreeLookup
  import opened Lru
  import opened TreeContract
  import opened Membership
  import opened Succession
  import DaemonProvider

  datatype CachedEntry = Stat(stat: VirtualStat) | Content(stat: VirtualStat, data: Bytes)

  datatype VersionedEntry = VersionedEntry(providerVersion: u64, value: CachedEntry)

  type Entries = LruCache<VfsPath, VersionedEntry>

  /** The answer of `get` and what it leaves: an entry of another version is dropped, never answered. */
  function Lookup(entries: Entries, path: VfsPath, version: u64): (r: (Entries, Option<CachedEntry>))
    requires entries.Valid()
    ensures r.0.Valid()
    ensures r.1.Some? ==> path in entries.entries && entries.entries[path] == VersionedEntry(version, r.1.value)
    ensures r.1.None? ==> path !in entries.entries || entries.entries[path].providerVersion != version
    ensures r.0.entries == if r.1.None? then entries.entries - {path} else entries.entries
  {
    var (touched, found) := entries.Get(path);
    match found
    case Some(entry) =>
      if entry.providerVersion == version then (touched, Some(entry.value)) else (touched.Pop(path), None)
    case None =>
      assert entries.entries - {path} == entries.entries;
      (touched, None)
  }

  /** The cache without any entry for `paths`. */
  function Popped(entries: Entries, paths: seq<VfsPath>): (r: Entries)
    requires entries.Valid()
    ensures r.Valid() && r.capacity == entries.capacity
    ensures r.entries == entries.entries - (set p | p in paths)
    decreases |paths|
  {
    if paths == [] then
      assert entries.entries - {} == entries.entries;
      entries
    else
      assert (set p | p in paths) == {paths[0]} + (set p | p in paths[1..]);
      Popped(entries.Pop(paths[0]), paths[1..])
  }

  class VfsCache {
    var entries: Entries

    ghost predicate Valid()
      reads this
    {
      entries.Valid()
    }

    constructor (capacity: nat)
      ensures Valid() && entries == Empty(if capacity == 0 then 1 else capacity)
    {
      entries := Empty(if capacity == 0 then 1 else capacity);
    }

    method Get(path: VfsPath, providerVersion: u64) returns (r: Option<CachedEntry>)
      requires Valid()
      modifies this
      ensures Valid() && (entries, r) == Lookup(old(entries), path, providerVersion)
    {
      var (touched, found) := entries.Get(path);
      entries := touched;
      if found.Some? && found.value.providerVersion == providerVersion {
        return Some(found.value.value);
      }
      if found.Some? {
        entries := entries.Pop(path);
      }
      return None;
    }

    method Put(path: VfsPath, providerVersion: u64, value: CachedEntry)
      requires Valid()
      modifies this
      ensures Valid() && entries == old(entries).Put(path, VersionedEntry(providerVersion, value))
    {
      entries := entries.Put(path, VersionedEntry(providerVersion, value));
    }

    method Invalidate(paths: seq<VfsPath>)
      requires Valid()
      modifies this
      ensures Valid() && entries == Popped(old(entries), paths)
    {
      var i := 0;
      while i < |paths|
        invariant 0 <= i <= |paths| && Valid()
        invariant Popped(old(entries), paths) == Popped(entries, paths[i..])
      {
        entries := entries.Pop(paths[i]);
        assert paths[i..][1..] == paths[i + 1..];
        i := i + 1;
      }
    }

    method InvalidateAll()
      requires Valid()
      modifies this
      ensures Valid() && entries == Empty(old(entries.capacity))
    {
      entries := Empty(entries.capacity);
    }
  }

  /// The provider over time

  /** What a provider answers at one instant; `history` is its state at each instant in turn. */
  datatype Source<!P> = Source(
    version: P -> u64,
    stat: (P, VfsPath) -> VfsResult<VirtualStat>,
    read: (P, VfsPath) -> VfsResult<Bytes>,
    range: (P, VfsPath, u64, u64) -> VfsResult<Bytes>)

  datatype Kind = StatCall | ReadCall | RangeCall(offset: u64, len: u64)

  datatype Answer = Metadata(stat: VirtualStat) | Contents(bytes: Bytes)

  /** The provider's successful answer at one instant. */
  predicate Gives<P>(source: Source<P>, at: P, path: VfsPath, kind: Kind, answer: Answer) {
    match kind
    case StatCall => answer.Metadata? && source.stat(at, path) == Ok(answer.stat)
    case ReadCall => answer.Contents? && source.read(at, path) == Ok(answer.bytes)
    case RangeCall(offset, len) => answer.Contents? && source.range(at, path, offset, len) == Ok(answer.bytes)
  }

  /** Metadata and bodies are a function of a version that never falls. */
  ghost predicate Steady<P>(source: Source<P>, history: seq<P>) {
    forall i, j :: 0 <= i <= j < |history| ==>
      && source.version(history[i]) <= source.version(history[j])
      && (source.version(history[i]) == source.version(history[j]) ==> SameAnswers(source, history[i], history[j]))
  }

  ghost predicate SameAnswers<P>(source: Source<P>, a: P, b: P) {
    forall path :: (source.stat(a, path).Ok? ==> source.stat(b, path) == source.stat(a, path)) &&
                   (source.read(a, path).Ok? ==> source.read(b, path) == source.read(a, path))
  }

  /** At every instant a range is cut from what a read would give. */
  ghost predicate Cutting<P>(source: Source<P>, history: seq<P>) {
    forall i :: 0 <= i < |history| ==> CutsRanges(source, history[i])
  }

  /** Where a read succeeds, so does every range, with that part of it; a range may succeed where a read fails. */
  ghost predicate CutsRanges<P>(source: Source<P>, at: P) {
    forall path, offset: u64, len: u64 :: source.read(at, path).Ok? ==>
      source.range(at, path, offset, len) == Ok(Range(source.read(at, path).value, offset, len))
  }

  /// Readers, step by step

  datatype Phase =
    | Began
    | Versioned(version: u64, at: nat)
    | Missed(version: u64, at: nat)
    | Fetched(version: u64, at: nat, data: Bytes)
    | Filled(version: u64, at: nat, value: CachedEntry)
    | Done(answer: Answer, until: nat)
    | Failed
    | Panicked

  datatype Call = Call(kind: Kind, path: VfsPath, since: nat, phase: Phase)

  datatype State = State(now: nat, cache: Entries, calls: map<nat, Call>)

  datatype Event =
    | Tick
    | Begin(id: nat, kind: Kind, path: VfsPath)
    | ReadVersion(id: nat)
    | Consult(id: nat)
    | Ask(id: nat)
    | Insert(id: nat)
    | Fail(id: nat)
    | InvalidatePaths(paths: seq<VfsPath>)
    | InvalidateEverything

  /** What a call does with an entry of its version: answer, or go on to the provider. */
  function Hit(call: Call, entry: CachedEntry, now: nat): Phase
    requires call.phase.Versioned?
  {
    match call.kind
    case StatCall => Done(Metadata(entry.stat), now)
    case ReadCall => if entry.Content? then Done(Contents(entry.data), now) else Missed(call.phase.version, call.phase.at)
    case RangeCall(offset, len) =>
      if entry.Content? then
        match SliceCached(entry.data, offset, len)
        case Some(bytes) => Done(Contents(bytes), now)
        case None => Panicked
      else Missed(call.phase.version, call.phase.at)
  }

  /** What one call does next when it asks the provider at `at`; an error ends it. */
  function Asked<P>(source: Source<P>, at: P, now: nat, call: Call): Phase
    requires call.phase.Missed? || call.phase.Fetched?
  {
    var version, since := call.phase.version, call.phase.at;
    if call.phase.Fetched? then
      match source.stat(at, call.path)
      case Ok(stat) => Filled(version, since, Content(stat, call.phase.data))
      case Err(_) => Failed
    else match call.kind
      case StatCall =>
        (match source.stat(at, call.path) case Ok(stat) => Filled(version, since, Stat(stat)) case Err(_) => Failed)
      case ReadCall =>
        (match source.read(at, call.path) case Ok(data) => Fetched(version, since, data) case Err(_) => Failed)
      case RangeCall(offset, len) =>
        (match source.range(at, call.path, offset, len) case Ok(bytes) => Done(Contents(bytes), now) case Err(_) => Failed)
  }

  function Inserted(value: CachedEntry, now: nat): Phase {
    Done(if value.Stat? then Metadata(value.stat) else Contents(value.data), now)
  }

  predicate Enabled<P>(history: seq<P>, s: State, e: Event) {
    match e
    case Tick => s.now + 1 < |history|
    case Begin(id, _, _) => id !in s.calls
    case ReadVersion(id) => id in s.calls && s.calls[id].phase.Began?
    case Consult(id) => id in s.calls && s.calls[id].phase.Versioned?
    case Ask(id) => id in s.calls && (s.calls[id].phase.Missed? || s.calls[id].phase.Fetched?)
    case Insert(id) => id in s.calls && s.calls[id].phase.Filled?
    case Fail(id) => id in s.calls && !s.calls[id].phase.Done?
    case InvalidatePaths(_) => true
    case InvalidateEverything => true
  }

  function SetPhase(s: State, id: nat, phase: Phase): State
    requires id in s.calls
  {
    s.(calls := s.calls[id := s.calls[id].(phase := phase)])
  }

  function Apply<P>(source: Source<P>, history: seq<P>, s: State, e: Event): State
    requires s.cache.Valid() && s.now < |history| && Enabled(history, s, e)
  {
    match e
    case Tick => s.(now := s.now + 1)
    case Begin(id, kind, path) => s.(calls := s.calls[id := Call(kind, path, s.now, Began)])
    case ReadVersion(id) => SetPhase(s, id, Versioned(source.version(history[s.now]), s.now))
    case Consult(id) =>
      var call := s.calls[id];
      var (cache, entry) := Lookup(s.cache, call.path, call.phase.version);
      SetPhase(s.(cache := cache), id,
        if entry.Some? then Hit(call, entry.value, s.now) else Missed(call.phase.version, call.phase.at))
    case Ask(id) => SetPhase(s, id, Asked(source, history[s.now], s.now, s.calls[id]))
    case Insert(id) =>
      var call := s.calls[id];
      SetPhase(s.(cache := s.cache.Put(call.path, VersionedEntry(call.phase.version, call.phase.value))), id,
        Inserted(call.phase.value, s.now))
    case Fail(id) => SetPhase(s, id, Failed)
    case InvalidatePaths(paths) => s.(cache := Popped(s.cache, paths))
    case InvalidateEverything => s.(cache := Empty(s.cache.capacity))
  }

  function Exec<P>(source: Source<P>, history: seq<P>, s: State, events: seq<Event>): Option<State>
    requires s.cache.Valid() && s.now < |history|
    decreases |events|
  {
    if events == [] then Some(s)
    else if Enabled(history, s, events[0]) then
      Exec(source, history, Apply(source, history, s, events[0]), events[1..])
    else None
  }

  function Init(capacity: nat): State {
    State(0, Empty(if capacity == 0 then 1 else capacity), map[])
  }

  /// What every step keeps

  /** The provider gave this answer at some instant between `from` and `until`. */
  ghost predicate GivenBetween<P>(
    source: Source<P>, history: seq<P>, from: nat, until: nat, path: VfsPath, kind: Kind, answer: Answer)
  {
    exists i :: from <= i <= until && i < |history| && Gives(source, history[i], path, kind, answer)
  }

  /** The provider gave this answer by now, at some version no older than `version`. */
  ghost predicate GivenSince<P>(
    source: Source<P>, history: seq<P>, now: nat, version: u64, path: VfsPath, kind: Kind, answer: Answer)
  {
    exists i :: 0 <= i <= now && i < |history| && version <= source.version(history[i]) &&
                Gives(source, history[i], path, kind, answer)
  }

  /** The answer to a range request is cut from what the provider's read gave at some instant between. */
  ghost predicate CutBetween<P>(
    source: Source<P>, history: seq<P>, from: nat, until: nat, path: VfsPath, kind: Kind, answer: Answer)
  {
    kind.RangeCall? && answer.Contents? &&
    exists i :: from <= i <= until && i < |history| && CutAt(source, history[i], path, kind, answer.bytes)
  }

  predicate CutAt<P>(source: Source<P>, at: P, path: VfsPath, kind: Kind, bytes: Bytes)
    requires kind.RangeCall?
  {
    source.read(at, path).Ok? && bytes == Range(source.read(at, path).value, kind.offset, kind.len)
  }

  ghost predicate EntryGiven<P>(source: Source<P>, history: seq<P>, now: nat, path: VfsPath, e: VersionedEntry) {
    && GivenSince(source, history, now, e.providerVersion, path, StatCall, Metadata(e.value.stat))
    && (e.value.Content? ==>
          GivenSince(source, history, now, e.providerVersion, path, ReadCall, Contents(e.value.data)))
  }

  ghost predicate CallGiven<P>(source: Source<P>, history: seq<P>, now: nat, c: Call) {
    c.since <= now &&
    match c.phase
    case Versioned(version, at) => c.since <= at <= now < |history| && source.version(history[at]) == version
    case Missed(version, at) => c.since <= at <= now < |history| && source.version(history[at]) == version
    case Fetched(version, at, data) =>
      && c.kind.ReadCall? && c.since <= at <= now < |history| && source.version(history[at]) == version
      && GivenBetween(source, history, at, now, c.path, ReadCall, Contents(data))
    case Filled(version, at, value) =>
      && c.since <= at <= now < |history| && source.version(history[at]) == version
      && (c.kind == if value.Stat? then StatCall else ReadCall)
      && GivenBetween(source, history, at, now, c.path, StatCall, Metadata(value.stat))
      && (value.Content? ==> GivenBetween(source, history, at, now, c.path, ReadCall, Contents(value.data)))
    case Done(answer, until) =>
      && until <= now
      && (GivenBetween(source, history, c.since, until, c.path, c.kind, answer) ||
          CutBetween(source, history, c.since, until, c.path, c.kind, answer))
    case _ => true
  }

  ghost predicate Inv<P>(source: Source<P>, history: seq<P>, s: State) {
    && s.cache.Valid() && s.now < |history|
    && (forall p :: p in s.cache.entries ==> EntryGiven(source, history, s.now, p, s.cache.entries[p]))
    && (forall id :: id in s.calls ==> CallGiven(source, history, s.now, s.calls[id]))
  }

  /** An entry of the version read at `at` was given at `at` or later. */
  lemma HitIsFresh<P(!new)>(
    source: Source<P>, history: seq<P>, at: nat, now: nat, path: VfsPath, kind: Kind, answer: Answer)
    requires Steady(source, history) && at <= now < |history| && !kind.RangeCall?
    requires GivenSince(source, history, now, source.version(history[at]), path, kind, answer)
    ensures GivenBetween(source, history, at, now, path, kind, answer)
  {
    var i :| 0 <= i <= now && i < |history| && source.version(history[at]) <= source.version(history[i]) &&
             Gives(source, history[i], path, kind, answer);
    if i < at {
      assert SameAnswers(source, history[i], history[at]);
      assert Gives(source, history[at], path, kind, answer);
    }
  }

  /** What was given at `at` or later carries a version no older than the one read at `at`. */
  lemma FilledIsGiven<P(!new)>(
    source: Source<P>, history: seq<P>, at: nat, now: nat, path: VfsPath, kind: Kind, answer: Answer)
    requires Steady(source, history) && at <= now < |history|
    requires GivenBetween(source, history, at, now, path, kind, answer)
    ensures GivenSince(source, history, now, source.version(history[at]), path, kind, answer)
  {
    var i :| at <= i <= now && i < |history| && Gives(source, history[i], path, kind, answer);
    assert source.version(history[at]) <= source.version(history[i]);
  }

  /** Time passing takes nothing back. */
  lemma Later<P>(source: Source<P>, history: seq<P>, now: nat, later: nat, c: Call)
    requires now <= later < |history| && CallGiven(source, history, now, c)
    ensures CallGiven(source, history, later, c)
  {
    match c.phase
    case Fetched(_, at, data) =>
      assert GivenBetween(source, history, at, later, c.path, ReadCall, Contents(data));
    case Filled(_, at, value) =>
      assert GivenBetween(source, history, at, later, c.path, StatCall, Metadata(value.stat));
      if value.Content? { assert GivenBetween(source, history, at, later, c.path, ReadCall, Contents(value.data)); }
    case _ =>
  }

  /** Where the provider gave a body, every range of it is cut from it ... */
  lemma RangeIsCut<P>(
    source: Source<P>, history: seq<P>, from: nat, until: nat, path: VfsPath, data: Bytes, offset: u64, len: u64)
    requires GivenBetween(source, history, from, until, path, ReadCall, Contents(data))
    ensures CutBetween(source, history, from, until, path, RangeCall(offset, len), Contents(Range(data, offset, len)))
  {
    var i :| from <= i <= until && i < |history| && Gives(source, history[i], path, ReadCall, Contents(data));
    assert CutAt(source, history[i], path, RangeCall(offset, len), Range(data, offset, len));
  }

  /** ... and is the provider's own answer, if its ranges are cuts. */
  lemma CutIsGiven<P>(
    source: Source<P>, history: seq<P>, from: nat, until: nat, path: VfsPath, kind: Kind, answer: Answer)
    requires Cutting(source, history) && CutBetween(source, history, from, until, path, kind, answer)
    ensures GivenBetween(source, history, from, until, path, kind, answer)
  {
    var i :| from <= i <= until && i < |history| && CutAt(source, history[i], path, kind, answer.bytes);
    assert CutsRanges(source, history[i]);
    assert Gives(source, history[i], path, kind, answer);
  }

  lemma HitIsGiven<P(!new)>(source: Source<P>, history: seq<P>, now: nat, c: Call, value: CachedEntry)
    requires Steady(source, history) && CallGiven(source, history, now, c) && c.phase.Versioned?
    requires EntryGiven(source, history, now, c.path, VersionedEntry(c.phase.version, value))
    ensures CallGiven(source, history, now, c.(phase := Hit(c, value, now)))
  {
    var at := c.phase.at;
    if c.kind.StatCall? {
      HitIsFresh(source, history, at, now, c.path, StatCall, Metadata(value.stat));
    } else if value.Content? {
      HitIsFresh(source, history, at, now, c.path, ReadCall, Contents(value.data));
      if c.kind.RangeCall? {
        CachedSliceIsRange(value.data, c.kind.offset, c.kind.len);
        RangeIsCut(source, history, at, now, c.path, value.data, c.kind.offset, c.kind.len);
      }
    }
  }

  lemma AskedIsGiven<P>(source: Source<P>, history: seq<P>, now: nat, c: Call)
    requires CallGiven(source, history, now, c) && (c.phase.Missed? || c.phase.Fetched?)
    ensures CallGiven(source, history, now, c.(phase := Asked(source, history[now], now, c)))
  {
    var stat, data := source.stat(history[now], c.path), source.read(history[now], c.path);
    assert stat.Ok? ==> Gives(source, history[now], c.path, StatCall, Metadata(stat.value));
    assert data.Ok? ==> Gives(source, history[now], c.path, ReadCall, Contents(data.value));
    if c.kind.RangeCall? {
      var range := source.range(history[now], c.path, c.kind.offset, c.kind.len);
      assert range.Ok? ==> Gives(source, history[now], c.path, c.kind, Contents(range.value));
    }
  }

  lemma InsertedIsGiven<P(!new)>(source: Source<P>, history: seq<P>, now: nat, c: Call)
    requires Steady(source, history) && CallGiven(source, history, now, c) && c.phase.Filled?
    ensures EntryGiven(source, history, now, c.path, VersionedEntry(c.phase.version, c.phase.value))
  {
    FilledIsGiven(source, history, c.phase.at, now, c.path, StatCall, Metadata(c.phase.value.stat));
    if c.phase.value.Content? {
      FilledIsGiven(source, history, c.phase.at, now, c.path, ReadCall, Contents(c.phase.value.data));
    }
  }

  lemma EntriesLater<P>(source: Source<P>, history: seq<P>, s: State, later: nat)
    requires Inv(source, history, s) && s.now <= later < |history|
    ensures Inv(source, history, s.(now := later))
  {
    forall p | p in s.cache.entries ensures EntryGiven(source, history, later, p, s.cache.entries[p]) {
      assert EntryGiven(source, history, s.now, p, s.cache.entries[p]);
    }
    forall id | id in s.calls ensures CallGiven(source, history, later, s.calls[id]) {
      Later(source, history, s.now, later, s.calls[id]);
    }
  }

  ghost predicate CacheGiven<P>(source: Source<P>, history: seq<P>, now: nat, cache: Entries) {
    cache.Valid() && forall p :: p in cache.entries ==> EntryGiven(source, history, now, p, cache.entries[p])
  }

  lemma OneCall<P>(source: Source<P>, history: seq<P>, s: State, cache: Entries, id: nat, phase: Phase)
    requires Inv(source, history, s) && id in s.calls && CacheGiven(source, history, s.now, cache)
    requires CallGiven(source, history, s.now, s.calls[id].(phase := phase))
    ensures Inv(source, history, SetPhase(s.(cache := cache), id, phase))
  {
  }

  lemma KeepsConsult<P(!new)>(source: Source<P>, history: seq<P>, s: State, id: nat)
    requires Steady(source, history) && Inv(source, history, s) && Enabled(history, s, Consult(id))
    ensures Inv(source, history, Apply(source, history, s, Consult(id)))
  {
    var c := s.calls[id];
    var (cache, entry) := Lookup(s.cache, c.path, c.phase.version);
    assert CallGiven(source, history, s.now, c);
    assert CacheGiven(source, history, s.now, cache);
    if entry.Some? {
      HitIsGiven(source, history, s.now, c, entry.value);
      OneCall(source, history, s, cache, id, Hit(c, entry.value, s.now));
    } else {
      OneCall(source, history, s, cache, id, Missed(c.phase.version, c.phase.at));
    }
  }

  lemma KeepsAsk<P>(source: Source<P>, history: seq<P>, s: State, id: nat)
    requires Inv(source, history, s) && Enabled(history, s, Ask(id))
    ensures Inv(source, history, Apply(source, history, s, Ask(id)))
  {
    AskedIsGiven(source, history, s.now, s.calls[id]);
    OneCall(source, history, s, s.cache, id, Asked(source, history[s.now], s.now, s.calls[id]));
  }

  lemma KeepsInsert<P(!new)>(source: Source<P>, history: seq<P>, s: State, id: nat)
    requires Steady(source, history) && Inv(source, history, s) && Enabled(history, s, Insert(id))
    ensures Inv(source, history, Apply(source, history, s, Insert(id)))
  {
    var c := s.calls[id];
    assert CallGiven(source, history, s.now, c);
    InsertedIsGiven(source, history, s.now, c);
    var cache := s.cache.Put(c.path, VersionedEntry(c.phase.version, c.phase.value));
    forall p | p in cache.entries ensures EntryGiven(source, history, s.now, p, cache.entries[p]) {
      if p != c.path { assert p in s.cache.entries && s.cache.entries[p] == cache.entries[p]; }
    }
    OneCall(source, history, s, cache, id, Inserted(c.phase.value, s.now));
  }

  lemma KeepsCache<P>(source: Source<P>, history: seq<P>, s: State, cache: Entries)
    requires Inv(source, history, s) && cache.Valid()
    requires forall p :: p in cache.entries ==> p in s.cache.entries && cache.entries[p] == s.cache.entries[p]
    ensures Inv(source, history, s.(cache := cache))
  {
  }

  /** Steps that put nothing of the cache into an answer and nothing of an answer into the cache. */
  lemma KeepsElse<P>(source: Source<P>, history: seq<P>, s: State, e: Event)
    requires Inv(source, history, s) && Enabled(history, s, e) && !e.Consult? && !e.Insert?
    ensures Inv(source, history, Apply(source, history, s, e))
  {
    match e
    case Tick => EntriesLater(source, history, s, s.now + 1);
    case Begin(_, _, _) =>
    case ReadVersion(id) =>
      assert CallGiven(source, history, s.now, s.calls[id]);
      OneCall(source, history, s, s.cache, id, Versioned(source.version(history[s.now]), s.now));
    case Ask(id) => KeepsAsk(source, history, s, id);
    case Fail(id) =>
      assert CallGiven(source, history, s.now, s.calls[id]);
      OneCall(source, history, s, s.cache, id, Failed);
    case InvalidatePaths(paths) => KeepsCache(source, history, s, Popped(s.cache, paths));
    case InvalidateEverything => KeepsCache(source, history, s, Empty(s.cache.capacity));
  }

  lemma KeepsInv<P(!new)>(source: Source<P>, history: seq<P>, s: State, e: Event)
    requires Steady(source, history) && Inv(source, history, s) && Enabled(history, s, e)
    ensures Inv(source, history, Apply(source, history, s, e))
  {
    match e
    case Consult(id) => KeepsConsult(source, history, s, id);
    case Insert(id) => KeepsInsert(source, history, s, id);
    case _ => KeepsElse(source, history, s, e);
  }

  lemma {:induction false} RunKeepsInv<P(!new)>(source: Source<P>, history: seq<P>, s: State, events: seq<Event>)
    requires Steady(source, history) && Inv(source, history, s) && Exec(source, history, s, events).Some?
    ensures Inv(source, history, Exec(source, history, s, events).value)
    decreases |events|
  {
    if events != [] {
      KeepsInv(source, history, s, events[0]);
      RunKeepsInv(source, history, Apply(source, history, s, events[0]), events[1..]);
    }
  }

  /**
   In every interleaving, each answer a stat or read completes with is the provider's own answer at some
   instant between the call's start and its end. A range is that too, or cut from what a read gave at such an
   instant; where the provider's ranges are cuts, that is the same. Only a cached range whose end wraps at
   2^64 gives no answer.
   */
  lemma EveryAnswerIsTheProviders<P(!new)>(
    source: Source<P>, history: seq<P>, capacity: nat, events: seq<Event>, id: nat)
    requires Steady(source, history) && history != [] && Exec(source, history, Init(capacity), events).Some?
    requires id in Exec(source, history, Init(capacity), events).value.calls
    ensures var c := Exec(source, history, Init(capacity), events).value.calls[id];
            c.phase.Done? ==>
              var given := GivenBetween(source, history, c.since, c.phase.until, c.path, c.kind, c.phase.answer);
              && c.since <= c.phase.until
              && (!c.kind.RangeCall? || Cutting(source, history) ==> given)
              && (given || CutBetween(source, history, c.since, c.phase.until, c.path, c.kind, c.phase.answer))
  {
    RunKeepsInv(source, history, Init(capacity), events);
    var c := Exec(source, history, Init(capacity), events).value.calls[id];
    assert CallGiven(source, history, Exec(source, history, Init(capacity), events).value.now, c);
    if c.phase.Done? && Cutting(source, history)
       && CutBetween(source, history, c.since, c.phase.until, c.path, c.kind, c.phase.answer) {
      CutIsGiven(source, history, c.since, c.phase.until, c.path, c.kind, c.phase.answer);
    }
  }

  /// Every call can complete

  lemma ExecCons<P>(source: Source<P>, history: seq<P>, s: State, e: Event, rest: seq<Event>)
    requires s.cache.Valid() && s.now < |history| && Enabled(history, s, e)
    ensures Apply(source, history, s, e).cache.Valid() && Apply(source, history, s, e).now < |history|
    ensures Exec(source, history, s, [e] + rest) == Exec(source, history, Apply(source, history, s, e), rest)
  {
    assert ([e] + rest)[0] == e && ([e] + rest)[1..] == rest;
  }

  /** The provider answers the call now; a read is followed by a stat. */
  predicate Obliges<P>(source: Source<P>, at: P, path: VfsPath, kind: Kind) {
    match kind
    case StatCall => source.stat(at, path).Ok?
    case ReadCall => source.read(at, path).Ok? && source.stat(at, path).Ok?
    case RangeCall(offset, len) => source.range(at, path, offset, len).Ok?
  }

  function GivenNow<P>(source: Source<P>, at: P, path: VfsPath, kind: Kind): Answer
    requires Obliges(source, at, path, kind)
  {
    match kind
    case StatCall => Metadata(source.stat(at, path).value)
    case ReadCall => Contents(source.read(at, path).value)
    case RangeCall(offset, len) => Contents(source.range(at, path, offset, len).value)
  }

  /** A call up to the moment it has consulted the cache. */
  function Consulted<P>(source: Source<P>, history: seq<P>, s: State, kind: Kind, path: VfsPath): (Entries, Phase)
    requires s.cache.Valid() && s.now < |history|
  {
    var version := source.version(history[s.now]);
    var (cache, entry) := Lookup(s.cache, path, version);
    var call := Call(kind, path, s.now, Versioned(version, s.now));
    (cache, if entry.Some? then Hit(call, entry.value, s.now) else Missed(version, s.now))
  }

  /** The state with one more call, in this phase. */
  function WithCall(s: State, cache: Entries, id: nat, kind: Kind, path: VfsPath, phase: Phase): State {
    State(s.now, cache, s.calls[id := Call(kind, path, s.now, phase)])
  }

  ghost predicate Moves<P>(source: Source<P>, history: seq<P>, s: State, e: Event, t: State) {
    && s.cache.Valid() && s.now < |history| && t.cache.Valid() && t.now < |history|
    && Enabled(history, s, e) && Apply(source, history, s, e) == t
  }

  lemma ThreeMoves<P>(
    source: Source<P>, history: seq<P>, s: State, e1: Event, s1: State, e2: Event, s2: State, e3: Event, s3: State,
    rest: seq<Event>)
    requires Moves(source, history, s, e1, s1) && Moves(source, history, s1, e2, s2) && Moves(source, history, s2, e3, s3)
    ensures Exec(source, history, s, [e1] + ([e2] + ([e3] + rest))) == Exec(source, history, s3, rest)
  {
    ExecCons(source, history, s, e1, [e2] + ([e3] + rest));
    ExecCons(source, history, s1, e2, [e3] + rest);
    ExecCons(source, history, s2, e3, rest);
  }

  lemma ReadsVersion<P>(source: Source<P>, history: seq<P>, s: State, id: nat, kind: Kind, path: VfsPath)
    requires s.cache.Valid() && s.now < |history| && id !in s.calls
    ensures var s1 := WithCall(s, s.cache, id, kind, path, Began);
            && Moves(source, history, s, Begin(id, kind, path), s1)
            && Moves(source, history, s1, ReadVersion(id),
                     WithCall(s, s.cache, id, kind, path, Versioned(source.version(history[s.now]), s.now)))
  {
    var s1 := WithCall(s, s.cache, id, kind, path, Began);
    var next := Versioned(source.version(history[s.now]), s.now);
    assert s1.calls[id := s1.calls[id].(phase := next)] == s.calls[id := Call(kind, path, s.now, next)];
  }

  lemma ConsultsCache<P>(source: Source<P>, history: seq<P>, s: State, id: nat, kind: Kind, path: VfsPath)
    requires s.cache.Valid() && s.now < |history|
    ensures var (cache, phase) := Consulted(source, history, s, kind, path);
            Moves(source, history,
                  WithCall(s, s.cache, id, kind, path, Versioned(source.version(history[s.now]), s.now)), Consult(id),
                  WithCall(s, cache, id, kind, path, phase))
  {
    var s2 := WithCall(s, s.cache, id, kind, path, Versioned(source.version(history[s.now]), s.now));
    var (_, phase) := Consulted(source, history, s, kind, path);
    assert s2.calls[id := s2.calls[id].(phase := phase)] == s.calls[id := Call(kind, path, s.now, phase)];
  }

  lemma CallConsults<P>(
    source: Source<P>, history: seq<P>, s: State, id: nat, kind: Kind, path: VfsPath, rest: seq<Event>, s3: State)
    requires s.cache.Valid() && s.now < |history| && id !in s.calls
    requires s3 == WithCall(s, Consulted(source, history, s, kind, path).0, id, kind, path,
                            Consulted(source, history, s, kind, path).1)
    ensures s3.cache.Valid()
    ensures Exec(source, history, s, [Begin(id, kind, path)] + ([ReadVersion(id)] + ([Consult(id)] + rest))) ==
            Exec(source, history, s3, rest)
  {
    ReadsVersion(source, history, s, id, kind, path);
    ConsultsCache(source, history, s, id, kind, path);
    ThreeMoves(
      source, history, s, Begin(id, kind, path), WithCall(s, s.cache, id, kind, path, Began), ReadVersion(id),
      WithCall(s, s.cache, id, kind, path, Versioned(source.version(history[s.now]), s.now)), Consult(id), s3, rest);
  }

  /** What a call that missed still has to do. */
  function Remaining(kind: Kind, id: nat): seq<Event> {
    match kind
    case StatCall => [Ask(id)] + ([Insert(id)] + [])
    case ReadCall => [Ask(id)] + ([Ask(id)] + ([Insert(id)] + []))
    case RangeCall(_, _) => [Ask(id)] + []
  }

  lemma MissedCompletes<P>(source: Source<P>, history: seq<P>, s: State, id: nat)
    requires s.cache.Valid() && s.now < |history| && id in s.calls && s.calls[id].phase.Missed?
    requires Obliges(source, history[s.now], s.calls[id].path, s.calls[id].kind)
    ensures var done := Exec(source, history, s, Remaining(s.calls[id].kind, id));
            && done.Some? && id in done.value.calls
            && done.value.calls[id].phase ==
                 Done(GivenNow(source, history[s.now], s.calls[id].path, s.calls[id].kind), s.now)
  {
    match s.calls[id].kind
    case StatCall =>
      ExecCons(source, history, s, Ask(id), [Insert(id)] + []);
      ExecCons(source, history, Apply(source, history, s, Ask(id)), Insert(id), []);
    case ReadCall =>
      ExecCons(source, history, s, Ask(id), [Ask(id)] + ([Insert(id)] + []));
      var s1 := Apply(source, history, s, Ask(id));
      ExecCons(source, history, s1, Ask(id), [Insert(id)] + []);
      ExecCons(source, history, Apply(source, history, s1, Ask(id)), Insert(id), []);
    case RangeCall(_, _) =>
      ExecCons(source, history, s, Ask(id), []);
  }

  /**
   From every state, a new call of any kind that the provider answers now can run to its end; where the cache
   has nothing of this version it ends with what the provider answers, and where it has the body, with that.
   */
  lemma EveryCallCanComplete<P>(source: Source<P>, history: seq<P>, s: State, id: nat, kind: Kind, path: VfsPath)
      returns (events: seq<Event>, t: State)
    requires s.cache.Valid() && s.now < |history| && id !in s.calls && Obliges(source, history[s.now], path, kind)
    requires kind.RangeCall? ==> kind.offset + kind.len < U64_LIMIT
    ensures Exec(source, history, s, events) == Some(t) && id in t.calls && t.calls[id].phase.Done?
    ensures var version, cached := source.version(history[s.now]), s.cache.entries;
            && (path !in cached || cached[path].providerVersion != version ==>
                  t.calls[id].phase == Done(GivenNow(source, history[s.now], path, kind), s.now))
            && (path in cached && cached[path].providerVersion == version && cached[path].value.Content? ==>
                  t.calls[id].phase.answer ==
                  match kind
                  case StatCall => Metadata(cached[path].value.stat)
                  case ReadCall => Contents(cached[path].value.data)
                  case RangeCall(offset, len) => Contents(Range(cached[path].value.data, offset, len)))
  {
    var (cache, phase) := Consulted(source, history, s, kind, path);
    var s3 := WithCall(s, cache, id, kind, path, phase);
    var rest := if phase.Missed? then Remaining(kind, id) else [];
    events := [Begin(id, kind, path)] + ([ReadVersion(id)] + ([Consult(id)] + rest));
    CallConsults(source, history, s, id, kind, path, rest, s3);
    if kind.RangeCall? && path in s.cache.entries && s.cache.entries[path].value.Content? {
      CachedSliceIsRange(s.cache.entries[path].value.data, kind.offset, kind.len);
    }
    if phase.Missed? { MissedCompletes(source, history, s3, id); }
    t := Exec(source, history, s, events).value;
  }

  /** Time passes while there is history left, and an invalidation drops exactly what it names. */
  lemma WorldMovesOn<P>(source: Source<P>, history: seq<P>, s: State, paths: seq<VfsPath>)
    requires s.cache.Valid() && s.now < |history|
    ensures Exec(source, history, s, [Tick]) == if s.now < |history| - 1 then Some(s.(now := s.now + 1)) else None
    ensures var after := Exec(source, history, s, [InvalidatePaths(paths)]);
            && after.Some? && after.value == s.(cache := after.value.cache)
            && after.value.cache.entries == s.cache.entries - (set p | p in paths)
    ensures var after := Exec(source, history, s, [InvalidateEverything]);
            after.Some? && after.value == s.(cache := after.value.cache) && after.value.cache.entries == map[]
  {
    if s.now < |history| - 1 { ExecCons(source, history, s, Tick, []); }
    ExecCons(source, history, s, InvalidatePaths(paths), []);
    ExecCons(source, history, s, InvalidateEverything, []);
    assert [Tick] + [] == [Tick] && [InvalidatePaths(paths)] + [] == [InvalidatePaths(paths)];
    assert [InvalidateEverything] + [] == [InvalidateEverything];
  }

  /// One reader at a time

  /** `history` ends now, and everything cached was given by the provider in the course of it. */
  ghost predicate UpToDate<P(!new)>(source: Source<P>, history: seq<P>, snapshot: P, cache: Entries) {
    && Steady(source, history) && history != [] && snapshot == history[|history| - 1]
    && CacheGiven(source, history, |history| - 1, cache)
  }

  lemma CurrentEntry<P(!new)>(source: Source<P>, history: seq<P>, path: VfsPath, value: CachedEntry)
    requires Steady(source, history) && history != []
    requires var snapshot := history[|history| - 1];
             EntryGiven(source, history, |history| - 1, path, VersionedEntry(source.version(snapshot), value))
    ensures var snapshot := history[|history| - 1];
            && source.stat(snapshot, path) == Ok(value.stat)
            && (value.Content? ==> source.read(snapshot, path) == Ok(value.data))
  {
    var now := |history| - 1;
    HitIsFresh(source, history, now, now, path, StatCall, Metadata(value.stat));
    if value.Content? { HitIsFresh(source, history, now, now, path, ReadCall, Contents(value.data)); }
  }

  lemma HitIsCurrent<P(!new)>(source: Source<P>, history: seq<P>, snapshot: P, cache: Entries, path: VfsPath)
    requires UpToDate(source, history, snapshot, cache)
    ensures var hit := Lookup(cache, path, source.version(snapshot));
            && UpToDate(source, history, snapshot, hit.0)
            && (hit.1.Some? ==> source.stat(snapshot, path) == Ok(hit.1.value.stat))
            && (hit.1.Some? && hit.1.value.Content? ==> source.read(snapshot, path) == Ok(hit.1.value.data))
  {
    var hit := Lookup(cache, path, source.version(snapshot)).1;
    if hit.Some? { CurrentEntry(source, history, path, hit.value); }
  }

  lemma PutIsCurrent<P(!new)>(
    source: Source<P>, history: seq<P>, snapshot: P, cache: Entries, path: VfsPath, value: CachedEntry)
    requires UpToDate(source, history, snapshot, cache) && source.stat(snapshot, path) == Ok(value.stat)
    requires value.Content? ==> source.read(snapshot, path) == Ok(value.data)
    ensures UpToDate(source, history, snapshot, cache.Put(path, VersionedEntry(source.version(snapshot), value)))
  {
    var now := |history| - 1;
    var after := cache.Put(path, VersionedEntry(source.version(snapshot), value));
    assert Gives(source, history[now], path, StatCall, Metadata(value.stat));
    if value.Content? { assert Gives(source, history[now], path, ReadCall, Contents(value.data)); }
    forall p | p in after.entries ensures EntryGiven(source, history, now, p, after.entries[p]) {
      if p != path { assert p in cache.entries && cache.entries[p] == after.entries[p]; }
    }
  }

  class VirtualFileTree<P(!new)> {
    const provider: Source<P>
    const cache: VfsCache

    constructor (provider: Source<P>, capacity: nat)
      ensures this.provider == provider && fresh(cache)
      ensures cache.entries == Empty(if capacity == 0 then 1 else capacity)
    {
      this.provider := provider;
      this.cache := new VfsCache(capacity);
    }

    /** Through the cache or not, the provider's answer, success or failure. */
    method Stat(ghost history: seq<P>, snapshot: P, path: VfsPath) returns (r: VfsResult<VirtualStat>)
      requires UpToDate(provider, history, snapshot, cache.entries)
      modifies cache
      ensures r == provider.stat(snapshot, path)
      ensures UpToDate(provider, history, snapshot, cache.entries)
    {
      var version := provider.version(snapshot);
      HitIsCurrent(provider, history, snapshot, cache.entries, path);
      var entry := cache.Get(path, version);
      if entry.Some? {
        return Ok(entry.value.stat);
      }
      var stat :- provider.stat(snapshot, path);
      PutIsCurrent(provider, history, snapshot, cache.entries, path, CachedEntry.Stat(stat));
      cache.Put(path, version, CachedEntry.Stat(stat));
      return Ok(stat);
    }

    /** A successful read is the provider's; a read fails where the provider's read or stat does. */
    method Read(ghost history: seq<P>, snapshot: P, path: VfsPath) returns (r: VfsResult<Bytes>)
      requires UpToDate(provider, history, snapshot, cache.entries)
      modifies cache
      ensures r == if provider.read(snapshot, path).Ok? && provider.stat(snapshot, path).Err?
                   then Err(provider.stat(snapshot, path).error)
                   else provider.read(snapshot, path)
      ensures UpToDate(provider, history, snapshot, cache.entries)
    {
      var version := provider.version(snapshot);
      HitIsCurrent(provider, history, snapshot, cache.entries, path);
      var entry := cache.Get(path, version);
      if entry.Some? && entry.value.Content? {
        return Ok(entry.value.data);
      }
      var data :- provider.read(snapshot, path);
      var stat :- provider.stat(snapshot, path);
      PutIsCurrent(provider, history, snapshot, cache.entries, path, Content(stat, data));
      cache.Put(path, version, Content(stat, data));
      return Ok(data);
    }

    /**
     A range is the provider's own range, or cut from its own read, which is the same where its ranges are cuts.
     None, a panic, only where the end of the range wraps at 2^64.
     */
    method ReadRange(ghost history: seq<P>, snapshot: P, path: VfsPath, offset: u64, len: u64)
        returns (r: Option<VfsResult<Bytes>>)
      requires UpToDate(provider, history, snapshot, cache.entries)
      modifies cache
      ensures r.Some? ==>
                || r.value == provider.range(snapshot, path, offset, len)
                || (provider.read(snapshot, path).Ok? && r.value == Ok(Range(provider.read(snapshot, path).value, offset, len)))
      ensures r.Some? && CutsRanges(provider, snapshot) ==> r.value == provider.range(snapshot, path, offset, len)
      ensures r.None? ==> offset + len >= U64_LIMIT
      ensures UpToDate(provider, history, snapshot, cache.entries)
    {
      HitIsCurrent(provider, history, snapshot, cache.entries, path);
      var entry := cache.Get(path, provider.version(snapshot));
      if entry.Some? && entry.value.Content? {
        var data := entry.value.data;
        CachedSliceIsRange(data, offset, len);
        var end := (offset + len) % U64_LIMIT;
        if offset >= |data| {
          return Some(Ok([]));
        }
        if Min(end, |data|) < offset {
          return None;
        }
        return Some(Ok(data[offset..Min(end, |data|)]));
      }
      return Some(provider.range(snapshot, path, offset, len));
    }
  }

  /// The daemon's provider

  /** The snapshot's answers; `store` is what the content store holds under a hash. */
  function DaemonSource(store: Hash256 -> VfsResult<Bytes>): Source<Option<CachedTree>> {
    Source(
      tree => ReportedVersion(tree),
      (tree: Option<CachedTree>, path: VfsPath) => if tree.Some? then StatPath(tree.value, path) else Err(Provider),
      (tree: Option<CachedTree>, path: VfsPath) =>
        if tree.Some? then DaemonProvider.TreeRead(tree.value, store, DaemonProvider.ReadFile, path) else Err(Provider),
      (tree: Option<CachedTree>, path: VfsPath, offset: u64, len: u64) =>
        if tree.Some? then DaemonProvider.TreeRead(tree.value, store, DaemonProvider.ReadRange(offset, len), path)
        else Err(Provider))
  }

  /** With nothing installed there is version zero and no answer; with a snapshot, its own version and its own stat. */
  lemma DaemonSourceTells(store: Hash256 -> VfsResult<Bytes>, tree: CachedTree, path: VfsPath, offset: u64, len: u64)
    ensures var source := DaemonSource(store);
            && source.version(None) == 0 && source.stat(None, path) == Err(Provider)
            && source.read(None, path) == Err(Provider) && source.range(None, path, offset, len) == Err(Provider)
            && source.version(Some(tree)) == tree.version && source.stat(Some(tree), path) == StatPath(tree, path)
  {
  }

  /** The size a snapshot advertises for the body behind a path. */
  function Advertised(tree: CachedTree, path: VfsPath): Option<u64> {
    match DaemonProvider.Address(tree, DaemonProvider.ReadFile, path)
    case Ok((_, size)) => Some(size)
    case Err(_) => None
  }

  /**
   A range the daemon answers is the cut of the body a read gives, except where the range starts at or past
   the advertised size and the body is longer than that: then it is empty.
   */
  lemma DaemonRangeIsCutIff(
    tree: CachedTree, store: Hash256 -> VfsResult<Bytes>, path: VfsPath, offset: u64, len: u64)
    requires var read := DaemonProvider.TreeRead(tree, store, DaemonProvider.ReadFile, path);
             read.Ok? && |read.value| < U64_LIMIT
    ensures var body := DaemonProvider.TreeRead(tree, store, DaemonProvider.ReadFile, path).value;
            && Advertised(tree, path).Some?
            && (DaemonProvider.TreeRead(tree, store, DaemonProvider.ReadRange(offset, len), path) ==
                Ok(Range(body, offset, len)) <==>
                !(len > 0 && Advertised(tree, path).value <= offset < |body|))
  {
  }

  /** No body in the store is longer than the snapshot advertises, or past 2^64. */
  ghost predicate HonestSizes(store: Hash256 -> VfsResult<Bytes>, tree: CachedTree) {
    forall path: VfsPath ::
      var read := DaemonProvider.TreeRead(tree, store, DaemonProvider.ReadFile, path);
      read.Ok? && Advertised(tree, path).Some? ==> |read.value| <= Advertised(tree, path).value
  }

  lemma DaemonCutsRanges(store: Hash256 -> VfsResult<Bytes>, tree: Option<CachedTree>)
    requires tree.Some? ==> HonestSizes(store, tree.value)
    ensures CutsRanges(DaemonSource(store), tree)
  {
    var source := DaemonSource(store);
    forall path: VfsPath, offset: u64, len: u64 | source.read(tree, path).Ok?
      ensures source.range(tree, path, offset, len) == Ok(Range(source.read(tree, path).value, offset, len))
    {
      DaemonRangeIsCutIff(tree.value, store, path, offset, len);
    }
  }

  /**
   Every run of refreshes is a history the cache is exact for; over bodies no longer than advertised, for
   ranges too.
   */
  lemma DaemonIsSteady(
    sha: Bytes -> Hash256, states: seq<Option<CachedTree>>, completions: seq<Completion>, store: Hash256 -> VfsResult<Bytes>)
    requires RefreshRun(sha, states, completions) && Plausible(sha, states)
    ensures Steady(DaemonSource(store), states)
    ensures (forall i :: 0 <= i < |states| && states[i].Some? ==> HonestSizes(store, states[i].value)) ==>
              Cutting(DaemonSource(store), states)
  {
    var source := DaemonSource(store);
    forall i, j | 0 <= i <= j < |states|
      ensures source.version(states[i]) <= source.version(states[j])
      ensures source.version(states[i]) == source.version(states[j]) ==> SameAnswers(source, states[i], states[j])
    {
      AnswersAreAFunctionOfVersion(sha, states, completions, i, j);
      if states[i].Some? { RunsOnlyMoveForward(sha, states, completions, i, j); }
    }
    forall i | 0 <= i < |states| && (states[i].Some? ==> HonestSizes(store, states[i].value))
      ensures CutsRanges(source, states[i])
    {
      DaemonCutsRanges(store, states[i]);
    }
  }
}
