/**
 The write admission protocol as interleaved steps: host effects, marks, snapshots, the daemon's reads
 and publication, and the client's clear or failure. Revision identities are heap addresses that may be
 handed out again once nothing refers to them.
 */
module AdmissionProtocol {
  import opened Wrappers
  import opened ByteStrings
  import opened VfsPaths
  import opened Staging

  /** One observation of a path: when, and the contents found (None when absent). */
  datatype Read = Read(at: nat, content: Option<File>)

  /** A mutation whose host effect is done and whose `todo` paths are still to be marked. */
  datatype Mutator = Mutator(hostAt: nat, todo: set<VfsPath>)

  datatype Marked = Marked(path: VfsPath, hostAt: nat, markedAt: nat)

  /** The client side of an admission in flight. */
  datatype Flight = Flight(pending: map<VfsPath, nat>, snapAt: nat)

  /** The daemon side: it reads the working copy path by path and then publishes what it read. */
  datatype Commit = Commit(startAt: nat, scope: set<VfsPath>, seen: map<VfsPath, Read>, published: bool)

  datatype State = State(
    clock: nat,
    disk: map<VfsPath, File>,
    lastHost: map<VfsPath, nat>,
    staging: StagingState<nat>,
    mutators: map<nat, Mutator>,
    marked: set<Marked>,
    flights: map<nat, Flight>,
    commits: map<nat, Commit>,
    graph: map<VfsPath, Read>,
    acked: set<map<VfsPath, Read>>)

  /**
   `serial`: the daemon runs one commit at a time. `keepAlive`: a snapshot holds its revisions. `restat`: no
   other host effect comes between looking at a file and marking it, so a mark describes the file as it is.
   */
  datatype Mode = Mode(serial: bool, keepAlive: bool, restat: bool)

  datatype Event =
    | HostEffect(mutator: nat, changes: map<VfsPath, Option<File>>)
    | MarkPath(mutator: nat, path: VfsPath, staged: Staged, revision: nat)
    | Snap(flight: nat)
    | Receive(flight: nat)
    | ReadPath(flight: nat, path: VfsPath)
    | Publish(flight: nat)
    | Abort(flight: nat)
    | Acknowledge(flight: nat, admission: Admission)
    | Fail(flight: nat, reason: Bytes)

  function Content(disk: map<VfsPath, File>, path: VfsPath): Option<File> {
    if path in disk then Some(disk[path]) else None
  }

  function Change(disk: map<VfsPath, File>, changes: map<VfsPath, Option<File>>): map<VfsPath, File> {
    map p | p in disk.Keys + changes.Keys && (p in changes ==> changes[p].Some?) ::
      if p in changes then changes[p].value else disk[p]
  }

  /** The revisions something still refers to. */
  predicate Live(mode: Mode, s: State, revision: nat) {
    || (exists p :: p in s.staging.entries && s.staging.entries[p].revision == revision)
    || (mode.keepAlive && exists f :: f in s.flights && revision in s.flights[f].pending.Values)
  }

  predicate Enabled(mode: Mode, s: State, e: Event) {
    match e
    case HostEffect(m, changes) => m !in s.mutators && changes != map[]
    case MarkPath(m, path, staged, revision) =>
      && m in s.mutators && path in s.mutators[m].todo && !Live(mode, s, revision)
      && (mode.restat ==> Describes(staged, Content(s.disk, path)))
    case Snap(f) => f !in s.flights && f !in s.commits && s.staging.entries != map[]
    case Receive(f) =>
      f in s.flights && f !in s.commits && (mode.serial ==> forall g :: g in s.commits ==> s.commits[g].published)
    case ReadPath(f, path) => f in s.commits && !s.commits[f].published && path !in s.commits[f].seen
    case Publish(f) => f in s.commits && !s.commits[f].published && s.commits[f].scope <= s.commits[f].seen.Keys
    case Abort(f) => f in s.commits && !s.commits[f].published
    case Acknowledge(f, admission) => f in s.flights && f in s.commits && s.commits[f].published
    case Fail(f, reason) => f in s.flights
  }

  function Apply(mode: Mode, s: State, e: Event): State
    requires Enabled(mode, s, e)
  {
    var t := s.(clock := s.clock + 1);
    match e
    case HostEffect(m, changes) =>
      t.(disk := Change(s.disk, changes),
         lastHost := s.lastHost + (map p | p in changes :: s.clock),
         mutators := s.mutators[m := Mutator(s.clock, changes.Keys)])
    case MarkPath(m, path, staged, revision) =>
      var mutator := s.mutators[m];
      t.(staging := Mark(s.staging, path, staged, revision, s.clock),
         mutators := if mutator.todo == {path} then s.mutators - {m}
                     else s.mutators[m := mutator.(todo := mutator.todo - {path})],
         marked := s.marked + {Marked(path, mutator.hostAt, s.clock)})
    case Snap(f) =>
      t.(flights := s.flights[f := Flight(Snapshot(s.staging), s.clock)])
    case Receive(f) =>
      t.(commits := s.commits[f := Commit(s.clock, s.lastHost.Keys, map[], false)])
    case ReadPath(f, path) =>
      var c := s.commits[f];
      t.(commits := s.commits[f := c.(seen := c.seen[path := Read(s.clock, Content(s.disk, path))])])
    case Publish(f) =>
      t.(commits := s.commits[f := s.commits[f].(published := true)], graph := s.graph + s.commits[f].seen)
    case Abort(f) =>
      t.(commits := s.commits - {f})
    case Acknowledge(f, admission) =>
      t.(staging := Clear(s.staging, s.flights[f].pending, admission),
         flights := s.flights - {f},
         acked := s.acked + {s.commits[f].seen})
    case Fail(f, reason) =>
      t.(staging := RecordFailure(s.staging, reason), flights := s.flights - {f})
  }

  function Init(disk: map<VfsPath, File>): State {
    State(0, disk, map[], NothingStaged(), map[], {}, map[], map[], map[], {})
  }

  function Exec(mode: Mode, s: State, events: seq<Event>): Option<State>
    decreases |events|
  {
    if events == [] then Some(s)
    else if Enabled(mode, s, events[0]) then Exec(mode, Apply(mode, s, events[0]), events[1..])
    else None
  }

  /// Bookkeeping every step keeps

  ghost predicate Clocked(s: State) {
    && (forall p :: p in s.lastHost ==> s.lastHost[p] < s.clock)
    && (forall m :: m in s.mutators ==>
          s.mutators[m].hostAt < s.clock && s.mutators[m].todo <= s.lastHost.Keys)
    && (forall k :: k in s.marked ==> k.hostAt < k.markedAt < s.clock && k.path in s.lastHost)
    && s.staging.entries.Keys <= s.lastHost.Keys
    && (forall f :: f in s.flights ==> s.flights[f].snapAt < s.clock && s.flights[f].pending.Keys <= s.lastHost.Keys)
  }

  ghost predicate CommitOrdered(clock: nat, c: Commit) {
    && c.startAt < clock
    && (c.published ==> c.scope <= c.seen.Keys)
    && (forall p :: p in c.seen ==> c.startAt < c.seen[p].at < clock)
  }

  /** A commit that serves a flight began after its snapshot, in a scope that holds all it carries. */
  ghost predicate Ordered(s: State) {
    && (forall c :: c in s.commits ==> CommitOrdered(s.clock, s.commits[c]))
    && (forall f :: f in s.flights && f in s.commits ==>
          s.flights[f].snapAt < s.commits[f].startAt && s.flights[f].pending.Keys <= s.commits[f].scope)
  }

  /**
   No revision is mistaken for another: an entry that still carries the revision a snapshot took was
   last marked before that snapshot.
   */
  ghost predicate NoReuse(s: State) {
    forall f, p :: f in s.flights && Unchanged(s.staging, s.flights[f].pending, p) ==>
      forall k :: k in s.marked && k.path == p ==> k.markedAt < s.flights[f].snapAt
  }

  /** A successful admission observed `k`'s path after its host effect. */
  ghost predicate Observed(s: State, k: Marked) {
    exists seen: map<VfsPath, Read> :: seen in s.acked && k.path in seen && k.hostAt < seen[k.path].at
  }

  /** Every marked mutation is owed or was observed. */
  ghost predicate Owed(s: State) {
    forall k :: k in s.marked ==> k.path in s.staging.entries || Observed(s, k)
  }

  ghost predicate Inv(s: State) {
    Clocked(s) && Ordered(s) && NoReuse(s) && Owed(s) && TouchedIffStaged(s.staging)
  }

  lemma KeepsClocked(mode: Mode, s: State, e: Event)
    requires Clocked(s) && Enabled(mode, s, e)
    ensures Clocked(Apply(mode, s, e))
  {
  }

  lemma KeepsOrdered(mode: Mode, s: State, e: Event)
    requires Clocked(s) && Ordered(s) && Enabled(mode, s, e)
    ensures Ordered(Apply(mode, s, e))
  {
    var t := Apply(mode, s, e);
    forall c | c in t.commits ensures CommitOrdered(t.clock, t.commits[c]) {
      KeepsCommitOrdered(mode, s, e, c);
    }
  }

  lemma KeepsCommitOrdered(mode: Mode, s: State, e: Event, c: nat)
    requires Ordered(s) && Enabled(mode, s, e) && c in Apply(mode, s, e).commits
    ensures CommitOrdered(s.clock + 1, Apply(mode, s, e).commits[c])
  {
    if c in s.commits { assert CommitOrdered(s.clock, s.commits[c]); }
  }

  /** The address a new mark is given is none a snapshot still holds. */
  lemma FreshRevision(mode: Mode, s: State, e: Event, f: nat)
    requires Enabled(mode, s, e) && e.MarkPath? && mode.keepAlive && f in s.flights
    ensures !Unchanged(Apply(mode, s, e).staging, s.flights[f].pending, e.path)
  {
    var pending := s.flights[f].pending;
    assert e.path in pending ==> pending[e.path] in pending.Values;
  }

  lemma KeepsNoReuse(mode: Mode, s: State, e: Event)
    requires Clocked(s) && NoReuse(s) && Enabled(mode, s, e) && mode.keepAlive
    ensures NoReuse(Apply(mode, s, e))
  {
    var t := Apply(mode, s, e);
    forall f, p | f in t.flights && Unchanged(t.staging, t.flights[f].pending, p)
      ensures forall k :: k in t.marked && k.path == p ==> k.markedAt < t.flights[f].snapAt
    {
      if e.MarkPath? { FreshRevision(mode, s, e, f); }
      if f in s.flights { assert Unchanged(s.staging, s.flights[f].pending, p); }
    }
  }

  lemma KeepsOwed(mode: Mode, s: State, e: Event)
    requires Clocked(s) && Ordered(s) && NoReuse(s) && Owed(s) && Enabled(mode, s, e)
    ensures Owed(Apply(mode, s, e))
  {
    var t := Apply(mode, s, e);
    forall k | k in t.marked ensures k.path in t.staging.entries || Observed(t, k) {
      if k in s.marked {
        if Observed(s, k) {
          var seen: map<VfsPath, Read> :| seen in s.acked && k.path in seen && k.hostAt < seen[k.path].at;
          assert seen in t.acked;
        } else if e.Acknowledge? && k.path !in t.staging.entries {
          var f := e.flight;
          assert Unchanged(s.staging, s.flights[f].pending, k.path);
          assert s.commits[f].seen in t.acked;
        }
      }
    }
  }

  lemma KeepsInv(mode: Mode, s: State, e: Event)
    requires Inv(s) && Enabled(mode, s, e) && mode.keepAlive
    ensures Inv(Apply(mode, s, e))
  {
    KeepsClocked(mode, s, e);
    KeepsOrdered(mode, s, e);
    KeepsNoReuse(mode, s, e);
    KeepsOwed(mode, s, e);
    KeepsTouched(mode, s, e);
  }

  lemma KeepsTouched(mode: Mode, s: State, e: Event)
    requires TouchedIffStaged(s.staging) && Enabled(mode, s, e)
    ensures TouchedIffStaged(Apply(mode, s, e).staging)
  {
    if e.MarkPath? { assert e.path in Apply(mode, s, e).staging.entries; }
  }

  lemma {:induction false} RunKeepsInv(mode: Mode, s: State, events: seq<Event>)
    requires Inv(s) && mode.keepAlive && Exec(mode, s, events).Some?
    ensures Inv(Exec(mode, s, events).value)
    decreases |events|
  {
    if events != [] {
      KeepsInv(mode, s, events[0]);
      RunKeepsInv(mode, Apply(mode, s, events[0]), events[1..]);
    }
  }

  /**
   In every interleaving, with any number of mutators, admissions and lost replies and with revision
   identities recycled as soon as nothing refers to them: a marked mutation is owed until a successful
   admission has read its path after its host effect. So a settled writer owes nothing.
   */
  lemma NoMarkedMutationIsLost(mode: Mode, disk: map<VfsPath, File>, events: seq<Event>, k: Marked)
    requires mode.keepAlive && Exec(mode, Init(disk), events).Some?
    requires k in Exec(mode, Init(disk), events).value.marked
    ensures var s := Exec(mode, Init(disk), events).value;
            && (k.path in s.staging.entries || Observed(s, k))
            && (Health(s.staging).Settled? ==> Observed(s, k))
  {
    RunKeepsInv(mode, Init(disk), events);
  }

  lemma {:induction false} RunKeepsTouched(mode: Mode, s: State, events: seq<Event>)
    requires TouchedIffStaged(s.staging) && Exec(mode, s, events).Some?
    ensures TouchedIffStaged(Exec(mode, s, events).value.staging)
    decreases |events|
  {
    if events != [] {
      KeepsTouched(mode, s, events[0]);
      RunKeepsTouched(mode, Apply(mode, s, events[0]), events[1..]);
    }
  }

  /** Last touch is set exactly while something is staged, in every reachable state of every mode. */
  lemma TouchTracksStaging(mode: Mode, disk: map<VfsPath, File>, events: seq<Event>)
    requires Exec(mode, Init(disk), events).Some?
    ensures TouchedIffStaged(Exec(mode, Init(disk), events).value.staging)
  {
    RunKeepsTouched(mode, Init(disk), events);
  }

  /// What the graph holds, when the daemon runs one commit at a time

  /** An observation no later host effect has overtaken is what the disk still holds. */
  predicate Current(s: State, p: VfsPath, read: Read) {
    (p in s.lastHost ==> s.lastHost[p] < read.at) ==> read.content == Content(s.disk, p)
  }

  ghost predicate AllCurrent(s: State, seen: map<VfsPath, Read>) {
    forall p :: p in seen ==> seen[p].at < s.clock && Current(s, p, seen[p])
  }

  ghost predicate Faithful(s: State) {
    AllCurrent(s, s.graph) && forall c :: c in s.commits ==> AllCurrent(s, s.commits[c].seen)
  }

  ghost predicate OneOpen(s: State) {
    forall c, d :: c in s.commits && d in s.commits && !s.commits[c].published && !s.commits[d].published ==> c == d
  }

  /** A published commit's observations are in the graph or overtaken; an open one's will be later than all. */
  ghost predicate CommitLatest(graph: map<VfsPath, Read>, c: Commit) {
    if c.published then forall p :: p in c.seen ==> p in graph && c.seen[p].at <= graph[p].at
    else forall p :: p in graph ==> graph[p].at < c.startAt
  }

  /** The graph holds the latest published observation of every path. */
  ghost predicate Latest(s: State) {
    forall c :: c in s.commits ==> CommitLatest(s.graph, s.commits[c])
  }

  ghost predicate Unmarked(s: State, p: VfsPath, at: nat) {
    exists m :: m in s.mutators && p in s.mutators[m].todo && s.mutators[m].hostAt == at
  }

  ghost predicate MarkedAt(s: State, p: VfsPath, at: nat) {
    exists k :: k in s.marked && k.path == p && k.hostAt == at
  }

  /** The latest host effect on a path is marked or still to be marked. */
  ghost predicate Accounted(s: State) {
    forall p :: p in s.lastHost ==> MarkedAt(s, p, s.lastHost[p]) || Unmarked(s, p, s.lastHost[p])
  }

  /** Every mutated path is owed, about to be owed, or in the graph as of its latest host effect. */
  ghost predicate Covered(s: State) {
    forall p :: p in s.lastHost ==>
      || p in s.staging.entries
      || Unmarked(s, p, s.lastHost[p])
      || (p in s.graph && s.lastHost[p] < s.graph[p].at)
  }

  ghost predicate SerialInv(s: State) {
    Inv(s) && Faithful(s) && OneOpen(s) && Latest(s) && Accounted(s) && Covered(s)
  }

  lemma StaysCurrent(mode: Mode, s: State, e: Event, seen: map<VfsPath, Read>)
    requires Clocked(s) && Enabled(mode, s, e) && AllCurrent(s, seen)
    ensures AllCurrent(Apply(mode, s, e), seen)
  {
  }

  lemma KeepsFaithful(mode: Mode, s: State, e: Event)
    requires Clocked(s) && Faithful(s) && Enabled(mode, s, e)
    ensures Faithful(Apply(mode, s, e))
  {
    var t := Apply(mode, s, e);
    StaysCurrent(mode, s, e, s.graph);
    forall c | c in t.commits ensures AllCurrent(t, t.commits[c].seen) {
      if c in s.commits { StaysCurrent(mode, s, e, s.commits[c].seen); }
    }
    if e.Publish? { StaysCurrent(mode, s, e, s.commits[e.flight].seen); }
  }

  lemma KeepsOneOpen(mode: Mode, s: State, e: Event)
    requires OneOpen(s) && Enabled(mode, s, e) && mode.serial
    ensures OneOpen(Apply(mode, s, e))
  {
  }

  lemma KeepsLatest(mode: Mode, s: State, e: Event)
    requires Ordered(s) && Faithful(s) && OneOpen(s) && Latest(s) && Enabled(mode, s, e) && mode.serial
    ensures Latest(Apply(mode, s, e))
  {
    var t := Apply(mode, s, e);
    forall c | c in t.commits ensures CommitLatest(t.graph, t.commits[c]) {
      if e.Publish? {
        assert CommitOrdered(s.clock, s.commits[e.flight]);
        Overtaken(s.graph, s.commits[e.flight], s.commits[c], c == e.flight);
      } else if c in s.commits {
        assert CommitLatest(s.graph, s.commits[c]);
      }
    }
  }

  /** Publishing replaces observations by later ones only. */
  lemma Overtaken(graph: map<VfsPath, Read>, open: Commit, other: Commit, same: bool)
    requires !open.published && CommitLatest(graph, open) && CommitLatest(graph, other)
    requires forall p :: p in open.seen ==> open.startAt < open.seen[p].at
    requires if same then open == other else other.published
    ensures CommitLatest(graph + open.seen, if same then open.(published := true) else other)
  {
  }

  lemma KeepsUnmarked(mode: Mode, s: State, e: Event, p: VfsPath, at: nat)
    requires Enabled(mode, s, e) && Unmarked(s, p, at)
    ensures Unmarked(Apply(mode, s, e), p, at) || (e.MarkPath? && e.path == p && MarkedAt(Apply(mode, s, e), p, at))
  {
    var t := Apply(mode, s, e);
    var m :| m in s.mutators && p in s.mutators[m].todo && s.mutators[m].hostAt == at;
    if e.MarkPath? && e.mutator == m && e.path == p {
      assert Marked(p, at, s.clock) in t.marked;
    } else {
      assert m in t.mutators && p in t.mutators[m].todo;
    }
  }

  lemma KeepsAccounted(mode: Mode, s: State, e: Event)
    requires Accounted(s) && Enabled(mode, s, e)
    ensures Accounted(Apply(mode, s, e))
  {
    var t := Apply(mode, s, e);
    forall p | p in t.lastHost ensures MarkedAt(t, p, t.lastHost[p]) || Unmarked(t, p, t.lastHost[p]) {
      if e.HostEffect? && p in e.changes {
        assert e.mutator in t.mutators && p in t.mutators[e.mutator].todo;
      } else if MarkedAt(s, p, s.lastHost[p]) {
        var k :| k in s.marked && k.path == p && k.hostAt == s.lastHost[p];
        assert k in t.marked;
      } else {
        KeepsUnmarked(mode, s, e, p, s.lastHost[p]);
      }
    }
  }

  lemma KeepsCovered(mode: Mode, s: State, e: Event)
    requires SerialInv(s) && Enabled(mode, s, e) && mode.serial
    ensures Covered(Apply(mode, s, e))
  {
    var t := Apply(mode, s, e);
    forall p | p in t.lastHost
      ensures p in t.staging.entries || Unmarked(t, p, t.lastHost[p]) || (p in t.graph && t.lastHost[p] < t.graph[p].at)
    {
      if e.HostEffect? && p in e.changes {
        assert e.mutator in t.mutators && p in t.mutators[e.mutator].todo;
      } else if Unmarked(s, p, s.lastHost[p]) {
        KeepsUnmarked(mode, s, e, p, s.lastHost[p]);
      } else if p in s.staging.entries && p !in t.staging.entries {
        ClearedIsCovered(mode, s, e, p);
      }
    }
  }

  /** What an acknowledged admission clears is in the graph as of its latest host effect. */
  lemma ClearedIsCovered(mode: Mode, s: State, e: Event, p: VfsPath)
    requires SerialInv(s) && Enabled(mode, s, e) && p in s.lastHost && !Unmarked(s, p, s.lastHost[p])
    requires p in s.staging.entries && p !in Apply(mode, s, e).staging.entries
    ensures p in s.graph && s.lastHost[p] < s.graph[p].at
  {
    var f := e.flight;
    var c := s.commits[f];
    assert Unchanged(s.staging, s.flights[f].pending, p);
    assert MarkedAt(s, p, s.lastHost[p]);
    var k :| k in s.marked && k.path == p && k.hostAt == s.lastHost[p];
    assert CommitOrdered(s.clock, c) && CommitLatest(s.graph, c);
    assert k.hostAt < s.flights[f].snapAt < c.seen[p].at;
  }

  lemma KeepsSerialInv(mode: Mode, s: State, e: Event)
    requires SerialInv(s) && Enabled(mode, s, e) && mode.keepAlive && mode.serial
    ensures SerialInv(Apply(mode, s, e))
  {
    KeepsInv(mode, s, e);
    KeepsFaithful(mode, s, e);
    KeepsOneOpen(mode, s, e);
    KeepsLatest(mode, s, e);
    KeepsAccounted(mode, s, e);
    KeepsCovered(mode, s, e);
  }

  lemma {:induction false} RunKeepsSerialInv(mode: Mode, s: State, events: seq<Event>)
    requires SerialInv(s) && mode.keepAlive && mode.serial && Exec(mode, s, events).Some?
    ensures SerialInv(Exec(mode, s, events).value)
    decreases |events|
  {
    if events != [] {
      KeepsSerialInv(mode, s, events[0]);
      RunKeepsSerialInv(mode, Apply(mode, s, events[0]), events[1..]);
    }
  }

  /**
   When the daemon runs one commit at a time, a settled writer with no mutation between its host effect
   and its mark means that the graph holds exactly the working copy's contents of every path ever mutated.
   */
  lemma SettledGraphIsTheWorkingCopy(mode: Mode, disk: map<VfsPath, File>, events: seq<Event>, p: VfsPath)
    requires mode.keepAlive && mode.serial && Exec(mode, Init(disk), events).Some?
    requires var s := Exec(mode, Init(disk), events).value;
             Health(s.staging).Settled? && s.mutators == map[] && p in s.lastHost
    ensures var s := Exec(mode, Init(disk), events).value;
            p in s.graph && s.graph[p].content == Content(s.disk, p)
  {
    RunKeepsSerialInv(mode, Init(disk), events);
  }

  /// The published graph as a whole

  /** Something about `p` is still to reach the graph: it is staged, or its latest host effect is unmarked. */
  ghost predicate Owing(s: State, p: VfsPath) {
    p in s.staging.entries || (p in s.lastHost && Unmarked(s, p, s.lastHost[p]))
  }

  /** The files the graph holds: what was published, over the working copy the writer started from. */
  function Published(start: map<VfsPath, File>, s: State): map<VfsPath, File> {
    map p | p in start.Keys + s.graph.Keys && (p in s.graph ==> s.graph[p].content.Some?) ::
      if p in s.graph then s.graph[p].content.value else start[p]
  }

  /** A path without host effect is as it was at the start. */
  ghost predicate Untouched(start: map<VfsPath, File>, s: State) {
    forall p: VfsPath :: p !in s.lastHost ==> Content(s.disk, p) == Content(start, p)
  }

  lemma {:induction false} RunKeepsUntouched(mode: Mode, start: map<VfsPath, File>, s: State, events: seq<Event>)
    requires Untouched(start, s) && Exec(mode, s, events).Some?
    ensures Untouched(start, Exec(mode, s, events).value)
    decreases |events|
  {
    if events != [] {
      KeepsUntouched(mode, start, s, events[0]);
      RunKeepsUntouched(mode, start, Apply(mode, s, events[0]), events[1..]);
    }
  }

  lemma KeepsUntouched(mode: Mode, start: map<VfsPath, File>, s: State, e: Event)
    requires Untouched(start, s) && Enabled(mode, s, e)
    ensures Untouched(start, Apply(mode, s, e))
  {
    var t := Apply(mode, s, e);
    forall p: VfsPath | p !in t.lastHost ensures Content(t.disk, p) == Content(start, p) {
      assert p !in s.lastHost;
    }
  }

  lemma NotOwingIsPublished(start: map<VfsPath, File>, s: State, p: VfsPath)
    requires SerialInv(s) && Untouched(start, s) && !Owing(s, p)
    ensures p in s.lastHost ==> p in s.graph && s.graph[p].content == Content(s.disk, p)
    ensures Content(Published(start, s), p) == Content(s.disk, p)
  {
    if p in s.graph { assert Current(s, p, s.graph[p]); }
  }

  /**
   When the daemon runs one commit at a time, in every reachable state the graph holds exactly the working
   copy's contents of every path that owes nothing, whether it was ever mutated or not.
   */
  lemma GraphHoldsWhatIsNotOwing(mode: Mode, start: map<VfsPath, File>, events: seq<Event>, p: VfsPath)
    requires mode.keepAlive && mode.serial && Exec(mode, Init(start), events).Some?
    requires !Owing(Exec(mode, Init(start), events).value, p)
    ensures var s := Exec(mode, Init(start), events).value;
            && (p in s.lastHost ==> p in s.graph && s.graph[p].content == Content(s.disk, p))
            && Content(Published(start, s), p) == Content(s.disk, p)
  {
    RunKeepsSerialInv(mode, Init(start), events);
    RunKeepsUntouched(mode, start, Init(start), events);
    NotOwingIsPublished(start, Exec(mode, Init(start), events).value, p);
  }

  /** What an acknowledgement is about to clear is already in the graph, byte for byte. */
  lemma AcknowledgedIsAdmitted(mode: Mode, start: map<VfsPath, File>, events: seq<Event>, f: nat, admission: Admission, p: VfsPath)
    requires mode.keepAlive && mode.serial && Exec(mode, Init(start), events).Some?
    requires var s := Exec(mode, Init(start), events).value;
             && Enabled(mode, s, Acknowledge(f, admission)) && Unchanged(s.staging, s.flights[f].pending, p)
             && p in s.lastHost && !Unmarked(s, p, s.lastHost[p])
    ensures var s := Exec(mode, Init(start), events).value;
            p in s.graph && s.graph[p].content == Content(s.disk, p)
  {
    RunKeepsSerialInv(mode, Init(start), events);
    var s := Exec(mode, Init(start), events).value;
    ClearedIsCovered(mode, s, Acknowledge(f, admission), p);
    assert Current(s, p, s.graph[p]);
  }

  /// What is staged is what the working copy holds

  ghost predicate Truthful(s: State) {
    forall p :: p in s.staging.entries && p in s.lastHost && !Unmarked(s, p, s.lastHost[p]) ==>
      Describes(s.staging.entries[p].staged, Content(s.disk, p))
  }

  lemma HostEffectIsUnmarked(mode: Mode, s: State, e: Event, p: VfsPath)
    requires Enabled(mode, s, e) && e.HostEffect? && p in e.changes
    ensures Unmarked(Apply(mode, s, e), p, s.clock) && Apply(mode, s, e).lastHost[p] == s.clock
  {
    var t := Apply(mode, s, e);
    assert e.mutator in t.mutators && p in t.mutators[e.mutator].todo;
  }

  /** A step that is no host effect on `p` leaves it described, or marks it. */
  lemma StaysDescribed(mode: Mode, s: State, e: Event, p: VfsPath)
    requires Clocked(s) && Enabled(mode, s, e) && mode.restat && p in Apply(mode, s, e).staging.entries
    requires !(e.HostEffect? && p in e.changes)
    requires p in s.staging.entries && !(e.MarkPath? && e.path == p) ==>
               Describes(s.staging.entries[p].staged, Content(s.disk, p))
    ensures Describes(Apply(mode, s, e).staging.entries[p].staged, Content(Apply(mode, s, e).disk, p))
  {
  }

  lemma KeepsTruthful(mode: Mode, s: State, e: Event)
    requires Clocked(s) && Truthful(s) && Enabled(mode, s, e) && mode.restat
    ensures Truthful(Apply(mode, s, e))
  {
    var t := Apply(mode, s, e);
    forall p | e.HostEffect? && p in e.changes ensures Unmarked(t, p, t.lastHost[p]) {
      HostEffectIsUnmarked(mode, s, e, p);
    }
    forall p | p in s.lastHost && Unmarked(s, p, s.lastHost[p])
      ensures Unmarked(t, p, s.lastHost[p]) || (e.MarkPath? && e.path == p)
    {
      KeepsUnmarked(mode, s, e, p, s.lastHost[p]);
    }
    forall p | && p in t.staging.entries && !(e.HostEffect? && p in e.changes)
               && (p in s.lastHost && Unmarked(s, p, s.lastHost[p]) ==> e.MarkPath? && e.path == p)
      ensures Describes(t.staging.entries[p].staged, Content(t.disk, p))
    {
      StaysDescribed(mode, s, e, p);
    }
  }

  lemma {:induction false} RunKeepsTruthful(mode: Mode, s: State, events: seq<Event>)
    requires Clocked(s) && Truthful(s) && mode.restat && Exec(mode, s, events).Some?
    ensures Truthful(Exec(mode, s, events).value)
    decreases |events|
  {
    if events != [] {
      KeepsClocked(mode, s, events[0]);
      KeepsTruthful(mode, s, events[0]);
      RunKeepsTruthful(mode, Apply(mode, s, events[0]), events[1..]);
    }
  }
}
