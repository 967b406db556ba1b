/** Where the admission protocol's guarantees end: each assumption of the main results, shown to be needed. */
module AdmissionLimits {
  import opened Wrappers
  import opened ByteStrings
  import opened VfsPaths
  import opened Staging
  import opened AdmissionProtocol

  /// Degraded health

  /** No admission starts while another is in flight, as in the daemon's admission loop. */
  predicate OneAtATime(mode: Mode, s: State, events: seq<Event>)
    decreases |events|
  {
    events == [] ||
    (Enabled(mode, s, events[0]) && (events[0].Snap? ==> s.flights == map[]) &&
     OneAtATime(mode, Apply(mode, s, events[0]), events[1..]))
  }

  ghost predicate Named(s: State) {
    && (s.staging.lastError.Some? ==> s.staging.entries != map[])
    && (forall f, g :: f in s.flights && g in s.flights ==> f == g)
    && (forall f :: f in s.flights ==> s.flights[f].pending != map[] && s.flights[f].pending.Keys <= s.staging.entries.Keys)
  }

  lemma KeepsNamed(mode: Mode, s: State, e: Event)
    requires Named(s) && Enabled(mode, s, e) && (e.Snap? ==> s.flights == map[])
    ensures Named(Apply(mode, s, e))
  {
    var t := Apply(mode, s, e);
    match e
    case MarkPath(_, path, _, _) => assert path in t.staging.entries;
    case Snap(f) =>
      var p :| p in s.staging.entries;
      assert p in t.flights[f].pending;
    case Fail(f, _) =>
      var p :| p in s.flights[f].pending;
      assert p in t.staging.entries;
    case _ =>
  }

  /** While admissions run one at a time, degraded health always names a path that is still owed. */
  lemma {:induction false} DegradedNamesAPath(mode: Mode, s: State, events: seq<Event>)
    requires Named(s) && OneAtATime(mode, s, events)
    ensures Exec(mode, s, events).Some?
    ensures var t := Exec(mode, s, events).value;
            Named(t) && (Health(t.staging).Degraded? ==> Health(t.staging).paths != [])
    decreases |events|
  {
    if events != [] {
      KeepsNamed(mode, s, events[0]);
      DegradedNamesAPath(mode, Apply(mode, s, events[0]), events[1..]);
    } else if s.staging.entries != map[] {
      SomethingStaged(s.staging);
    }
  }

  /** From a fresh writer, one admission at a time: degraded health never names nothing. */
  lemma FreshWriterNamesAPath(mode: Mode, disk: map<VfsPath, File>, events: seq<Event>)
    requires OneAtATime(mode, Init(disk), events)
    ensures Exec(mode, Init(disk), events).Some?
    ensures var health := Health(Exec(mode, Init(disk), events).value.staging);
            health.Degraded? ==> health.paths != []
  {
    DegradedNamesAPath(mode, Init(disk), events);
  }

  /** A failure never changes what is staged; it names no path exactly when nothing was staged any more. */
  lemma FailureNamesWhatIsStaged(mode: Mode, s: State, f: nat, reason: Bytes)
    requires Enabled(mode, s, Fail(f, reason))
    ensures var t := Apply(mode, s, Fail(f, reason));
            && t.staging.entries == s.staging.entries
            && Health(t.staging) == Degraded(StagedPaths(t.staging), reason)
            && (Health(t.staging).paths == [] <==> s.staging.entries == map[])
  {
    if s.staging.entries != map[] {
      SomethingStaged(Apply(mode, s, Fail(f, reason)).staging);
    }
  }

  /// Steps of the counterexample runs

  ghost predicate Moves(mode: Mode, s: State, e: Event, t: State) {
    Enabled(mode, s, e) && t == Apply(mode, s, e)
  }

  /** How a file of one byte is staged. */
  const WRITTEN: Staged := Present(FileStat([0], 420, 0))

  function One<V>(path: VfsPath, value: V): (r: map<VfsPath, V>)
    ensures r.Keys == {path} && r[path] == value
  {
    map[path := value]
  }

  /** The working copy after one path changes. */
  function Changed(disk: map<VfsPath, File>, path: VfsPath, content: Option<File>): map<VfsPath, File> {
    if content.Some? then disk[path := content.value] else disk - {path}
  }

  lemma OneChange(disk: map<VfsPath, File>, path: VfsPath, content: Option<File>)
    ensures Change(disk, One(path, content)) == Changed(disk, path, content)
  {
  }

  lemma OneTime(lastHost: map<VfsPath, nat>, clock: nat, path: VfsPath, content: Option<File>)
    ensures var changes: map<VfsPath, Option<File>> := One(path, content);
            && changes != map[] && changes.Keys == {path}
            && lastHost + (map p | p in changes :: clock) == lastHost[path := clock]
  {
    assert path in One(path, content);
  }

  /** Host effect and mark of one write, by a mutator that does nothing else. */
  lemma Write(mode: Mode, s: State, path: VfsPath, b: byte, revision: nat) returns (s1: State, t: State)
    requires s.mutators == map[] && !Live(mode, s, revision)
    ensures Moves(mode, s, HostEffect(0, One(path, Some([b]))), s1)
    ensures Moves(mode, s1, MarkPath(0, path, WRITTEN, revision), t)
    ensures t == s.(clock := s.clock + 2,
                    disk := s.disk[path := [b]],
                    lastHost := s.lastHost[path := s.clock],
                    staging := Mark(s.staging, path, WRITTEN, revision, s.clock + 1),
                    marked := s.marked + {Marked(path, s.clock, s.clock + 1)})
  {
    OneChange(s.disk, path, Some([b]));
    OneTime(s.lastHost, s.clock, path, Some([b]));
    s1 := Apply(mode, s, HostEffect(0, One(path, Some([b]))));
    assert s1.mutators == map[0 := Mutator(s.clock, {path})];
    assert Live(mode, s1, revision) == Live(mode, s, revision);
    t := Apply(mode, s1, MarkPath(0, path, WRITTEN, revision));
    assert t.mutators == map[];
  }

  lemma TakeSnapshot(mode: Mode, s: State, f: nat, path: VfsPath, revision: nat) returns (t: State)
    requires f !in s.flights && f !in s.commits
    requires s.staging.entries == One(path, StagedEntry(WRITTEN, revision))
    ensures Moves(mode, s, Snap(f), t)
    ensures t == s.(clock := s.clock + 1, flights := s.flights[f := Flight(One(path, revision), s.clock)])
  {
    assert path in s.staging.entries;
    assert Snapshot(s.staging) == One(path, revision);
    t := Apply(mode, s, Snap(f));
  }

  lemma Request(mode: Mode, s: State, f: nat) returns (t: State)
    requires f in s.flights && f !in s.commits
    requires mode.serial ==> forall g :: g in s.commits ==> s.commits[g].published
    ensures Moves(mode, s, Receive(f), t)
    ensures t == s.(clock := s.clock + 1, commits := s.commits[f := Commit(s.clock, s.lastHost.Keys, map[], false)])
  {
    t := Apply(mode, s, Receive(f));
  }

  /** The daemon reads the one path in scope. */
  lemma ReadOne(mode: Mode, s: State, f: nat, start: nat, path: VfsPath) returns (t: State)
    requires f in s.commits && s.commits[f] == Commit(start, {path}, map[], false) && s.clock == start + 1
    ensures Moves(mode, s, ReadPath(f, path), t)
    ensures t == s.(clock := s.clock + 1, commits := s.commits[f := Carried(start, path, Content(s.disk, path))])
  {
    t := Apply(mode, s, ReadPath(f, path));
    assert t.commits[f].seen == Carried(start, path, Content(s.disk, path)).seen;
  }

  function Carried(start: nat, path: VfsPath, content: Option<File>): Commit {
    Commit(start, {path}, One(path, Read(start + 1, content)), false)
  }

  const ADMISSION := Admission([], [], 1, [])

  /** Publication and acknowledgement while exactly the carried revision is staged. */
  lemma Settle(mode: Mode, s: State, f: nat, path: VfsPath, revision: nat) returns (s1: State, t: State)
    requires f in s.flights && f in s.commits
    requires s.staging.entries == One(path, StagedEntry(WRITTEN, revision))
    requires s.flights[f].pending == One(path, revision)
    requires !s.commits[f].published && s.commits[f].scope <= s.commits[f].seen.Keys
    ensures Moves(mode, s, Publish(f), s1) && Moves(mode, s1, Acknowledge(f, ADMISSION), t)
    ensures t == s.(clock := s.clock + 2,
                    staging := StagingState(map[], None, Some(ADMISSION), None),
                    flights := s.flights - {f},
                    commits := s.commits[f := s.commits[f].(published := true)],
                    graph := s.graph + s.commits[f].seen,
                    acked := s.acked + {s.commits[f].seen})
  {
    s1 := Apply(mode, s, Publish(f));
    t := Apply(mode, s1, Acknowledge(f, ADMISSION));
    assert t.staging.entries == map[];
  }

  /// Reachable states

  ghost predicate Reachable(mode: Mode, start: map<VfsPath, File>, s: State) {
    exists events :: Exec(mode, Init(start), events) == Some(s)
  }

  /** `r` holds, with every state, whatever a step makes of it. */
  ghost predicate Closed(mode: Mode, r: iset<State>) {
    forall s, e :: s in r && Enabled(mode, s, e) ==> Apply(mode, s, e) in r
  }

  lemma {:induction false} ExecThen(mode: Mode, s: State, events: seq<Event>, t: State, e: Event)
    requires Exec(mode, s, events) == Some(t) && Enabled(mode, t, e)
    ensures Exec(mode, s, events + [e]) == Some(Apply(mode, t, e))
    decreases |events|
  {
    var longer := events + [e];
    assert longer[1..] == if events == [] then [] else events[1..] + [e];
    if events != [] {
      var m := Apply(mode, s, events[0]);
      ExecThen(mode, m, events[1..], t, e);
      assert Exec(mode, s, longer) == Exec(mode, m, longer[1..]);
    }
  }

  lemma ReachableIsClosed(mode: Mode, start: map<VfsPath, File>) returns (r: iset<State>)
    ensures r == iset s | Reachable(mode, start, s)
    ensures Closed(mode, r) && Init(start) in r
  {
    r := iset s | Reachable(mode, start, s);
    assert Exec(mode, Init(start), []) == Some(Init(start));
    forall s, e | s in r && Enabled(mode, s, e) ensures Apply(mode, s, e) in r {
      var events :| Exec(mode, Init(start), events) == Some(s);
      ExecThen(mode, Init(start), events, s, e);
    }
  }

  lemma Next(mode: Mode, r: iset<State>, s: State, e: Event, t: State)
    requires Closed(mode, r) && s in r && Moves(mode, s, e, t)
    ensures t in r
  {
  }

  /// Segments of runs

  lemma Wrote(mode: Mode, r: iset<State>, s: State, path: VfsPath, b: byte, revision: nat) returns (t: State)
    requires Closed(mode, r) && s in r && s.mutators == map[] && !Live(mode, s, revision)
    ensures t in r
    ensures t == s.(clock := s.clock + 2,
                    disk := s.disk[path := [b]],
                    lastHost := s.lastHost[path := s.clock],
                    staging := Mark(s.staging, path, WRITTEN, revision, s.clock + 1),
                    marked := s.marked + {Marked(path, s.clock, s.clock + 1)})
  {
    var m;
    m, t := Write(mode, s, path, b, revision);
    Next(mode, r, s, HostEffect(0, One(path, Some([b]))), m);
    Next(mode, r, m, MarkPath(0, path, WRITTEN, revision), t);
  }

  /** The daemon receives the admission and reads the one path in scope. */
  lemma Carry(mode: Mode, r: iset<State>, s: State, f: nat, path: VfsPath) returns (t: State)
    requires Closed(mode, r) && s in r
    requires f in s.flights && f !in s.commits && s.lastHost.Keys == {path}
    requires mode.serial ==> forall g :: g in s.commits ==> s.commits[g].published
    ensures t in r
    ensures t == s.(clock := s.clock + 2,
                    commits := s.commits[f := Carried(s.clock, path, Content(s.disk, path))])
  {
    var m := Request(mode, s, f);
    Next(mode, r, s, Receive(f), m);
    t := ReadOne(mode, m, f, s.clock, path);
    Next(mode, r, m, ReadPath(f, path), t);
    assert t.commits == s.commits[f := Carried(s.clock, path, Content(s.disk, path))];
  }

  lemma Settled(mode: Mode, r: iset<State>, s: State, f: nat, path: VfsPath, revision: nat) returns (t: State)
    requires Closed(mode, r) && s in r && f in s.flights && f in s.commits
    requires s.staging.entries == One(path, StagedEntry(WRITTEN, revision))
    requires s.flights[f].pending == One(path, revision)
    requires !s.commits[f].published && s.commits[f].scope <= s.commits[f].seen.Keys
    ensures t in r
    ensures t == s.(clock := s.clock + 2,
                    staging := StagingState(map[], None, Some(ADMISSION), None),
                    flights := s.flights - {f},
                    commits := s.commits[f := s.commits[f].(published := true)],
                    graph := s.graph + s.commits[f].seen,
                    acked := s.acked + {s.commits[f].seen})
  {
    var m;
    m, t := Settle(mode, s, f, path, revision);
    Next(mode, r, s, Publish(f), m);
    Next(mode, r, m, Acknowledge(f, ADMISSION), t);
  }

  /** One write of `path` at revision 7, snapped by admission 1, from a fresh writer. */
  lemma FirstSnapshot(mode: Mode, r: iset<State>, path: VfsPath) returns (t: State)
    requires Closed(mode, r) && Init(map[]) in r
    ensures t in r
    ensures t.flights == map[1 := Flight(One(path, 7), 2)] && t.clock == 3
    ensures t.commits == map[] && t.graph == map[] && t.mutators == map[] && t.acked == {}
    ensures t.lastHost.Keys == {path} && t.disk == One(path, [1])
    ensures t.staging == StagingState(One(path, StagedEntry(WRITTEN, 7)), Some(1), None, None)
  {
    var a := Wrote(mode, r, Init(map[]), path, 1, 7);
    assert a.staging.entries == One(path, StagedEntry(WRITTEN, 7));
    t := TakeSnapshot(mode, a, 1, path, 7);
    Next(mode, r, a, Snap(1), t);
    assert t.disk == One(path, [1]);
  }

  /** A second write, at revision 8, after the daemon has read the first. */
  lemma SecondWrite(mode: Mode, r: iset<State>, path: VfsPath) returns (t: State)
    requires Closed(mode, r) && Init(map[]) in r
    ensures t in r
    ensures t.flights == map[1 := Flight(One(path, 7), 2)] && t.clock == 7
    ensures t.commits == map[1 := Carried(3, path, Some([1]))] && t.mutators == map[] && t.acked == {}
    ensures t.lastHost.Keys == {path} && t.disk == One(path, [2])
    ensures t.staging.entries == One(path, StagedEntry(WRITTEN, 8))
  {
    var a := FirstSnapshot(mode, r, path);
    var b := Carry(mode, r, a, 1, path);
    t := Wrote(mode, r, b, path, 2, 8);
    assert t.staging.entries == One(path, StagedEntry(WRITTEN, 8));
    assert t.disk == One(path, [2]);
  }

  /// The counterexamples

  /** Two admissions in flight: the second fails after the first settled everything, and names no path. */
  lemma OverlappingFailureNamesNothing(mode: Mode, path: VfsPath) returns (s: State)
    ensures Reachable(mode, map[], s) && Health(s.staging) == Degraded([], [33])
    ensures s.mutators == map[] && s.flights == map[]
  {
    var r := ReachableIsClosed(mode, map[]);
    var a := FirstSnapshot(mode, r, path);
    var b := TakeSnapshot(mode, a, 2, path, 7);
    Next(mode, r, a, Snap(2), b);
    var c := Carry(mode, r, b, 1, path);
    var d := Settled(mode, r, c, 1, path, 7);
    FailureNamesWhatIsStaged(mode, d, 2, [33]);
    s := Apply(mode, d, Fail(2, [33]));
    Next(mode, r, d, Fail(2, [33]), s);
  }

  /** A mutation that was marked, is not owed, and was never read after its host effect. */
  ghost predicate Lost(s: State, k: Marked) {
    k in s.marked && Health(s.staging).Settled? && !Observed(s, k)
  }

  /** The path is staged a third time, at revision 7 again, while admission 1 is in flight. */
  lemma Recycled(mode: Mode, r: iset<State>, path: VfsPath) returns (t: State)
    requires Closed(mode, r) && Init(map[]) in r && !mode.keepAlive
    ensures t in r
    ensures t.flights == map[1 := Flight(One(path, 7), 2)] && t.acked == {}
    ensures t.commits == map[1 := Carried(3, path, Some([1]))]
    ensures t.staging.entries == One(path, StagedEntry(WRITTEN, 7))
    ensures Marked(path, 7, 8) in t.marked
  {
    var a := SecondWrite(mode, r, path);
    t := Wrote(mode, r, a, path, 3, 7);
    assert t.staging.entries == One(path, StagedEntry(WRITTEN, 7));
  }

  /**
   Were a snapshot to hold weak references, a recycled revision would be cleared by an admission that
   never saw it, and a marked mutation would be lost.
   */
  lemma WeakSnapshotLosesAWrite(mode: Mode, path: VfsPath)
    requires !mode.keepAlive
    ensures exists s :: Reachable(mode, map[], s) && Lost(s, Marked(path, 7, 8))
  {
    var r := ReachableIsClosed(mode, map[]);
    var a := Recycled(mode, r, path);
    var b := Settled(mode, r, a, 1, path, 7);
    assert Lost(b, Marked(path, 7, 8));
  }

  /** Admission 1 has read the first write and admission 2 the second; neither is published. */
  lemma Overlapped(mode: Mode, r: iset<State>, path: VfsPath) returns (t: State)
    requires Closed(mode, r) && Init(map[]) in r && !mode.serial
    ensures t in r
    ensures t.flights == map[1 := Flight(One(path, 7), 2), 2 := Flight(One(path, 8), 7)]
    ensures t.commits == map[1 := Carried(3, path, Some([1])), 2 := Carried(8, path, Some([2]))]
    ensures t.staging.entries == One(path, StagedEntry(WRITTEN, 8)) && t.mutators == map[]
    ensures t.disk == One(path, [2])
  {
    var a := SecondWrite(mode, r, path);
    var b := TakeSnapshot(mode, a, 2, path, 8);
    Next(mode, r, a, Snap(2), b);
    t := Carry(mode, r, b, 2, path);
  }

  ghost predicate Stale(s: State, path: VfsPath) {
    && Health(s.staging).Settled? && s.mutators == map[]
    && path in s.graph && s.graph[path].content != Content(s.disk, path)
  }

  /**
   Were the daemon to run commits concurrently, one that read early and published late would leave the
   graph behind the working copy although nothing is owed.
   */
  lemma OverlappingCommitsLeaveTheGraphStale(mode: Mode, path: VfsPath)
    requires !mode.serial
    ensures exists s :: Reachable(mode, map[], s) && Stale(s, path)
  {
    var r := ReachableIsClosed(mode, map[]);
    var a := Overlapped(mode, r, path);
    var b := Settled(mode, r, a, 2, path, 8);
    var c := Apply(mode, b, Publish(1));
    Next(mode, r, b, Publish(1), c);
    assert Stale(c, path);
  }
}
