/** From every reachable state of the protocol, what is owed can still reach the graph. */
module AdmissionProgress {
  import opened Wrappers
  import opened ByteStrings
  import opened VfsPaths
  import opened Staging
  import opened AdmissionProtocol
  import opened AdmissionLimits

  /// Runs without another host effect

  predicate Quiet(events: seq<Event>) {
    forall i :: 0 <= i < |events| ==> !events[i].HostEffect?
  }

  ghost predicate Reaches(mode: Mode, s: State, events: seq<Event>, t: State) {
    Quiet(events) && Exec(mode, s, events) == Some(t)
  }

  ghost predicate QuietlyReachable(mode: Mode, s: State, t: State) {
    exists events :: Reaches(mode, s, events, t)
  }

  /** `r` holds, with every state, whatever a step that is no host effect makes of it. */
  ghost predicate QuietlyClosed(mode: Mode, r: iset<State>) {
    forall s, e :: s in r && Enabled(mode, s, e) && !e.HostEffect? ==> Apply(mode, s, e) in r
  }

  lemma QuietRuns(mode: Mode, s: State) returns (r: iset<State>)
    ensures QuietlyClosed(mode, r) && s in r
    ensures forall t :: t in r ==> QuietlyReachable(mode, s, t)
  {
    r := iset t | QuietlyReachable(mode, s, t);
    assert Reaches(mode, s, [], s);
    forall t, e | t in r && Enabled(mode, t, e) && !e.HostEffect? ensures Apply(mode, t, e) in r {
      var events :| Reaches(mode, s, events, t);
      ExecThen(mode, s, events, t, e);
      assert Reaches(mode, s, events + [e], Apply(mode, t, e));
    }
  }

  lemma QuietNext(mode: Mode, r: iset<State>, s: State, e: Event) returns (t: State)
    requires QuietlyClosed(mode, r) && s in r && Enabled(mode, s, e) && !e.HostEffect?
    ensures t in r && t == Apply(mode, s, e)
  {
    t := Apply(mode, s, e);
  }

  /// Every mutator can finish its marks

  /** A mutator stays only while it has something to mark. */
  ghost predicate Busy(s: State) {
    forall m :: m in s.mutators ==> s.mutators[m].todo != {}
  }

  lemma KeepsBusy(mode: Mode, s: State, e: Event)
    requires Busy(s) && Enabled(mode, s, e)
    ensures Busy(Apply(mode, s, e))
  {
    if e.HostEffect? {
      var p :| p in e.changes;
      assert p in e.changes.Keys;
    }
    if e.MarkPath? {
      var todo := s.mutators[e.mutator].todo;
      assert todo != {e.path} ==> todo - {e.path} != {};
    }
  }

  lemma {:induction false} RunKeepsBusy(mode: Mode, s: State, events: seq<Event>)
    requires Busy(s) && Exec(mode, s, events).Some?
    ensures Busy(Exec(mode, s, events).value)
    decreases |events|
  {
    if events != [] {
      KeepsBusy(mode, s, events[0]);
      RunKeepsBusy(mode, Apply(mode, s, events[0]), events[1..]);
    }
  }

  lemma {:induction false} BeyondAll(numbers: set<nat>) returns (n: nat)
    ensures forall x :: x in numbers ==> x < n
    decreases numbers
  {
    if numbers == {} {
      n := 0;
    } else {
      var x :| x in numbers;
      var m := BeyondAll(numbers - {x});
      n := if x < m then m else x + 1;
      assert forall y :: y in numbers ==> y == x || y in numbers - {x};
    }
  }

  lemma FreshExists(mode: Mode, s: State) returns (revision: nat)
    ensures !Live(mode, s, revision)
  {
    var staged := set p | p in s.staging.entries :: s.staging.entries[p].revision;
    var held := set f, n | f in s.flights && n in s.flights[f].pending.Values :: n;
    revision := BeyondAll(staged + held);
    forall f | f in s.flights ensures revision !in s.flights[f].pending.Values {
      assert forall n :: n in s.flights[f].pending.Values ==> n in held;
    }
    forall p | p in s.staging.entries ensures s.staging.entries[p].revision != revision {
      assert s.staging.entries[p].revision in staged;
    }
  }

  /** How a restat finds the file now. */
  function Restated(disk: map<VfsPath, File>, path: VfsPath): (staged: Staged)
    ensures Describes(staged, Content(disk, path))
  {
    if path in disk then Present(FileStat(disk[path], 420, 0)) else Removed
  }

  /** Nothing but marks and mutators has changed. */
  predicate OnlyMarks(s: State, t: State) {
    t.flights == s.flights && t.commits == s.commits && s.staging.entries.Keys <= t.staging.entries.Keys
  }

  lemma {:induction false} FinishMutator(mode: Mode, r: iset<State>, s: State, m: nat) returns (t: State)
    requires QuietlyClosed(mode, r) && s in r && Busy(s) && m in s.mutators
    ensures t in r && Busy(t) && t.mutators == s.mutators - {m} && OnlyMarks(s, t) && t.staging.entries != map[]
    decreases s.mutators[m].todo
  {
    var path :| path in s.mutators[m].todo;
    var revision := FreshExists(mode, s);
    var e := MarkPath(m, path, Restated(s.disk, path), revision);
    KeepsBusy(mode, s, e);
    t := QuietNext(mode, r, s, e);
    assert path in t.staging.entries;
    if m in t.mutators {
      var u := FinishMutator(mode, r, t, m);
      assert t.mutators - {m} == s.mutators - {m};
      t := u;
    }
  }

  lemma {:induction false} FinishMutators(mode: Mode, r: iset<State>, s: State) returns (t: State)
    requires QuietlyClosed(mode, r) && s in r && Busy(s)
    ensures t in r && t.mutators == map[] && OnlyMarks(s, t)
    ensures if s.mutators == map[] then t == s else t.staging.entries != map[]
    decreases s.mutators.Keys
  {
    if s.mutators == map[] {
      t := s;
    } else {
      var m :| m in s.mutators;
      var u := FinishMutator(mode, r, s, m);
      t := FinishMutators(mode, r, u);
      var path :| path in u.staging.entries;
      assert path in t.staging.entries.Keys;
    }
  }

  /// Every admission can go through

  function Open(s: State): set<nat> {
    set c | c in s.commits && !s.commits[c].published
  }

  /** The daemon gives up what it has not published. */
  lemma {:induction false} AbortOpen(mode: Mode, r: iset<State>, s: State) returns (t: State)
    requires QuietlyClosed(mode, r) && s in r
    ensures t in r && Open(t) == {} && t.staging == s.staging && t.mutators == s.mutators && t.flights == s.flights
    decreases Open(s)
  {
    if Open(s) == {} {
      t := s;
    } else {
      var c :| c in Open(s);
      var u := QuietNext(mode, r, s, Abort(c));
      assert Open(u) == Open(s) - {c};
      t := AbortOpen(mode, r, u);
    }
  }

  /** The daemon reads what is left of its scope. */
  lemma {:induction false} ReadScope(mode: Mode, r: iset<State>, s: State, f: nat) returns (t: State)
    requires QuietlyClosed(mode, r) && s in r && f in s.commits && !s.commits[f].published
    ensures t in r && f in t.commits && !t.commits[f].published && t.commits[f].scope <= t.commits[f].seen.Keys
    ensures t.staging == s.staging && t.mutators == s.mutators && t.flights == s.flights
    decreases s.commits[f].scope - s.commits[f].seen.Keys
  {
    if s.commits[f].scope <= s.commits[f].seen.Keys {
      t := s;
    } else {
      var path :| path in s.commits[f].scope && path !in s.commits[f].seen;
      var u := QuietNext(mode, r, s, ReadPath(f, path));
      assert u.commits[f].seen.Keys == s.commits[f].seen.Keys + {path};
      t := ReadScope(mode, r, u, f);
    }
  }

  /** A flight whose commit is not published yet gets there. */
  lemma PublishFlight(mode: Mode, r: iset<State>, s: State, f: nat) returns (t: State)
    requires QuietlyClosed(mode, r) && s in r && f in s.flights && Open(s) == {}
    ensures t in r && f in t.commits && t.commits[f].published
    ensures t.staging == s.staging && t.mutators == s.mutators && t.flights == s.flights
  {
    forall g | g in s.commits ensures s.commits[g].published { assert g !in Open(s); }
    if f in s.commits {
      t := s;
    } else {
      var a := QuietNext(mode, r, s, Receive(f));
      var b := ReadScope(mode, r, a, f);
      t := QuietNext(mode, r, b, Publish(f));
    }
  }

  /** A flight that carries everything staged settles the writer. */
  lemma LandFlight(mode: Mode, r: iset<State>, s: State, f: nat) returns (t: State)
    requires QuietlyClosed(mode, r) && s in r && f in s.flights && Open(s) == {}
    requires forall p :: p in s.staging.entries ==> Unchanged(s.staging, s.flights[f].pending, p)
    ensures t in r && t.mutators == s.mutators && t.staging.entries == map[] && t.staging.lastError.None?
  {
    var u := PublishFlight(mode, r, s, f);
    t := QuietNext(mode, r, u, Acknowledge(f, ADMISSION));
    assert t.staging.entries == map[];
  }

  lemma Launch(mode: Mode, r: iset<State>, s: State) returns (t: State, f: nat)
    requires QuietlyClosed(mode, r) && s in r && s.staging.entries != map[] && Open(s) == {}
    ensures t in r && f in t.flights && Open(t) == {} && t.mutators == s.mutators
    ensures forall p :: p in t.staging.entries ==> Unchanged(t.staging, t.flights[f].pending, p)
  {
    f := BeyondAll(s.flights.Keys + s.commits.Keys);
    assert f !in s.flights && f !in s.commits;
    t := QuietNext(mode, r, s, Snap(f));
  }

  /// When a writer can settle

  /** Everything is marked and admitted, and the writer says so. */
  predicate AtRest(s: State) {
    s.mutators == map[] && Health(s.staging).Settled?
  }

  /** Degraded, with nothing staged, nothing to mark and no admission in flight. */
  predicate Stuck(s: State) {
    s.staging.entries == map[] && s.mutators == map[] && s.flights == map[] && s.staging.lastError.Some?
  }

  lemma SettleFrom(mode: Mode, r: iset<State>, s: State) returns (t: State)
    requires QuietlyClosed(mode, r) && s in r && Busy(s) && !Stuck(s)
    ensures t in r && AtRest(t)
  {
    var a := FinishMutators(mode, r, s);
    var b := AbortOpen(mode, r, a);
    if b.staging.entries != map[] {
      var c, f := Launch(mode, r, b);
      t := LandFlight(mode, r, c, f);
    } else if b.staging.lastError.Some? {
      var f :| f in b.flights;
      t := LandFlight(mode, r, b, f);
    } else {
      t := b;
    }
  }

  lemma KeepsStuck(mode: Mode, s: State, e: Event)
    requires Stuck(s) && Enabled(mode, s, e) && !e.HostEffect?
    ensures Stuck(Apply(mode, s, e))
  {
  }

  lemma {:induction false} RunKeepsStuck(mode: Mode, s: State, events: seq<Event>)
    requires Stuck(s) && Quiet(events) && Exec(mode, s, events).Some?
    ensures Stuck(Exec(mode, s, events).value)
    decreases |events|
  {
    if events != [] {
      KeepsStuck(mode, s, events[0]);
      RunKeepsStuck(mode, Apply(mode, s, events[0]), events[1..]);
    }
  }

  /**
   Whatever has happened, in every mode: without any further change of the working copy the writer can still
   settle, unless it is degraded with nothing left to mark, to admit or to hear of; then it never does.
   */
  lemma CanSettleIff(mode: Mode, start: map<VfsPath, File>, past: seq<Event>, s: State)
    requires Exec(mode, Init(start), past) == Some(s)
    ensures (exists events, t :: Reaches(mode, s, events, t) && AtRest(t)) <==> !Stuck(s)
  {
    RunKeepsBusy(mode, Init(start), past);
    if Stuck(s) {
      forall events, t | Reaches(mode, s, events, t) ensures !AtRest(t) { RunKeepsStuck(mode, s, events); }
    } else {
      var r := QuietRuns(mode, s);
      var t := SettleFrom(mode, r, s);
      assert QuietlyReachable(mode, s, t);
    }
  }

  /** That state is reachable: the later of two overlapping admissions fails after the first settled everything. */
  lemma StuckIsReachable(mode: Mode, path: VfsPath) returns (s: State)
    ensures Reachable(mode, map[], s) && Stuck(s)
  {
    s := OverlappingFailureNamesNothing(mode, path);
  }

  /// What has reached the graph then

  lemma {:induction false} QuietKeepsDisk(mode: Mode, s: State, events: seq<Event>, t: State)
    requires Reaches(mode, s, events, t)
    ensures t.disk == s.disk && t.lastHost == s.lastHost
    decreases |events|
  {
    if events != [] { QuietKeepsDisk(mode, Apply(mode, s, events[0]), events[1..], t); }
  }

  lemma {:induction false} RunStays(mode: Mode, r: iset<State>, s: State, events: seq<Event>)
    requires Closed(mode, r) && s in r && Exec(mode, s, events).Some?
    ensures Exec(mode, s, events).value in r
    decreases |events|
  {
    if events != [] { RunStays(mode, r, Apply(mode, s, events[0]), events[1..]); }
  }

  lemma StillReachable(mode: Mode, start: map<VfsPath, File>, past: seq<Event>, s: State, events: seq<Event>, t: State)
    requires Exec(mode, Init(start), past) == Some(s) && Exec(mode, s, events) == Some(t)
    ensures Reachable(mode, start, t)
  {
    var r := ReachableIsClosed(mode, start);
    RunStays(mode, r, s, events);
  }

  lemma RestsOwingNothing(s: State, p: VfsPath)
    requires s.mutators == map[] && s.staging.entries == map[]
    ensures !Owing(s, p)
  {
  }

  /**
   With one commit at a time, from every reachable state some run without another host effect ends with
   every mutation marked, nothing owed, and the graph holding exactly the working copy as it is now.
   */
  lemma WorkingCopyCanReachTheGraph(mode: Mode, start: map<VfsPath, File>, past: seq<Event>, s: State)
      returns (events: seq<Event>, t: State)
    requires mode.keepAlive && mode.serial && Exec(mode, Init(start), past) == Some(s)
    ensures Reaches(mode, s, events, t) && t.mutators == map[] && t.staging.entries == map[]
    ensures forall p: VfsPath :: Content(Published(start, t), p) == Content(s.disk, p)
  {
    if Stuck(s) {
      events, t := [], s;
    } else {
      CanSettleIff(mode, start, past, s);
      events, t :| Reaches(mode, s, events, t) && AtRest(t);
    }
    QuietKeepsDisk(mode, s, events, t);
    StillReachable(mode, start, past, s, events, t);
    var whole :| Exec(mode, Init(start), whole) == Some(t);
    forall p: VfsPath ensures Content(Published(start, t), p) == Content(s.disk, p) {
      RestsOwingNothing(t, p);
      GraphHoldsWhatIsNotOwing(mode, start, whole, p);
    }
  }
}
