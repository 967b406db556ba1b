/** Overlay reads step by step: two looks at the staging area and a read of the file, with the protocol going on between. */
module StraddlingReads {
  import opened Wrappers
  import opened ByteStrings
  import opened ByteRanges
  import opened VfsPaths
  import opened Membership
  import opened TreeContract
  import opened TreeLookup
  import opened Staging
  import opened AdmissionProtocol
  import opened AdmissionLimits
  import opened Overlay
  import opened ReadStability
  import opened StabilityLimits

  /// Events that leave a path alone

  predicate Leaves(e: Event, p: VfsPath) {
    !(e.HostEffect? && p in e.changes) && !(e.MarkPath? && e.path == p)
  }

  predicate AllLeave(events: seq<Event>, p: VfsPath) {
    forall i :: 0 <= i < |events| ==> Leaves(events[i], p)
  }

  /** From `s` to `t`, the file and its latest effect are the same, nothing new is unmarked, and the entry can only go. */
  ghost predicate Left(s: State, t: State, p: VfsPath) {
    && Content(t.disk, p) == Content(s.disk, p)
    && p in s.lastHost && p in t.lastHost && t.lastHost[p] == s.lastHost[p]
    && (Unmarked(t, p, t.lastHost[p]) ==> Unmarked(s, p, s.lastHost[p]))
    && (p in t.staging.entries ==> p in s.staging.entries && t.staging.entries[p] == s.staging.entries[p])
  }

  lemma UnmarkedBefore(mode: Mode, s: State, e: Event, p: VfsPath, at: nat)
    requires Enabled(mode, s, e) && Leaves(e, p) && Unmarked(Apply(mode, s, e), p, at)
    ensures Unmarked(s, p, at)
  {
    var t := Apply(mode, s, e);
    var m :| m in t.mutators && p in t.mutators[m].todo && t.mutators[m].hostAt == at;
    assert m in s.mutators && p in s.mutators[m].todo && s.mutators[m].hostAt == at;
  }

  lemma StepLeaves(mode: Mode, s: State, e: Event, p: VfsPath)
    requires Enabled(mode, s, e) && Leaves(e, p) && p in s.lastHost
    ensures Left(s, Apply(mode, s, e), p)
  {
    var t := Apply(mode, s, e);
    if Unmarked(t, p, t.lastHost[p]) { UnmarkedBefore(mode, s, e, p, t.lastHost[p]); }
  }

  lemma {:induction false} RunLeaves(mode: Mode, s: State, events: seq<Event>, p: VfsPath)
    requires Exec(mode, s, events).Some? && AllLeave(events, p) && p in s.lastHost
    ensures Left(s, Exec(mode, s, events).value, p)
    decreases |events|
  {
    if events != [] {
      var m := Apply(mode, s, events[0]);
      StepLeaves(mode, s, events[0], p);
      RunLeaves(mode, m, events[1..], p);
    }
  }

  /// A read that starts at a staged file

  /** A run in which a file is staged, with no host effect on it unmarked. */
  ghost predicate Starts(mode: Mode, start: map<VfsPath, Staging.File>, events: seq<Event>, a: State, p: VfsPath) {
    && mode.keepAlive && mode.serial && mode.restat && Exec(mode, Init(start), events) == Some(a)
    && p in a.staging.entries && a.staging.entries[p].staged.Present?
    && p in a.lastHost && !Unmarked(a, p, a.lastHost[p])
  }

  /** The protocol goes on, without a change of `p`. */
  ghost predicate GoesOn(mode: Mode, a: State, more: seq<Event>, d: State, p: VfsPath) {
    Exec(mode, a, more) == Some(d) && AllLeave(more, p)
  }

  lemma StagedFile(mode: Mode, start: map<VfsPath, Staging.File>, events: seq<Event>, a: State, p: VfsPath)
    requires Starts(mode, start, events, a, p)
    ensures p in a.disk && a.staging.entries[p].staged.stat.size == |a.disk[p]|
  {
    RunKeepsTruthful(mode, Init(start), events);
    assert Describes(a.staging.entries[p].staged, Content(a.disk, p));
  }

  /** At every instant while `p` is left alone the overlay answers the file, staged or admitted. */
  lemma AnsweredThroughout(
    mode: Mode, start: map<VfsPath, Staging.File>, events: seq<Event>, a: State, more: seq<Event>, d: State, p: VfsPath,
    tree: CachedTree, sha: Bytes -> Hash256, store: Store, offset: u64, len: u64)
    requires Starts(mode, start, events, a, p) && GoesOn(mode, a, more, d, p)
    requires Validated(tree, sha) && Serves(tree, store, Published(start, d))
    ensures p in a.disk
    ensures OverlayAnswers(TreeGraph(tree, store), d.staging, d.disk, p, offset, len) ==
            Answers(Ok(a.disk[p]), Ok(Range(a.disk[p], offset, len)), Ok(true))
  {
    StagedFile(mode, start, events, a, p);
    RunLeaves(mode, a, more, p);
    if p in d.staging.entries {
      StagedAnswers(TreeGraph(tree, store), d.staging, d.disk, p, offset, len);
      WholeRange(a.disk[p], |a.disk[p]|);
    } else {
      AdmittedThen(mode, start, events, a, more, d, p);
      ServedAnswers(tree, sha, store, Published(start, d), d.staging, d.disk, p, offset, len);
    }
  }

  lemma AdmittedThen(
    mode: Mode, start: map<VfsPath, Staging.File>, events: seq<Event>, a: State, more: seq<Event>, d: State, p: VfsPath)
    requires Starts(mode, start, events, a, p) && GoesOn(mode, a, more, d, p) && p !in d.staging.entries
    ensures Content(Published(start, d), p) == Content(a.disk, p)
  {
    RunKeepsSerialInv(mode, Init(start), events);
    RunKeepsSerialInv(mode, a, more);
    RunKeepsUntouched(mode, start, Init(start), events);
    RunKeepsUntouched(mode, start, a, more);
    RunLeaves(mode, a, more, p);
    NotOwingIsPublished(start, d, p);
  }

  /** The first look sees `a`, the second `b`, and the file is read in `c`. */
  ghost predicate Straddles(
    mode: Mode, a: State, e1: seq<Event>, b: State, e2: seq<Event>, c: State, p: VfsPath)
  {
    GoesOn(mode, a, e1, b, p) && GoesOn(mode, b, e2, c, p)
  }

  /** The read gives the file exactly when the entry is still there at the second look, and not-found otherwise. */
  lemma StraddlingRead(
    mode: Mode, start: map<VfsPath, Staging.File>, events: seq<Event>, a: State, e1: seq<Event>, b: State,
    e2: seq<Event>, c: State, p: VfsPath, graph: Graph, offset: u64, len: u64)
    requires Starts(mode, start, events, a, p) && Straddles(mode, a, e1, b, e2, c, p)
    ensures p in a.disk
    ensures ReadFileLooking(graph, a.staging, b.staging, c.disk, p) ==
            if p in b.staging.entries then Ok(a.disk[p]) else Err(NotFound)
    ensures ReadRangeLooking(graph, a.staging, b.staging, c.disk, p, offset, len) ==
            if p in b.staging.entries then Ok(Range(a.disk[p], offset, len)) else Err(NotFound)
  {
    StagedFile(mode, start, events, a, p);
    RunLeaves(mode, a, e1, p);
    RunLeaves(mode, b, e2, p);
    WholeRange(a.disk[p], |a.disk[p]|);
  }

  /// Against the instants of the call

  /** `d` is one of the states the call lasts through. */
  ghost predicate During(mode: Mode, a: State, events: seq<Event>, d: State) {
    exists k :: 0 <= k <= |events| && Exec(mode, a, events[..k]) == Some(d)
  }

  /** At every instant of the call, the graph serves what is published then. */
  ghost predicate ServedThroughout(
    mode: Mode, start: map<VfsPath, Staging.File>, a: State, events: seq<Event>,
    trees: State -> CachedTree, sha: Bytes -> Hash256, store: Store)
  {
    forall d :: During(mode, a, events, d) ==> Validated(trees(d), sha) && Serves(trees(d), store, Published(start, d))
  }

  /** At `d`, this is what the overlay answers to a read of the file. */
  ghost predicate AnswerAt(d: State, trees: State -> CachedTree, store: Store, p: VfsPath, r: VfsResult<Bytes>) {
    OverlayReadFile(TreeGraph(trees(d), store), d.staging, d.disk, p) == r
  }

  /** ... and to a read of a range. */
  ghost predicate RangeAt(
    d: State, trees: State -> CachedTree, store: Store, p: VfsPath, offset: u64, len: u64, r: VfsResult<Bytes>)
  {
    OverlayReadRange(TreeGraph(trees(d), store), d.staging, d.disk, p, offset, len) == r
  }

  lemma AtEachInstant(
    mode: Mode, start: map<VfsPath, Staging.File>, events: seq<Event>, a: State, more: seq<Event>, d: State, p: VfsPath,
    trees: State -> CachedTree, sha: Bytes -> Hash256, store: Store, offset: u64, len: u64)
    requires Starts(mode, start, events, a, p) && AllLeave(more, p) && During(mode, a, more, d)
    requires ServedThroughout(mode, start, a, more, trees, sha, store)
    ensures p in a.disk && AnswerAt(d, trees, store, p, Ok(a.disk[p]))
    ensures RangeAt(d, trees, store, p, offset, len, Ok(Range(a.disk[p], offset, len)))
  {
    var k :| 0 <= k <= |more| && Exec(mode, a, more[..k]) == Some(d);
    assert GoesOn(mode, a, more[..k], d, p);
    AnsweredThroughout(mode, start, events, a, more[..k], d, p, trees(d), sha, store, offset, len);
  }

  /**
   While a staged file is left alone, a read or range of it that looks twice answers what the overlay answers
   at some instant of the call exactly when no acknowledgement clears the path between the two looks.
   Otherwise it answers not-found, for a file that exists at every instant of the call.
   */
  lemma StraddlingReadIff(
    mode: Mode, start: map<VfsPath, Staging.File>, events: seq<Event>, a: State, e1: seq<Event>, b: State,
    e2: seq<Event>, c: State, p: VfsPath, graph: Graph,
    trees: State -> CachedTree, sha: Bytes -> Hash256, store: Store, offset: u64, len: u64)
    requires Starts(mode, start, events, a, p) && Straddles(mode, a, e1, b, e2, c, p)
    requires ServedThroughout(mode, start, a, e1 + e2, trees, sha, store)
    ensures var r := ReadFileLooking(graph, a.staging, b.staging, c.disk, p);
            (exists d :: During(mode, a, e1 + e2, d) && AnswerAt(d, trees, store, p, r)) <==> p in b.staging.entries
    ensures var r := ReadRangeLooking(graph, a.staging, b.staging, c.disk, p, offset, len);
            (exists d :: During(mode, a, e1 + e2, d) && RangeAt(d, trees, store, p, offset, len, r)) <==> p in b.staging.entries
  {
    var more := e1 + e2;
    StraddlingRead(mode, start, events, a, e1, b, e2, c, p, graph, offset, len);
    assert more[..0] == [] && Exec(mode, a, more[..0]) == Some(a);
    assert During(mode, a, more, a);
    forall d | During(mode, a, more, d)
      ensures AnswerAt(d, trees, store, p, Ok(a.disk[p]))
      ensures RangeAt(d, trees, store, p, offset, len, Ok(Range(a.disk[p], offset, len)))
    {
      AtEachInstant(mode, start, events, a, more, d, p, trees, sha, store, offset, len);
    }
  }

  /// At an input

  lemma TwoMoves(mode: Mode, s: State, e: Event, m: State, f: Event, t: State)
    requires Moves(mode, s, e, m) && Moves(mode, m, f, t)
    ensures Exec(mode, s, [e, f]) == Some(t)
  {
    assert [e, f][1..] == [f] && [f][1..] == [];
    assert Exec(mode, m, [f]) == Some(t);
  }

  /** A file is written and snapped, and the daemon has read it. */
  lemma Awaiting(mode: Mode, p: VfsPath) returns (a: State)
    ensures Reachable(mode, map[], a) && a.disk == One(p, [1]) && a.graph == map[]
    ensures a.staging.entries == One(p, StagedEntry(WRITTEN, 7)) && a.lastHost.Keys == {p} && a.mutators == map[]
    ensures 1 in a.flights && a.flights[1].pending == One(p, 7)
    ensures a.commits == map[1 := Carried(3, p, Some([1]))]
  {
    var r := ReachableIsClosed(mode, map[]);
    var first := FirstSnapshot(mode, r, p);
    a := Carry(mode, r, first, 1, p);
  }

  /**
   For any path: a written file, an admission published and acknowledged between the two looks, and a read
   that finds nothing, though the overlay answers the file just before and just after.
   */
  lemma StraddlingReadFindsNothing(mode: Mode, sha: Bytes -> Hash256, p: VfsPath, graph: Graph)
      returns (a: State, b: State, tree: CachedTree, store: Store)
    requires p != ROOT
    ensures Reachable(mode, map[], a) && Exec(mode, a, [Publish(1), Acknowledge(1, ADMISSION)]) == Some(b)
    ensures Validated(tree, sha) && Serves(tree, store, Published(map[], b))
    ensures OverlayReadFile(graph, a.staging, a.disk, p) == Ok([1])
    ensures ReadFileLooking(graph, a.staging, b.staging, b.disk, p) == Err(NotFound)
    ensures OverlayReadFile(TreeGraph(tree, store), b.staging, b.disk, p) == Ok([1])
  {
    a := Awaiting(mode, p);
    var m;
    m, b := Settle(mode, a, 1, p, 7);
    TwoMoves(mode, a, Publish(1), m, Acknowledge(1, ADMISSION), b);
    assert Published(map[], b) == One(p, [1]);
    tree, store := OneFileTree(sha, p, [1]);
    StagedAnswers(graph, a.staging, a.disk, p, 0, 0);
    WholeRange([1], 1);
    assert p in One(p, [1]);
    HeldFile(tree, store, p, [1], 0, 0);
  }
}
