/** The FUSE write path (filesystem.rs, write.rs): dirty handles, and the wait until the graph reports a save. */
module FuseHandles {
  import opened Wrappers
  import opened ByteStrings
  import opened VfsPaths
  import opened Membership
  import opened TreeLookup
  import opened Staging

  datatype Errno = EROFS | EINVAL | EBADF | ENOENT | EIO | Refused

  type FuseResult<+T> = Result<T, Errno>

  datatype OpenHandle = OpenHandle(path: VfsPath, writable: bool, dirty: bool)

  /// Waiting for the graph

  /** What the graph must report: exactly this content, or no such path. */
  datatype Expectation = Holds(digest: Hash256) | Absent

  predicate Converged(expected: Expectation, observed: VfsResult<VirtualStat>) {
    match expected
    case Holds(digest) => observed.Ok? && observed.value.contentHash == Some(digest)
    case Absent => observed == Err(NotFound)
  }

  /** One turn of the polling loop: what the graph reports, and the time once it has. */
  datatype Poll = Poll(observed: VfsResult<VirtualStat>, now: nat)

  function Backoff(i: nat): nat {
    if i == 0 then 10 else if 2 * Backoff(i - 1) <= 100 then 2 * Backoff(i - 1) else 100
  }

  /** A sleep lasts at least as long as asked. */
  ghost predicate Sleeps(polls: nat -> Poll) {
    forall i: nat :: polls(i + 1).now >= polls(i).now + Backoff(i)
  }

  /** Poll `n` decides: it is the first that converged or came at or after the deadline. */
  ghost predicate Decides(polls: nat -> Poll, expected: Expectation, deadline: nat, n: nat) {
    && (Converged(expected, polls(n).observed) || polls(n).now >= deadline)
    && forall j: nat :: j < n ==> !Converged(expected, polls(j).observed) && polls(j).now < deadline
  }

  /** The graph came to report what was expected, in time. */
  ghost predicate GraphTook(polls: nat -> Poll, expected: Expectation, deadline: nat) {
    exists n: nat :: Decides(polls, expected, deadline, n) && Converged(expected, polls(n).observed)
  }

  lemma DecidesOnce(polls: nat -> Poll, expected: Expectation, deadline: nat, m: nat, n: nat)
    requires Decides(polls, expected, deadline, m) && Decides(polls, expected, deadline, n)
    ensures m == n
  {
  }

  lemma Decided(polls: nat -> Poll, expected: Expectation, deadline: nat, n: nat)
    requires Decides(polls, expected, deadline, n)
    ensures GraphTook(polls, expected, deadline) <==> Converged(expected, polls(n).observed)
  {
    forall k: nat | Decides(polls, expected, deadline, k) ensures k == n {
      DecidesOnce(polls, expected, deadline, k, n);
    }
  }

  lemma BackoffBounds(i: nat)
    ensures 10 <= Backoff(i) <= 100
  {
  }

  /**
   Success exactly when the deciding poll saw what was expected; so never early, and after the deadline
   only if that last look succeeded. The loop always ends, after at most one poll per ten milliseconds.
   */
  method AwaitGraph(polls: nat -> Poll, expected: Expectation, deadline: nat) returns (ok: bool, n: nat)
    requires Sleeps(polls)
    ensures Decides(polls, expected, deadline, n)
    ensures ok <==> Converged(expected, polls(n).observed)
    ensures n > 0 ==> polls(0).now + 10 * (n - 1) < deadline
  {
    n := 0;
    var backoff := 10;
    while true
      invariant backoff == Backoff(n)
      invariant polls(n).now >= polls(0).now + 10 * n
      invariant forall j: nat :: j < n ==> !Converged(expected, polls(j).observed) && polls(j).now < deadline
      invariant n > 0 ==> polls(0).now + 10 * (n - 1) < deadline
      decreases if polls(n).now < deadline then deadline - polls(n).now else 0
    {
      var observed := polls(n).observed;
      var converged := match expected {
        case Holds(digest) => observed.Ok? && observed.value.contentHash == Some(digest)
        case Absent => observed.Err? && observed.error == NotFound
      };
      if converged {
        return true, n;
      }
      if polls(n).now >= deadline {
        return false, n;
      }
      BackoffBounds(n);
      n := n + 1;
      backoff := if backoff * 2 <= 100 then backoff * 2 else 100;
    }
  }

  /** The digest of the whole file, read in chunks of any size the host chooses to return. */
  method ProjectionDigest(sha: Bytes -> Hash256, file: Bytes, chunk: nat -> nat) returns (digest: Hash256)
    requires forall i: nat :: chunk(i) > 0
    ensures digest == sha(file)
  {
    var hashed, i := [], 0;
    while |hashed| < |file|
      invariant 0 <= i && hashed <= file
      decreases |file| - |hashed|
    {
      var end := if |hashed| + chunk(i) <= |file| then |hashed| + chunk(i) else |file|;
      hashed := hashed + file[|hashed|..end];
      i := i + 1;
    }
    assert hashed == file;
    return sha(hashed);
  }

  /// What happened, in order

  /**
   `Wrote`: bytes landed on the projection, through an open handle or none. `Measured`: the projection's
   contents were digested, or found absent. `Reported`: the graph answered a lookup.
   */
  datatype Event =
    | Opened(fh: nat)
    | Wrote(through: Option<nat>, path: VfsPath)
    | Measured(path: VfsPath, content: Option<Bytes>)
    | Reported(path: VfsPath, observed: VfsResult<VirtualStat>)

  function Expected(sha: Bytes -> Hash256, content: Option<Bytes>): Expectation {
    match content
    case Some(bytes) => Holds(sha(bytes))
    case None => Absent
  }

  /** The graph does not report these contents, or still reports something where there is no file. */
  predicate Stale(sha: Bytes -> Hash256, content: Option<Bytes>, observed: VfsResult<VirtualStat>) {
    match content
    case Some(bytes) => observed.Err? || observed.value.contentHash != Some(sha(bytes))
    case None => observed != Err(NotFound)
  }

  /** The wait went on while the graph was stale and the deadline had not come, and ended with poll `n`. */
  ghost predicate Waited(sha: Bytes -> Hash256, content: Option<Bytes>, polls: nat -> Poll, deadline: nat, n: nat, ok: bool) {
    && (forall j: nat :: j < n ==> Stale(sha, content, polls(j).observed) && polls(j).now < deadline)
    && (if ok then !Stale(sha, content, polls(n).observed)
        else Stale(sha, content, polls(n).observed) && polls(n).now >= deadline)
  }

  /** The log ends with the graph reporting the digest of the file at `path`, or that there is no such path. */
  ghost predicate ReadBack(sha: Bytes -> Hash256, log: seq<Event>, path: VfsPath, surface: map<VfsPath, File>) {
    && log != [] && log[|log| - 1].Reported? && log[|log| - 1].path == path
    && var observed := log[|log| - 1].observed;
       if path in surface then observed.Ok? && observed.value.contentHash == Some(sha(surface[path]))
       else observed == Err(NotFound)
  }

  /** After event `k`, the projection was measured and the graph then reported exactly what was measured. */
  ghost predicate SettledAfter(sha: Bytes -> Hash256, log: seq<Event>, path: VfsPath, k: int) {
    exists m, r :: 0 <= k < m < r < |log| && Settles(sha, log[m], log[r], path)
  }

  predicate Settles(sha: Bytes -> Hash256, measured: Event, reported: Event, path: VfsPath) {
    && measured.Measured? && measured.path == path
    && reported.Reported? && reported.path == path
    && Converged(Expected(sha, measured.content), reported.observed)
  }

  /** Every write of the handle's own has been settled since. */
  ghost predicate AllSettled(sha: Bytes -> Hash256, log: seq<Event>, fh: nat, path: VfsPath) {
    forall k :: 0 <= k < |log| && WroteThrough(log[k], fh) ==> SettledAfter(sha, log, path, k)
  }

  predicate WroteThrough(e: Event, fh: nat) {
    e.Wrote? && e.through == Some(fh)
  }

  predicate Quiet(more: seq<Event>, fh: nat) {
    forall k :: 0 <= k < |more| ==> !WroteThrough(more[k], fh)
  }

  /** More events, none of them a write of this handle's, leave it settled. */
  lemma StaysSettled(sha: Bytes -> Hash256, log: seq<Event>, more: seq<Event>, fh: nat, path: VfsPath)
    requires AllSettled(sha, log, fh, path) && Quiet(more, fh)
    ensures AllSettled(sha, log + more, fh, path)
  {
    var all := log + more;
    assert forall k :: |log| <= k < |all| ==> all[k] == more[k - |log|];
    forall k | 0 <= k < |log| && WroteThrough(log[k], fh) ensures SettledAfter(sha, all, path, k) {
      var m, r :| k < m < r < |log| && Settles(sha, log[m], log[r], path);
      assert Settles(sha, all[m], all[r], path);
    }
  }

  /** A handle that is not dirty has no unsettled write of its own. */
  ghost predicate AllClean(sha: Bytes -> Hash256, log: seq<Event>, handles: map<nat, OpenHandle>) {
    forall fh :: fh in handles && !handles[fh].dirty ==> AllSettled(sha, log, fh, handles[fh].path)
  }

  lemma StaysClean(sha: Bytes -> Hash256, log: seq<Event>, more: seq<Event>, handles: map<nat, OpenHandle>)
    requires AllClean(sha, log, handles) && forall fh :: fh in handles && !handles[fh].dirty ==> Quiet(more, fh)
    ensures AllClean(sha, log + more, handles)
  {
    forall fh | fh in handles && !handles[fh].dirty ensures AllSettled(sha, log + more, fh, handles[fh].path) {
      StaysSettled(sha, log, more, fh, handles[fh].path);
    }
  }

  /** A measurement and a matching report at the end settle everything before them. */
  lemma SettlesAll(sha: Bytes -> Hash256, log: seq<Event>, m: nat, fh: nat, path: VfsPath)
    requires m < |log| - 1 && Settles(sha, log[m], log[|log| - 1], path)
    requires forall k :: m <= k < |log| ==> !log[k].Wrote?
    ensures AllSettled(sha, log, fh, path)
  {
    forall k | 0 <= k < |log| && WroteThrough(log[k], fh) ensures SettledAfter(sha, log, path, k) {
      assert k < m < |log| - 1 && Settles(sha, log[m], log[|log| - 1], path);
    }
  }

  /** The lookups of one wait. */
  function Reports(path: VfsPath, polls: nat -> Poll, n: nat): (r: seq<Event>)
    ensures |r| == n + 1 && forall i :: 0 <= i <= n ==> r[i] == Reported(path, polls(i).observed)
  {
    seq(n + 1, i requires 0 <= i <= n => Reported(path, polls(i).observed))
  }

  /** What one wait leaves in the log. */
  function Watched(path: VfsPath, content: Option<Bytes>, polls: nat -> Poll, n: nat): (r: seq<Event>)
    ensures forall k :: 0 <= k < |r| ==> !r[k].Opened? && !r[k].Wrote?
  {
    [Measured(path, content)] + Reports(path, polls, n)
  }

  lemma WaitSettles(sha: Bytes -> Hash256, log: seq<Event>, path: VfsPath, content: Option<Bytes>, polls: nat -> Poll, n: nat)
    requires Converged(Expected(sha, content), polls(n).observed)
    ensures forall fh :: AllSettled(sha, log + Watched(path, content, polls, n), fh, path)
  {
    var all := log + Watched(path, content, polls, n);
    assert all[|log|] == Measured(path, content) && all[|all| - 1] == Reported(path, polls(n).observed);
    forall fh ensures AllSettled(sha, all, fh, path) { SettlesAll(sha, all, |log|, fh, path); }
  }

  lemma DecidedIsWaited(
    sha: Bytes -> Hash256, content: Option<Bytes>, polls: nat -> Poll, deadline: nat, n: nat, ok: bool)
    requires Decides(polls, Expected(sha, content), deadline, n)
    requires ok <==> Converged(Expected(sha, content), polls(n).observed)
    ensures Waited(sha, content, polls, deadline, n, ok)
  {
  }

  lemma WaitReadsBack(
    sha: Bytes -> Hash256, log: seq<Event>, path: VfsPath, surface: map<VfsPath, File>, polls: nat -> Poll, n: nat)
    requires !Stale(sha, if path in surface then Some(surface[path]) else None, polls(n).observed)
    ensures ReadBack(sha, log + Watched(path, if path in surface then Some(surface[path]) else None, polls, n), path, surface)
  {
  }

  /// The mount

  /** What the host and the graph do during one wait for the graph. */
  datatype Wait = Wait(synced: bool, digested: bool, polls: nat -> Poll, deadline: nat)

  class KinFuseFs {
    const sha: Bytes -> Hash256
    const writable: bool
    var surface: map<VfsPath, File>
    var inodes: map<nat, VfsPath>
    var handles: map<nat, OpenHandle>
    var nextFh: nat
    ghost var log: seq<Event>

    /** No handle that is not dirty has an unsettled write, and no number was ever issued twice. */
    ghost predicate Valid()
      reads this
    {
      && nextFh >= 1
      && (forall fh :: fh in handles ==> 1 <= fh < nextFh)
      && AllClean(sha, log, handles)
      && Numbered(log, nextFh)
    }

    constructor (sha: Bytes -> Hash256, writable: bool, surface: map<VfsPath, File>, inodes: map<nat, VfsPath>)
      ensures Valid() && handles == map[] && nextFh == 1 && log == []
      ensures this.sha == sha && this.writable == writable && this.surface == surface && this.inodes == inodes
    {
      this.sha := sha;
      this.writable := writable;
      this.surface := surface;
      this.inodes := inodes;
      handles := map[];
      nextFh := 1;
      log := [];
    }

    /** The numbers handed out only grow, so none is ever handed out again. */
    method AllocateHandle(path: VfsPath, writable: bool) returns (fh: nat)
      requires Valid()
      modifies this`handles, this`nextFh, this`log
      ensures Valid()
      ensures fh == old(nextFh) && nextFh == fh + 1 && Opened(fh) !in old(log)
      ensures handles == old(handles)[fh := OpenHandle(path, writable, false)]
      ensures log == old(log) + [Opened(fh)]
    {
      fh := nextFh;
      nextFh := nextFh + 1;
      handles := handles[fh := OpenHandle(path, writable, false)];
      StaysClean(sha, log, [Opened(fh)], handles);
      log := log + [Opened(fh)];
    }

    /** The handle's own path if it may write, the inode's if there is no such handle. */
    function WritePath(ino: nat, fh: nat): (r: FuseResult<VfsPath>)
      reads this
      ensures r.Ok? <==> if fh in handles then handles[fh].writable else ino in inodes
      ensures r.Ok? ==> r.value == if fh in handles then handles[fh].path else inodes[ino]
    {
      if fh in handles then if handles[fh].writable then Ok(handles[fh].path) else Err(EBADF)
      else if ino in inodes then Ok(inodes[ino])
      else Err(ENOENT)
    }

    /** What refuses a write: a handle opened for reading, an unknown inode, or else the host. */
    function PathFault(ino: nat, fh: nat): Errno
      reads this
    {
      if fh in handles then if handles[fh].writable then Refused else EBADF
      else if ino in inodes then Refused else ENOENT
    }

    /** The bytes a write lands on: the projection's, else the graph's regular file, else none. */
    function Base(path: VfsPath, stat: VfsResult<VirtualStat>, body: VfsResult<File>): File
      reads this
    {
      if path in surface then surface[path]
      else if stat.Ok? && stat.value.isFile && body.Ok? then body.value
      else []
    }

    /** The file is on the projection, or the graph has no file there, or its body can be brought over. */
    predicate Ready(path: VfsPath, stat: VfsResult<VirtualStat>, body: VfsResult<File>, host: bool)
      reads this
    {
      path in surface || stat.Err? || !stat.value.isFile || (body.Ok? && host)
    }

    /** Bring a graph artifact onto the projection; `host` is whether the host accepts it. */
    method MaterializeForWrite(path: VfsPath, stat: VfsResult<VirtualStat>, body: VfsResult<File>, host: bool)
      returns (r: FuseResult<()>)
      requires Valid()
      modifies this`surface
      ensures Valid()
      ensures r.Ok? <==> old(Ready(path, stat, body, host))
      ensures r.Err? ==> r.error == Refused && surface == old(surface)
      ensures r.Ok? ==>
                surface == if path in old(surface) || stat.Err? || !stat.value.isFile then old(surface)
                           else old(surface)[path := old(Base(path, stat, body))]
    {
      if path in surface || stat.Err? || !stat.value.isFile {
        return Ok(());
      }
      if body.Err? || !host {
        return Err(Refused);
      }
      surface := surface[path := body.value];
      return Ok(());
    }

    /**
     A write lands on the file's real bytes, whether or not they were checked out, and makes the handle it
     came through dirty. Without such a handle it is not tracked.
     */
    method Write(ino: nat, fh: nat, offset: int, data: Bytes, stat: VfsResult<VirtualStat>, body: VfsResult<File>,
                 materialized: bool, host: bool) returns (r: FuseResult<nat>)
      requires Valid()
      modifies this`surface, this`handles, this`log
      ensures Valid()
      ensures r.Err? ==> r.error == if !writable then EROFS else if offset < 0 then EINVAL else old(PathFault(ino, fh))
      ensures r.Err? ==> handles == old(handles) && log == old(log)
      ensures r.Ok? <==>
                && writable && offset >= 0 && old(WritePath(ino, fh)).Ok? && host && offset + |data| < U64_LIMIT
                && old(Ready(WritePath(ino, fh).value, stat, body, materialized))
      ensures r.Err? && surface != old(surface) ==>
                && writable && offset >= 0 && old(WritePath(ino, fh)).Ok?
                && var path := old(WritePath(ino, fh)).value;
                   && path !in old(surface) && old(Ready(path, stat, body, materialized))
                   && surface == old(surface)[path := old(Base(path, stat, body))]
      ensures r.Ok? ==>
                && r.value == |data|
                && var path := old(WritePath(ino, fh)).value;
                   && surface == old(surface)[path := Overwrite(old(Base(path, stat, body)), offset, data)]
                   && log == old(log) + [Wrote(if fh in old(handles) then Some(fh) else None, path)]
                   && handles == if fh in old(handles) then old(handles)[fh := old(handles)[fh].(dirty := true)]
                                 else old(handles)
    {
      if !writable {
        return Err(EROFS);
      }
      if offset < 0 {
        return Err(EINVAL);
      }
      var path :- WritePath(ino, fh);
      var ready := MaterializeForWrite(path, stat, body, materialized);
      if ready.Err? {
        return Err(ready.error);
      }
      var before := if path in surface then surface[path] else [];
      if !host || offset + |data| >= U64_LIMIT {
        return Err(Refused);
      }
      assert before == old(Base(path, stat, body));
      surface := surface[path := Overwrite(before, offset, data)];
      MarkWritten(fh, path);
      return Ok(|data|);
    }

    method MarkWritten(fh: nat, path: VfsPath)
      requires Valid()
      modifies this`handles, this`log
      ensures Valid()
      ensures log == old(log) + [Wrote(if fh in old(handles) then Some(fh) else None, path)]
      ensures handles == if fh in old(handles) then old(handles)[fh := old(handles)[fh].(dirty := true)]
                         else old(handles)
    {
      ghost var event := Wrote(if fh in handles then Some(fh) else None, path);
      if fh in handles {
        handles := handles[fh := handles[fh].(dirty := true)];
      }
      StaysClean(sha, log, [event], handles);
      log := log + [event];
    }

    function Content(path: VfsPath): Option<Bytes>
      reads this
    {
      if path in surface then Some(surface[path]) else None
    }

    /** Success exactly when the graph, in time, reports what was measured on the projection just before. */
    method Converge(path: VfsPath, wait: Wait) returns (r: FuseResult<()>)
      requires Valid() && Sleeps(wait.polls)
      modifies this`log
      ensures Valid() && old(log) <= log
      ensures r.Ok? <==> (path in surface ==> wait.digested) &&
                         GraphTook(wait.polls, Expected(sha, Content(path)), wait.deadline)
      ensures r.Ok? ==> ReadBack(sha, log, path, surface) && forall fh :: AllSettled(sha, log, fh, path)
      ensures path in surface && !wait.digested ==> r == Err(Refused) && log == old(log)
      ensures (path in surface ==> wait.digested) ==>
                && (r.Ok? || r == Err(EIO))
                && exists n: nat :: && Waited(sha, Content(path), wait.polls, wait.deadline, n, r.Ok?)
                                    && log == old(log) + Watched(path, Content(path), wait.polls, n)
    {
      if path in surface && !wait.digested {
        return Err(Refused);
      }
      var expected := Expected(sha, Content(path));
      var ok, n := AwaitGraph(wait.polls, expected, wait.deadline);
      Decided(wait.polls, expected, wait.deadline, n);
      ghost var more := Watched(path, Content(path), wait.polls, n);
      StaysClean(sha, log, more, handles);
      StaysNumbered(log, more, nextFh);
      DecidedIsWaited(sha, Content(path), wait.polls, wait.deadline, n, ok);
      if ok {
        WaitSettles(sha, log, path, Content(path), wait.polls, n);
        WaitReadsBack(sha, log, path, surface, wait.polls, n);
      }
      log := log + more;
      return if ok then Ok(()) else Err(EIO);
    }

    /** What `flush` and `fsync` wait for. */
    ghost predicate Taken(path: VfsPath, wait: Wait)
      reads this
    {
      && wait.synced && (path in surface ==> wait.digested)
      && GraphTook(wait.polls, Expected(sha, Content(path)), wait.deadline)
    }

    /** A host that does not sync or cannot be read refuses; a graph that does not follow in time is an I/O error. */
    function WaitFault(path: VfsPath, wait: Wait): Errno
      reads this
    {
      if wait.synced && (path in surface ==> wait.digested) then EIO else Refused
    }

    /** Every report up to the deadline was of something else. */
    ghost predicate NeverReadBack(path: VfsPath, wait: Wait)
      reads this
    {
      exists n: nat :: Waited(sha, Content(path), wait.polls, wait.deadline, n, false)
    }

    /** Close: a dirty handle is reported clean exactly when the graph has taken its file, and stays dirty otherwise. */
    method Flush(fh: nat, wait: Wait) returns (r: FuseResult<()>)
      requires Valid() && Sleeps(wait.polls)
      modifies this`handles, this`log
      ensures Valid() && old(log) <= log
      ensures var waits := writable && fh in old(handles) && old(handles)[fh].dirty;
              && (r.Ok? <==> waits ==> Taken(old(handles)[fh].path, wait))
              && (waits && r.Ok? ==> ReadBack(sha, log, old(handles)[fh].path, surface))
              && (r.Err? ==> r.error == WaitFault(old(handles)[fh].path, wait))
              && (waits && r == Err(EIO) ==> NeverReadBack(old(handles)[fh].path, wait))
              && handles == (if waits && r.Ok? then old(handles)[fh := old(handles)[fh].(dirty := false)] else old(handles))
              && (!waits ==> log == old(log))
    {
      if !writable {
        return Ok(());
      }
      if fh !in handles || !handles[fh].dirty {
        return Ok(());
      }
      var path := handles[fh].path;
      if !wait.synced {
        return Err(Refused);
      }
      var taken := Converge(path, wait);
      if taken.Err? {
        return taken;
      }
      handles := handles[fh := handles[fh].(dirty := false)];
      return Ok(());
    }

    /** The same wait for any handle, dirty or not, and for a bare inode. */
    method Fsync(ino: nat, fh: nat, wait: Wait) returns (r: FuseResult<()>)
      requires Valid() && Sleeps(wait.polls)
      modifies this`handles, this`log
      ensures Valid() && old(log) <= log
      ensures !writable ==> r.Ok? && handles == old(handles)
      ensures writable && fh !in old(handles) && ino !in inodes ==> r == Err(ENOENT)
      ensures writable && (fh in old(handles) || ino in inodes) ==>
                var path := if fh in old(handles) then old(handles)[fh].path else inodes[ino];
                && (r.Ok? <==> Taken(path, wait))
                && (r.Ok? ==> ReadBack(sha, log, path, surface))
                && (r.Err? ==> r.error == WaitFault(path, wait))
                && (r == Err(EIO) ==> NeverReadBack(path, wait))
      ensures writable ==> handles == if r.Ok? && fh in old(handles) then old(handles)[fh := old(handles)[fh].(dirty := false)]
                                      else old(handles)
    {
      if !writable {
        return Ok(());
      }
      if fh !in handles && ino !in inodes {
        return Err(ENOENT);
      }
      var path := if fh in handles then handles[fh].path else inodes[ino];
      if !wait.synced {
        return Err(Refused);
      }
      var taken := Converge(path, wait);
      if taken.Err? {
        return taken;
      }
      if fh in handles {
        handles := handles[fh := handles[fh].(dirty := false)];
      }
      return Ok(());
    }

    /** The handle goes whatever happens; a dirty one is still offered to the graph. */
    method Release(fh: nat, wait: Wait)
      requires Valid() && Sleeps(wait.polls)
      modifies this`handles, this`log
      ensures Valid() && old(log) <= log && handles == old(handles) - {fh}
      ensures writable && fh in old(handles) && old(handles)[fh].dirty && Taken(old(handles)[fh].path, wait.(synced := true)) ==>
                AllSettled(sha, log, fh, old(handles)[fh].path)
      ensures !(writable && fh in old(handles) && old(handles)[fh].dirty) ==> log == old(log)
    {
      if fh !in handles {
        assert handles - {fh} == handles;
        return;
      }
      var handle := handles[fh];
      handles := handles - {fh};
      if writable && handle.dirty {
        var _ := Converge(handle.path, wait);
      }
    }

    /** Whatever else changes the projection, between callbacks, leaves the handles as they were. */
    method SurfaceChanges(changed: map<VfsPath, File>)
      requires Valid()
      modifies this`surface
      ensures Valid() && surface == changed
    {
      surface := changed;
    }
  }

  lemma StaysNumbered(log: seq<Event>, more: seq<Event>, next: nat)
    requires Numbered(log, next) && forall k :: 0 <= k < |more| ==> !more[k].Opened? && !more[k].Wrote?
    ensures Numbered(log + more, next)
  {
  }

  /** Numbers issued and written through are below `next`, and no number was issued twice. */
  ghost predicate Numbered(log: seq<Event>, next: nat) {
    && (forall k :: 0 <= k < |log| && log[k].Opened? ==> log[k].fh < next)
    && (forall k :: 0 <= k < |log| && log[k].Wrote? && log[k].through.Some? ==> log[k].through.value < next)
    && (forall j, k :: 0 <= j < k < |log| && log[j].Opened? && log[k].Opened? ==> log[j] != log[k])
  }

  /**
   A write and the close after it, on a file of the projection: the write succeeds, and a close that answers
   Ok has seen the graph take it exactly when the write came through an open handle. Without one the close
   always answers Ok, and at once.
   */
  method WriteThenClose(fs: KinFuseFs, ino: nat, fh: nat, offset: nat, data: Bytes, wait: Wait)
    returns (written: FuseResult<nat>, closed: FuseResult<()>)
    requires fs.Valid() && fs.writable && Sleeps(wait.polls) && offset + |data| < U64_LIMIT
    requires fs.WritePath(ino, fh).Ok? && fs.WritePath(ino, fh).value in fs.surface
    modifies fs
    ensures fs.Valid() && written == Ok(|data|) && |fs.log| > |old(fs.log)|
    ensures var path := old(fs.WritePath(ino, fh)).value;
            && fs.log[|old(fs.log)|] == Wrote(if fh in old(fs.handles) then Some(fh) else None, path)
            && (closed.Ok? && fh in old(fs.handles) ==> ReadBack(fs.sha, fs.log, path, fs.surface))
            && (closed.Ok? ==> (SettledAfter(fs.sha, fs.log, path, |old(fs.log)|) <==> fh in old(fs.handles)))
    ensures fh !in old(fs.handles) ==> closed.Ok? && |fs.log| == |old(fs.log)| + 1
  {
    written := fs.Write(ino, fh, offset, data, Err(NotFound), Err(NotFound), false, true);
    closed := fs.Flush(fh, wait);
    assert fh in fs.handles && closed.Ok? ==> AllSettled(fs.sha, fs.log, fh, fs.handles[fh].path);
    assert fh in fs.handles ==> WroteThrough(fs.log[|old(fs.log)|], fh);
  }
}
