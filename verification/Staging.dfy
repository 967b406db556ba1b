/** What a writer owes the graph: the staged set, its transitions and the writer that holds it. */
module Staging {
  import opened Wrappers
  import opened ByteStrings
  import opened VfsPaths
  import opened TreeLookup

  datatype Staged = Present(stat: VirtualStat) | Removed

  /** `R` is the type of revision identities, of which only equality is ever used. */
  datatype StagedEntry<R> = StagedEntry(staged: Staged, revision: R)

  datatype Admission = Admission(changeId: Bytes, branch: Bytes, fileCount: nat, paths: seq<VfsPath>)

  datatype WriteHealth =
    | Settled(last: Option<Admission>)
    | Pending(paths: seq<VfsPath>)
    | Degraded(paths: seq<VfsPath>, reason: Bytes)

  datatype StagingState<R> = StagingState(
    entries: map<VfsPath, StagedEntry<R>>,
    lastTouch: Option<nat>,
    lastAdmission: Option<Admission>,
    lastError: Option<Bytes>)

  function NothingStaged<R>(): StagingState<R> {
    StagingState(map[], None, None, None)
  }

  function Mark<R>(s: StagingState<R>, path: VfsPath, staged: Staged, revision: R, now: nat): StagingState<R> {
    s.(entries := s.entries[path := StagedEntry(staged, revision)], lastTouch := Some(now), lastError := None)
  }

  /** A second mark of one path replaces the first. */
  lemma Remark<R>(s: StagingState<R>, path: VfsPath, staged: Staged, first: R, last: StagedEntry<R>, now: nat)
    ensures Mark(Mark(s, path, staged, first, now), path, last.staged, last.revision, now) ==
            Mark(s, path, last.staged, last.revision, now)
  {
  }

  /** The (path, revision) pairs an admission carries. */
  function Snapshot<R>(s: StagingState<R>): map<VfsPath, R> {
    map p | p in s.entries :: s.entries[p].revision
  }

  /** Still exactly the mutation that was snapped. */
  predicate Unchanged<R(==)>(s: StagingState<R>, pending: map<VfsPath, R>, p: VfsPath) {
    p in s.entries && p in pending && s.entries[p].revision == pending[p]
  }

  /** A successful admission clears what it carried and nothing that changed meanwhile. */
  function Clear<R(==)>(s: StagingState<R>, pending: map<VfsPath, R>, admission: Admission): StagingState<R> {
    var kept := map p | p in s.entries && !Unchanged(s, pending, p) :: s.entries[p];
    StagingState(kept, if kept == map[] then None else s.lastTouch, Some(admission), None)
  }

  function RecordFailure<R>(s: StagingState<R>, reason: Bytes): StagingState<R> {
    s.(lastError := Some(reason))
  }

  function StagedPaths<R>(s: StagingState<R>): (r: seq<VfsPath>)
    ensures forall p: VfsPath :: p in r <==> p in s.entries
    ensures |r| == |s.entries| && Distinct(r)
  {
    var keys := SortedKeys(s.entries.Keys);
    SortedAreDistinct(keys);
    assert forall i :: 0 <= i < |keys| ==> keys[i] in keys;
    keys
  }

  function Health<R>(s: StagingState<R>): WriteHealth {
    match s.lastError
    case Some(reason) => Degraded(StagedPaths(s), reason)
    case None => if s.entries == map[] then Settled(s.lastAdmission) else Pending(StagedPaths(s))
  }

  function AdmissionDue<R>(s: StagingState<R>, now: nat, debounce: nat): bool {
    s.entries != map[] && (s.lastTouch.Some? ==> now - s.lastTouch.value >= debounce)
  }

  /** A mark starts the quiet period anew; an admission nothing interrupts leaves none due. */
  lemma MarkPostponesAdmission<R>(
    s: StagingState<R>, path: VfsPath, staged: Staged, revision: R, at: nat, now: nat, debounce: nat, admission: Admission)
    ensures AdmissionDue(Mark(s, path, staged, revision, at), now, debounce) <==> now - at >= debounce
    ensures !AdmissionDue(Clear(s, Snapshot(s), admission), now, debounce)
  {
    assert path in Mark(s, path, staged, revision, at).entries;
    UninterruptedClear(s, admission);
  }

  /** An admission nothing interrupts clears everything. */
  lemma UninterruptedClear<R>(s: StagingState<R>, admission: Admission)
    ensures Clear(s, Snapshot(s), admission) == StagingState(map[], None, Some(admission), None)
  {
  }

  lemma SomethingStaged<R>(s: StagingState<R>)
    requires s.entries != map[]
    ensures StagedPaths(s) != []
  {
    var p :| p in s.entries;
    assert p in StagedPaths(s);
  }

  predicate TouchedIffStaged<R>(s: StagingState<R>) {
    s.lastTouch.Some? <==> s.entries != map[]
  }

  /// Host files

  /** A regular file's contents; its length is a `u64`. */
  type File = f: Bytes | |f| < U64_LIMIT witness []

  function Zeros(n: nat): (r: Bytes)
    ensures |r| == n
  {
    seq(n, _ => 0)
  }

  /** Seek and write: bytes before a hole are zero, bytes past the data stay. Writing nothing changes nothing. */
  function Overwrite(old_: Bytes, offset: nat, data: Bytes): (r: Bytes)
    ensures |r| == if data == [] || |old_| > offset + |data| then |old_| else offset + |data|
    ensures forall i :: 0 <= i < |r| ==>
              r[i] == if offset <= i < offset + |data| then data[i - offset] else if i < |old_| then old_[i] else 0
  {
    if data == [] then old_
    else
      var head := if |old_| >= offset then old_[..offset] else old_ + Zeros(offset - |old_|);
      head + data + (if |old_| > offset + |data| then old_[offset + |data|..] else [])
  }

  function Resize(old_: Bytes, size: nat): (r: Bytes)
    ensures |r| == size
    ensures forall i :: 0 <= i < size ==> r[i] == if i < |old_| then old_[i] else 0
  {
    if size <= |old_| then old_[..size] else old_ + Zeros(size - |old_|)
  }

  /** Write then truncate replaces the whole file, whatever was there before. */
  lemma WriteThenTruncate(old_: Bytes, data: Bytes)
    ensures Resize(Overwrite(old_, 0, data), |data|) == data
  {
  }

  /** What a staged disposition says of the file it was taken from. */
  predicate Describes(staged: Staged, content: Option<File>) {
    match staged
    case Present(stat) => content.Some? && stat.size == |content.value|
    case Removed => content.None?
  }

  function FileStat(file: File, mode: nat, mtime: u64): VirtualStat {
    VirtualStat(|file|, true, false, false, mode, mtime, mtime, 1, None)
  }

  /** What a restat says of a regular file; its hash is not known before the graph has it. */
  lemma FileStatTells(file: File, mode: nat, mtime: u64)
    ensures var s := FileStat(file, mode, mtime);
            && s.size == |file| && s.isFile && !s.isDir && !s.isSymlink && s.mode == mode
            && s.mtime == s.ctime == mtime && s.nlink == 1 && s.contentHash.None?
            && Describes(Present(s), Some(file)) && !Describes(Removed, Some(file))
  {
  }

  const MAX_FRAME_BYTES: nat := 16 * 1024 * 1024
  const WRITE_FRAME_OVERHEAD: nat := 64 * 1024
  const MAX_PROJECTION_WRITE: nat := (MAX_FRAME_BYTES - WRITE_FRAME_OVERHEAD) / 2

  /// Whole-file replacement, call by call

  /** Whether the host accepts an operation, and whether the restat after it succeeds. */
  datatype Verdict = Verdict(host: bool, restat: bool)

  predicate Accepted(verdict: Verdict) {
    verdict.host && verdict.restat
  }

  /** The write reaches the file. */
  predicate Lands(data: Bytes, write: Verdict) {
    |data| <= MAX_PROJECTION_WRITE && write.host
  }

  function FileAt(disk: map<VfsPath, File>, path: VfsPath): File {
    if path in disk then disk[path] else []
  }

  /** The file after the write, before the truncate. */
  function Written(disk: map<VfsPath, File>, path: VfsPath, data: File): File {
    Overwrite(FileAt(disk, path), 0, data)
  }

  /** The working copy after a replacement whose two calls met these verdicts. */
  function Replacing(disk: map<VfsPath, File>, path: VfsPath, data: Bytes, write: Verdict, truncate: Verdict)
      : map<VfsPath, File>
  {
    if !Lands(data, write) then disk
    else if write.restat && truncate.host then disk[path := data]
    else disk[path := Written(disk, path, data)]
  }

  lemma Replaced(disk: map<VfsPath, File>, path: VfsPath, data: File)
    ensures disk[path := Written(disk, path, data)][path := Resize(Written(disk, path, data), |data|)] == disk[path := data]
  {
    WriteThenTruncate(FileAt(disk, path), data);
  }

  /** What a write without its truncate leaves: the data, then whatever of the old file lies beyond it. */
  lemma TailSurvives(disk: map<VfsPath, File>, path: VfsPath, data: File)
    ensures Written(disk, path, data) ==
            data + (if |FileAt(disk, path)| > |data| then FileAt(disk, path)[|data|..] else [])
    ensures Written(disk, path, data) == data <==> |FileAt(disk, path)| <= |data|
  {
  }

  /** Replacing `1 2` by `3` with the truncate refused: an error, and a file that is neither. */
  lemma RefusedTruncateMixes(path: VfsPath)
    ensures var disk: map<VfsPath, File> := map[path := [1, 2]];
            var after := Replacing(disk, path, [3], Verdict(true, true), Verdict(false, false));
            path in after && after[path] == [3, 2]
  {
    TailSurvives(map[path := [1, 2]], path, [3]);
  }

  /**
   A failed replacement leaves the working copy as it was exactly when the write did not reach the file, or
   reached it with bytes it already began with and no truncate followed.
   */
  lemma FailedReplacementChangesNothingIff(
    disk: map<VfsPath, File>, path: VfsPath, data: Bytes, write: Verdict, truncate: Verdict)
    requires !(|data| <= MAX_PROJECTION_WRITE && Accepted(write) && Accepted(truncate))
    ensures Replacing(disk, path, data, write, truncate) == disk <==>
            || !Lands(data, write)
            || (path in disk && if write.restat && truncate.host then data == disk[path] else data <= disk[path])
  {
    if Lands(data, write) {
      TailSurvives(disk, path, data);
      var after: map<VfsPath, File> := Replacing(disk, path, data, write, truncate);
      assert path in after;
      if path in disk {
        assert disk[path := disk[path]] == disk;
        if data <= disk[path] { assert data + disk[path][|data|..] == disk[path]; }
      }
    }
  }

  /// The writer

  /** A heap cell whose only content is its identity: `Arc<()>`. */
  class Revision {
    constructor () {}
  }

  /** What one attempt at the commit route comes back with. */
  datatype Attempt = Failed(reason: Bytes) | RefusesAuthor(reason: Bytes) | Committed(changeId: Bytes, branch: Bytes, fileCount: nat)

  class KinDaemonWriter {
    /** The regular files of the working copy, by workspace path. */
    var disk: map<VfsPath, File>
    var staging: StagingState<Revision>

    ghost predicate Valid()
      reads this
    {
      TouchedIffStaged(staging)
    }

    constructor (disk: map<VfsPath, File>)
      ensures Valid() && this.disk == disk && staging == NothingStaged()
    {
      this.disk := disk;
      staging := NothingStaged();
    }

    method MarkEntry(path: VfsPath, staged: Staged, now: nat)
      requires Valid()
      modifies this`staging
      ensures Valid()
      ensures path in staging.entries && fresh(staging.entries[path].revision)
      ensures staging == Mark(old(staging), path, staged, staging.entries[path].revision, now)
    {
      var revision := new Revision();
      staging := Mark(staging, path, staged, revision, now);
      assert path in staging.entries;
    }

    /**
     A write that lands and is restated is staged. A refused one has no effect; one whose restat fails has
     changed the file and staged nothing.
     */
    method WriteAt(path: VfsPath, offset: u64, data: Bytes, verdict: Verdict, mode: nat, mtime: u64, now: nat)
      returns (r: VfsResult<VirtualStat>)
      requires Valid()
      modifies this
      ensures Valid()
      ensures var lands := verdict.host && offset + |data| < U64_LIMIT;
              var before: Bytes := if path in old(disk) then old(disk)[path] else [];
              && (r.Ok? <==> lands && verdict.restat)
              && (!lands ==> disk == old(disk))
              && (lands ==> path in disk && disk == old(disk)[path := Overwrite(before, offset, data)])
      ensures r.Err? ==> r.error == Io && staging == old(staging)
      ensures r.Ok? ==>
                && r.value == FileStat(disk[path], mode, mtime)
                && path in staging.entries && fresh(staging.entries[path].revision)
                && staging == Mark(old(staging), path, Present(r.value), staging.entries[path].revision, now)
    {
      if !verdict.host || offset + |data| >= U64_LIMIT {
        return Err(Io);
      }
      disk := disk[path := Overwrite(if path in disk then disk[path] else [], offset, data)];
      r := MarkPresent(path, verdict.restat, mode, mtime, now);
    }

    method SetLen(path: VfsPath, size: u64, verdict: Verdict, mode: nat, mtime: u64, now: nat)
      returns (r: VfsResult<VirtualStat>)
      requires Valid()
      modifies this
      ensures Valid()
      ensures var lands := verdict.host && path in old(disk);
              && (r.Ok? <==> lands && verdict.restat)
              && disk == if lands then old(disk)[path := Resize(old(disk)[path], size)] else old(disk)
      ensures r.Err? ==> r.error == Io && staging == old(staging)
      ensures r.Ok? ==>
                && r.value == FileStat(disk[path], mode, mtime)
                && path in staging.entries && fresh(staging.entries[path].revision)
                && staging == Mark(old(staging), path, Present(r.value), staging.entries[path].revision, now)
    {
      if !verdict.host || path !in disk {
        return Err(Io);
      }
      disk := disk[path := Resize(disk[path], size)];
      r := MarkPresent(path, verdict.restat, mode, mtime, now);
    }

    /** Restat the path and stage what is found; a failed restat stages nothing. */
    method MarkPresent(path: VfsPath, restat: bool, mode: nat, mtime: u64, now: nat) returns (r: VfsResult<VirtualStat>)
      requires Valid() && path in disk
      modifies this`staging
      ensures Valid()
      ensures r == if restat then Ok(FileStat(disk[path], mode, mtime)) else Err(Io)
      ensures r.Err? ==> staging == old(staging)
      ensures r.Ok? ==>
                && path in staging.entries && fresh(staging.entries[path].revision)
                && staging == Mark(old(staging), path, Present(r.value), staging.entries[path].revision, now)
    {
      if !restat {
        return Err(Io);
      }
      var stat := FileStat(disk[path], mode, mtime);
      MarkEntry(path, Present(stat), now);
      return Ok(stat);
    }

    method Remove(path: VfsPath, host: bool, now: nat) returns (r: VfsResult<()>)
      requires Valid()
      modifies this
      ensures Valid()
      ensures r.Ok? <==> host && path in old(disk)
      ensures r.Err? ==> r.error == Io && disk == old(disk) && staging == old(staging)
      ensures r.Ok? ==>
                && disk == old(disk) - {path}
                && path in staging.entries && fresh(staging.entries[path].revision)
                && staging == Mark(old(staging), path, Removed, staging.entries[path].revision, now)
    {
      if !host || path !in disk {
        return Err(Io);
      }
      disk := disk - {path};
      MarkEntry(path, Removed, now);
      return Ok(());
    }

    /** The contents move and both paths are staged; a failed restat of the target stages only the source. */
    method Rename(from: VfsPath, to: VfsPath, verdict: Verdict, mode: nat, mtime: u64, now: nat) returns (r: VfsResult<()>)
      requires Valid()
      modifies this
      ensures Valid()
      ensures var lands := verdict.host && from in old(disk);
              && (r.Ok? <==> lands && verdict.restat)
              && (r.Err? ==> r.error == Io)
              && (!lands ==> disk == old(disk) && staging == old(staging))
              && (lands ==>
                    && disk == (old(disk) - {from})[to := old(disk)[from]]
                    && from in staging.entries && fresh(staging.entries[from].revision)
                    && var source := Mark(old(staging), from, Removed, staging.entries[from].revision, now);
                       if r.Err? then staging == source
                       else
                         && to in staging.entries && fresh(staging.entries[to].revision)
                         && staging == Mark(source, to, Present(FileStat(disk[to], mode, mtime)),
                                            staging.entries[to].revision, now))
    {
      if !verdict.host || from !in disk {
        return Err(Io);
      }
      disk := (disk - {from})[to := disk[from]];
      MarkEntry(from, Removed, now);
      ghost var first := staging.entries[from].revision;
      var target := MarkPresent(to, verdict.restat, mode, mtime, now);
      if target.Err? {
        return Err(target.error);
      }
      if from == to {
        Remark(old(staging), to, Removed, first, staging.entries[to], now);
        Remark(old(staging), to, Removed, staging.entries[to].revision, staging.entries[to], now);
      }
      return Ok(());
    }

    /**
     `admit_projection_write` of a whole file: write, then truncate to the data's length. It succeeds when
     both calls do, and the file then holds exactly the data. A truncate that is refused after an accepted
     write leaves the data on the old tail, staged.
     */
    method ReplaceWholeFile(path: VfsPath, data: Bytes, write: Verdict, truncate: Verdict, mode: nat, mtime: u64, now: nat)
      returns (r: VfsResult<VirtualStat>)
      requires Valid()
      modifies this
      ensures Valid()
      ensures r.Ok? <==> |data| <= MAX_PROJECTION_WRITE && Accepted(write) && Accepted(truncate)
      ensures r.Err? ==> r.error == if |data| <= MAX_PROJECTION_WRITE then Io else InvalidInput
      ensures disk == Replacing(old(disk), path, data, write, truncate)
      ensures if Lands(data, write) && write.restat
              then
                && path in staging.entries && fresh(staging.entries[path].revision)
                && staging == Mark(old(staging), path, staging.entries[path].staged, staging.entries[path].revision, now)
                && staging.entries[path].staged ==
                     Present(FileStat(if r.Ok? then data else Written(old(disk), path, data), mode, mtime))
              else staging == old(staging)
      ensures r.Ok? ==> r.value == FileStat(data, mode, mtime)
      ensures r.Err? ==>
                (disk == old(disk) && staging == old(staging) <==>
                 !Lands(data, write) || (!write.restat && path in old(disk) && data <= old(disk)[path]))
    {
      if |data| <= MAX_PROJECTION_WRITE && !(Accepted(write) && Accepted(truncate)) {
        FailedReplacementChangesNothingIff(disk, path, data, write, truncate);
      }
      if |data| > MAX_PROJECTION_WRITE {
        return Err(InvalidInput);
      }
      var written := WriteAt(path, 0, data, write, mode, mtime, now);
      if written.Err? {
        return written;
      }
      ghost var first := staging.entries[path];
      Replaced(old(disk), path, data);
      r := SetLen(path, |data|, truncate, mode, mtime, now);
      if r.Ok? { Remark(old(staging), path, first.staged, first.revision, staging.entries[path], now); }
    }

    /**
     `admit`, with nothing else running: snapshot, one request and a second only for a daemon that does
     not know the author field, then clear or record the failure.
     */
    method Admit(endpoint: Result<(), Bytes>, attempt: bool -> Attempt) returns (r: VfsResult<Option<Admission>>)
      requires Valid()
      modifies this`staging
      ensures Valid()
      ensures r == Ok(None) <==> old(staging.entries) == map[]
      ensures r == Ok(None) ==> staging == old(staging)
      ensures r.Ok? && r.value.Some? <==>
                old(staging.entries) != map[] && endpoint.Ok?
                && (attempt(true).Committed? || (attempt(true).RefusesAuthor? && attempt(false).Committed?))
      ensures r.Err? ==>
                var reason := if endpoint.Err? then endpoint.error
                              else if attempt(true).RefusesAuthor? then attempt(false).reason
                              else attempt(true).reason;
                && r == Err(Provider) && staging == old(staging).(lastError := Some(reason))
                && Health(staging) == Degraded(StagedPaths(old(staging)), reason) && StagedPaths(old(staging)) != []
      ensures r.Ok? && r.value.Some? ==>
                var commit := if attempt(true).Committed? then attempt(true) else attempt(false);
                && r.value == Some(Admission(commit.changeId, commit.branch, commit.fileCount, StagedPaths(old(staging))))
                && staging == StagingState(map[], None, r.value, None)
                && Health(staging) == Settled(r.value)
    {
      var pending := Snapshot(staging);
      if staging.entries == map[] {
        return Ok(None);
      }
      SomethingStaged(staging);
      if endpoint.Err? {
        staging := RecordFailure(staging, endpoint.error);
        return Err(Provider);
      }
      var answer := RequestAdmission(attempt);
      if !answer.Committed? {
        staging := RecordFailure(staging, answer.reason);
        return Err(Provider);
      }
      var admission := Admission(answer.changeId, answer.branch, answer.fileCount, StagedPaths(staging));
      UninterruptedClear(staging, admission);
      ClearAdmitted(pending, admission);
      return Ok(Some(admission));
    }

    /** The request loop of `admit`: at most one retry, without the author. */
    method RequestAdmission(attempt: bool -> Attempt) returns (answer: Attempt)
      ensures answer == if attempt(true).RefusesAuthor? then attempt(false) else attempt(true)
    {
      var attributed := true;
      answer := attempt(attributed);
      while attributed && answer.RefusesAuthor?
        invariant attributed ==> answer == attempt(true)
        invariant !attributed ==> attempt(true).RefusesAuthor? && answer == attempt(false)
        decreases attributed
      {
        attributed := false;
        answer := attempt(attributed);
      }
    }

    /** The clearing loop of `admit`: drop each carried entry whose revision is still the snapped one. */
    method ClearAdmitted(pending: map<VfsPath, Revision>, admission: Admission)
      requires Valid()
      modifies this`staging
      ensures Valid()
      ensures staging == Clear(old(staging), pending, admission)
    {
      var entries := staging.entries;
      var todo := pending.Keys;
      while todo != {}
        invariant todo <= pending.Keys
        invariant entries == map p | p in old(staging.entries) && (p in todo || !Unchanged(old(staging), pending, p))
                                   :: old(staging.entries)[p]
        decreases |todo|
      {
        var path :| path in todo;
        if path in entries && entries[path].revision == pending[path] {
          entries := entries - {path};
        }
        todo := todo - {path};
      }
      staging := StagingState(
        entries, if entries == map[] then None else staging.lastTouch, Some(admission), None);
    }
  }
}
