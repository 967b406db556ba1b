/**
 Where a projected write may land (containment.rs): the component walk, over every static filesystem.
 The kernel's `canonicalize` and `symlink_metadata` are functions of the filesystem and its symlink limit.
 */
module Containment {
  import opened Wrappers
  import opened VfsPaths

  /// A static filesystem

  type HostPath = seq<VfsName>

  datatype Step = Down(name: VfsName) | Up

  datatype Node = File | Dir | Link(absolute: bool, target: seq<Step>)

  type Files = map<HostPath, Node>

  /** The root is a directory and everything else is an entry of one. */
  predicate WellFormed(fs: Files) {
    && [] in fs && fs[[]].Dir?
    && forall p {:trigger ParentOf(p)} :: p in fs && p != [] ==> ParentOf(p) in fs && fs[ParentOf(p)].Dir?
  }

  function ParentOf(p: HostPath): HostPath {
    if p == [] then [] else p[..|p| - 1]
  }

  function Downs(names: HostPath): (r: seq<Step>)
    ensures |r| == |names|
  {
    seq(|names|, i requires 0 <= i < |names| => Down(names[i]))
  }

  /// The kernel

  datatype Resolution = Found(path: HostPath) | Absent | NotADirectory | Loop

  datatype Move = Arrive(path: HostPath) | Follow(from: HostPath, target: seq<Step>) | Stop(failure: Resolution)

  /** One step from a resolved location: it arrives, or meets a symlink to follow, or fails. */
  function Next(fs: Files, at: HostPath, step: Step): (r: Move)
    requires WellFormed(fs) && at in fs && !fs[at].Link?
    ensures r.Arrive? ==> r.path in fs && !fs[r.path].Link?
    ensures r.Follow? ==> r.from in fs && !fs[r.from].Link?
    ensures r.Stop? ==> r.failure.Absent? || r.failure.NotADirectory?
  {
    if !fs[at].Dir? then Stop(NotADirectory)
    else match step
      case Up => Arrive(ParentOf(at))
      case Down(name) =>
        if at + [name] !in fs then Stop(Absent)
        else match fs[at + [name]]
          case Link(absolute, target) => Follow(if absolute then [] else at, target)
          case _ => Arrive(at + [name])
  }

  /** Path resolution from the resolved location `at`, following at most `limit` symlinks. */
  function Canon(fs: Files, limit: nat, at: HostPath, steps: seq<Step>): (r: Resolution)
    requires WellFormed(fs) && at in fs && !fs[at].Link?
    ensures r.Found? ==> r.path in fs && !fs[r.path].Link?
    decreases limit, |steps|
  {
    if steps == [] then Found(at)
    else match Next(fs, at, steps[0])
      case Arrive(next) => Canon(fs, limit, next, steps[1..])
      case Follow(from, target) => if limit == 0 then Loop else Canon(fs, limit - 1, from, target + steps[1..])
      case Stop(failure) => failure
  }

  function Canonicalize(fs: Files, limit: nat, path: seq<Step>): Resolution
    requires WellFormed(fs)
  {
    Canon(fs, limit, [], path)
  }

  /**
   A relative symlink leads on from the directory that holds it and an absolute one from the root, each with
   what is left of the path behind its target, and each spends one of the symlinks allowed; `..` leads to the
   parent; nothing can be looked up in a file, nor a name that is not there.
   */
  lemma KernelLooksUp(fs: Files, limit: nat, at: HostPath, name: VfsName, rest: seq<Step>)
    requires WellFormed(fs) && at in fs && !fs[at].Link?
    ensures var r, child := Canon(fs, limit, at, [Down(name)] + rest), at + [name];
            if fs[at].File? then r == NotADirectory
            else if child !in fs then r == Absent
            else match fs[child]
              case Link(absolute, target) =>
                if limit == 0 then r == Loop
                else r == Canon(fs, limit - 1, if absolute then [] else at, target + rest)
              case _ => r == Canon(fs, limit, child, rest)
    ensures fs[at].Dir? ==>
              && ParentOf(at) == (if at == [] then [] else at[..|at| - 1])
              && Canon(fs, limit, at, [Up] + rest) == Canon(fs, limit, ParentOf(at), rest)
  {
    assert ([Down(name)] + rest)[1..] == rest && ([Up] + rest)[1..] == rest;
  }

  datatype Metadata = Entry(node: Node) | Missing | Failed

  /** `symlink_metadata`: the last name is looked up in its resolved parent and not followed. */
  function SymlinkMetadata(fs: Files, limit: nat, path: HostPath): Metadata
    requires WellFormed(fs)
  {
    if path == [] then Entry(fs[path])
    else match Canonicalize(fs, limit, Downs(ParentOf(path)))
      case Found(dir) =>
        if !fs[dir].Dir? then Failed
        else if dir + [path[|path| - 1]] in fs then Entry(fs[dir + [path[|path| - 1]]])
        else Missing
      case Absent => Missing
      case _ => Failed
  }

  /// The walk

  /** Where the walk goes for a name it must resolve. */
  function Advance(fs: Files, limit: nat, base: HostPath, candidate: HostPath): VfsResult<HostPath>
    requires WellFormed(fs)
  {
    match SymlinkMetadata(fs, limit, candidate)
    case Missing => Ok(candidate)
    case Failed => Err(VfsError.Io)
    case Entry(Link(_, _)) =>
      (match Canonicalize(fs, limit, Downs(candidate))
       case Found(resolved) => if base <= resolved then Ok(resolved) else Err(EscapesRoot)
       case _ => Err(EscapesRoot))
    case Entry(_) => Ok(candidate)
  }

  /** What is left of the walk from `current`. */
  function Walk(fs: Files, limit: nat, base: HostPath, current: HostPath, names: HostPath, followLeaf: bool)
      : VfsResult<HostPath>
    requires WellFormed(fs)
    decreases |names|
  {
    if names == [] then Ok(current)
    else if |names| == 1 && !followLeaf then Ok(current + [names[0]])
    else match Advance(fs, limit, base, current + [names[0]])
      case Ok(next) => Walk(fs, limit, base, next, names[1..], followLeaf)
      case Err(error) => Err(error)
  }

  function Contained(fs: Files, limit: nat, root: seq<Step>, names: HostPath, followLeaf: bool): VfsResult<HostPath>
    requires WellFormed(fs)
  {
    match Canonicalize(fs, limit, root)
    case Found(base) => Walk(fs, limit, base, base, names, followLeaf)
    case _ => Err(VfsError.Io)
  }

  method Resolve(fs: Files, limit: nat, root: seq<Step>, names: HostPath, followLeaf: bool) returns (r: VfsResult<HostPath>)
    requires WellFormed(fs)
    ensures r == Contained(fs, limit, root, names, followLeaf)
  {
    var canonical := Canonicalize(fs, limit, root);
    if !canonical.Found? {
      return Err(VfsError.Io);
    }
    var base := canonical.path;
    var current := base;
    var i := 0;
    while i < |names|
      invariant 0 <= i <= |names|
      invariant Walk(fs, limit, base, base, names, followLeaf) == Walk(fs, limit, base, current, names[i..], followLeaf)
    {
      var candidate := current + [names[i]];
      assert names[i..][1..] == names[i + 1..];
      if i + 1 == |names| && !followLeaf {
        return Ok(candidate);
      }
      var meta := SymlinkMetadata(fs, limit, candidate);
      if meta.Failed? {
        return Err(VfsError.Io);
      }
      if meta.Entry? && meta.node.Link? {
        var resolved := Canonicalize(fs, limit, Downs(candidate));
        if !resolved.Found? || !(base <= resolved.path) {
          return Err(EscapesRoot);
        }
        current := resolved.path;
      } else {
        current := candidate;
      }
      i := i + 1;
    }
    return Ok(current);
  }

  /// The kernel's resolution composes

  /** A larger symlink limit changes nothing but refusals for too many symlinks. */
  lemma {:induction false} MoreSymlinks(fs: Files, limit: nat, more: nat, at: HostPath, steps: seq<Step>)
    requires WellFormed(fs) && at in fs && !fs[at].Link? && limit <= more
    ensures Canon(fs, limit, at, steps) != Loop ==> Canon(fs, more, at, steps) == Canon(fs, limit, at, steps)
    decreases limit, |steps|
  {
    if steps != [] {
      match Next(fs, at, steps[0])
      case Arrive(next) => MoreSymlinks(fs, limit, more, next, steps[1..]);
      case Follow(from, target) =>
        if limit > 0 { MoreSymlinks(fs, limit - 1, more - 1, from, target + steps[1..]); }
      case Stop(_) =>
    }
  }

  lemma Tail(a: seq<Step>, b: seq<Step>)
    requires a != []
    ensures (a + b)[0] == a[0] && (a + b)[1..] == a[1..] + b
  {
  }

  lemma Regroup(a: seq<Step>, b: seq<Step>, c: seq<Step>)
    ensures (a + b) + c == a + (b + c)
  {
  }

  /** What resolves as a whole resolves in two parts; a failure in the first part is the whole's failure. */
  lemma {:induction false} Decompose(fs: Files, limit: nat, at: HostPath, a: seq<Step>, b: seq<Step>)
    requires WellFormed(fs) && at in fs && !fs[at].Link?
    ensures var first, whole := Canon(fs, limit, at, a), Canon(fs, limit, at, a + b);
            if first.Found? then whole.Found? ==> Canon(fs, limit, first.path, b) == whole
            else whole == first
    decreases limit, |a|
  {
    if a == [] {
      assert a + b == b;
    } else {
      Tail(a, b);
      match Next(fs, at, a[0])
      case Arrive(next) => Decompose(fs, limit, next, a[1..], b);
      case Follow(from, target) =>
        if limit > 0 {
          Regroup(target, a[1..], b);
          Decompose(fs, limit - 1, from, target + a[1..], b);
          var first := Canon(fs, limit, at, a);
          if first.Found? { MoreSymlinks(fs, limit - 1, limit, first.path, b); }
        }
      case Stop(_) =>
    }
  }

  /** Symlink budgets add up along a path. */
  lemma {:induction false} Compose(fs: Files, a: nat, b: nat, at: HostPath, x: seq<Step>, m: HostPath, y: seq<Step>)
    requires WellFormed(fs) && at in fs && !fs[at].Link? && Canon(fs, a, at, x) == Found(m)
    requires Canon(fs, b, m, y) != Loop
    ensures Canon(fs, a + b, at, x + y) == Canon(fs, b, m, y)
    decreases a, |x|
  {
    if x == [] {
      assert x + y == y;
      MoreSymlinks(fs, b, a + b, m, y);
    } else {
      Tail(x, y);
      match Next(fs, at, x[0])
      case Arrive(next) => Compose(fs, a, b, next, x[1..], m, y);
      case Follow(from, target) =>
        Regroup(target, x[1..], y);
        Compose(fs, a - 1, b, from, target + x[1..], m, y);
    }
  }

  /// Locations the walk can reach

  /** Below a directory, at a name that does not exist. */
  predicate Hanging(fs: Files, p: HostPath)
    requires WellFormed(fs)
    decreases |p|
  {
    p != [] && p !in fs &&
    if ParentOf(p) in fs then fs[ParentOf(p)].Dir? else Hanging(fs, ParentOf(p))
  }

  /** Fully resolved: an existing file or directory, or a place that does not exist yet. */
  predicate Resolved(fs: Files, p: HostPath)
    requires WellFormed(fs)
  {
    if p in fs then !fs[p].Link? else Hanging(fs, p)
  }

  ghost predicate NoSymlink(fs: Files, p: HostPath) {
    forall j :: 0 <= j <= |p| && p[..j] in fs ==> !fs[p[..j]].Link?
  }

  lemma {:induction false} PrefixIsDirectory(fs: Files, p: HostPath, k: nat)
    requires WellFormed(fs) && p in fs && k < |p|
    ensures p[..k] in fs && fs[p[..k]].Dir?
    decreases |p|
  {
    var up := ParentOf(p);
    if k < |up| {
      PrefixIsDirectory(fs, up, k);
      assert up[..k] == p[..k];
    } else {
      assert p[..k] == up;
    }
  }

  lemma {:induction false} ResolvedHasNoSymlink(fs: Files, p: HostPath)
    requires WellFormed(fs) && Resolved(fs, p)
    ensures NoSymlink(fs, p)
    decreases |p|
  {
    forall j | 0 <= j <= |p| && p[..j] in fs ensures !fs[p[..j]].Link? {
      if j == |p| {
        assert p[..j] == p;
      } else if p in fs {
        PrefixIsDirectory(fs, p, j);
      } else {
        ResolvedHasNoSymlink(fs, ParentOf(p));
        assert ParentOf(p)[..j] == p[..j];
      }
    }
  }

  lemma DownsUncons(names: HostPath, rest: seq<Step>)
    requires names != []
    ensures (Downs(names) + rest)[0] == Down(names[0])
    ensures (Downs(names) + rest)[1..] == Downs(names[1..]) + rest
  {
  }

  lemma Uncons<T>(at: seq<T>, names: seq<T>)
    requires names != []
    ensures (at + names)[..|at|] == at && (at + names)[..|at| + 1] == at + [names[0]]
    ensures at + [names[0]] + names[1..] == at + names
    ensures |names| == 1 ==> at + [names[0]] == at + names
  {
  }

  lemma NextOnTheWay(fs: Files, at: HostPath, names: HostPath)
    requires WellFormed(fs) && names != [] && at + names in fs && !fs[at + names].Link?
    ensures at in fs && fs[at].Dir?
    ensures var next := at + [names[0]]; next in fs && !fs[next].Link? && next + names[1..] == at + names
  {
    Uncons(at, names);
    PrefixIsDirectory(fs, at + names, |at|);
    if |names| > 1 { PrefixIsDirectory(fs, at + names, |at| + 1); }
  }

  /** Down an existing path, no symlink is met on the way. */
  lemma {:induction false} Straight(fs: Files, limit: nat, at: HostPath, names: HostPath, rest: seq<Step>)
    requires WellFormed(fs) && at in fs && !fs[at].Link? && at + names in fs && !fs[at + names].Link?
    ensures Canon(fs, limit, at, Downs(names) + rest) == Canon(fs, limit, at + names, rest)
    decreases |names|
  {
    if names == [] {
      assert at + names == at && Downs(names) + rest == rest;
    } else {
      NextOnTheWay(fs, at, names);
      DownsUncons(names, rest);
      Straight(fs, limit, at + [names[0]], names[1..], rest);
    }
  }

  /** The kernel finds a resolved place where it is, or finds it absent. */
  lemma {:induction false} KernelAtResolved(fs: Files, limit: nat, p: HostPath)
    requires WellFormed(fs) && Resolved(fs, p)
    ensures Canonicalize(fs, limit, Downs(p)) == if p in fs then Found(p) else Absent
    decreases |p|
  {
    if p in fs {
      assert [] + p == p && Downs(p) + [] == Downs(p);
      Straight(fs, limit, [], p, []);
    } else {
      var up, last := ParentOf(p), [Down(p[|p| - 1])];
      assert Downs(p) == Downs(up) + last && up + [p[|p| - 1]] == p && [] + up == up;
      if up in fs {
        Straight(fs, limit, [], up, last);
      } else {
        KernelAtResolved(fs, limit, up);
        Decompose(fs, limit, [], Downs(up), last);
      }
    }
  }

  /** What one step from a resolved place does: one kernel step, confined to the root. */
  lemma AdvanceBelow(fs: Files, limit: nat, base: HostPath, current: HostPath, name: VfsName)
    requires WellFormed(fs) && Resolved(fs, current) && base <= current
    ensures Advance(fs, limit, base, current + [name]) ==
            if current !in fs then Ok(current + [name])
            else match Canon(fs, limit, current, [Down(name)])
              case Found(p) => if base <= p then Ok(p) else Err(EscapesRoot)
              case Absent => if current + [name] in fs then Err(EscapesRoot) else Ok(current + [name])
              case NotADirectory => if fs[current].File? then Err(VfsError.Io) else Err(EscapesRoot)
              case Loop => Err(EscapesRoot)
    ensures current !in fs || (fs[current].Dir? && current + [name] !in fs) ==> Hanging(fs, current + [name])
  {
    var candidate := current + [name];
    assert ParentOf(candidate) == current;
    KernelAtResolved(fs, limit, current);
    if candidate in fs { FollowBelow(fs, limit, current, name); }
  }

  /** Canonicalizing a name in a directory is one kernel step from that directory. */
  lemma FollowBelow(fs: Files, limit: nat, current: HostPath, name: VfsName)
    requires WellFormed(fs) && current in fs && fs[current].Dir?
    ensures Canonicalize(fs, limit, Downs(current + [name])) == Canon(fs, limit, current, [Down(name)])
  {
    assert [] + current == current;
    assert Downs(current + [name]) == Downs(current) + [Down(name)];
    Straight(fs, limit, [], current, [Down(name)]);
  }

  /** What the kernel makes of a path that leads to `q`. */
  function Ends(fs: Files, q: HostPath): Resolution {
    if q in fs then Found(q) else Absent
  }

  lemma AdvanceStays(fs: Files, limit: nat, base: HostPath, at: HostPath, name: VfsName, m: HostPath)
    requires WellFormed(fs) && Resolved(fs, at) && base <= at && Advance(fs, limit, base, at + [name]) == Ok(m)
    ensures base <= m && Resolved(fs, m)
    ensures if at in fs then Canon(fs, limit, at, [Down(name)]) == Ends(fs, m) && (m !in fs ==> at + [name] !in fs)
            else m !in fs
  {
    AdvanceBelow(fs, limit, base, at, name);
  }

  /// Containment

  /** A successful walk ends under the root, at a resolved place (when the leaf is followed). */
  lemma {:induction false} WalkStaysInside(fs: Files, limit: nat, base: HostPath, current: HostPath, names: HostPath)
    requires WellFormed(fs) && Resolved(fs, current) && base <= current
    ensures var r := Walk(fs, limit, base, current, names, true);
            r.Ok? ==> base <= r.value && Resolved(fs, r.value)
    decreases |names|
  {
    if names != [] {
      var step := Advance(fs, limit, base, current + [names[0]]);
      if step.Ok? {
        AdvanceStays(fs, limit, base, current, names[0], step.value);
        WalkStaysInside(fs, limit, base, step.value, names[1..]);
      }
    }
  }

  /** Leaving the leaf unfollowed is following everything above it and appending the leaf's name. */
  lemma {:induction false} WalkEntry(fs: Files, limit: nat, base: HostPath, current: HostPath, names: HostPath)
    requires WellFormed(fs) && names != []
    ensures var parent := Walk(fs, limit, base, current, ParentOf(names), true);
            Walk(fs, limit, base, current, names, false) ==
              if parent.Ok? then Ok(parent.value + [names[|names| - 1]]) else parent
    decreases |names|
  {
    if |names| > 1 {
      assert ParentOf(names)[1..] == ParentOf(names[1..]);
      var step := Advance(fs, limit, base, current + [names[0]]);
      if step.Ok? { WalkEntry(fs, limit, base, step.value, names[1..]); }
    }
  }

  /// Agreement with the kernel

  ghost predicate Under(base: HostPath, r: Resolution) {
    r.Found? && base <= r.path
  }

  /** Resolved from `at`, no prefix of `names` leaves `base`. */
  ghost predicate NeverLeaves(fs: Files, limit: nat, base: HostPath, at: HostPath, names: HostPath)
    requires WellFormed(fs) && at in fs && !fs[at].Link?
  {
    forall i :: 0 <= i <= |names| ==> Under(base, Canon(fs, limit, at, Downs(names[..i])))
  }

  lemma DownsSplit(names: HostPath, i: nat)
    requires i <= |names|
    ensures Downs(names) == Downs(names[..i]) + Downs(names[i..])
  {
  }

  lemma DownsFirst(names: HostPath, i: nat)
    requires 0 < i <= |names|
    ensures Downs(names[..i]) == [Down(names[0])] + Downs(names[1..][..i - 1])
  {
  }

  /** One name on: what resolves from `at` resolves alike from where the first name leads. */
  lemma AfterFirst(fs: Files, limit: nat, at: HostPath, names: HostPath)
    requires WellFormed(fs) && at in fs && !fs[at].Link? && names != []
    requires Canon(fs, limit, at, Downs(names)).Found?
    ensures var first := Canon(fs, limit, at, [Down(names[0])]);
            first.Found? && Canon(fs, limit, first.path, Downs(names[1..])) == Canon(fs, limit, at, Downs(names))
  {
    var head := [Down(names[0])];
    assert names[..|names|] == names && names[1..][..|names| - 1] == names[1..];
    DownsFirst(names, |names|);
    Decompose(fs, limit, at, head, Downs(names[1..]));
  }

  lemma PrefixFound(fs: Files, limit: nat, at: HostPath, names: HostPath, i: nat)
    requires WellFormed(fs) && at in fs && !fs[at].Link? && i <= |names|
    requires Canon(fs, limit, at, Downs(names)).Found?
    ensures Canon(fs, limit, at, Downs(names[..i])).Found?
  {
    DownsSplit(names, i);
    Decompose(fs, limit, at, Downs(names[..i]), Downs(names[i..]));
  }

  lemma NeverLeavesAfterFirst(fs: Files, limit: nat, base: HostPath, at: HostPath, names: HostPath)
    requires WellFormed(fs) && at in fs && !fs[at].Link? && names != [] && base <= at
    requires Canon(fs, limit, at, Downs(names)).Found? && Canon(fs, limit, at, [Down(names[0])]).Found?
    ensures NeverLeaves(fs, limit, base, at, names) <==>
            NeverLeaves(fs, limit, base, Canon(fs, limit, at, [Down(names[0])]).path, names[1..])
  {
    var m := Canon(fs, limit, at, [Down(names[0])]).path;
    forall i | 0 <= i < |names|
      ensures Canon(fs, limit, at, Downs(names[..i + 1])) == Canon(fs, limit, m, Downs(names[1..][..i]))
    {
      PrefixFound(fs, limit, at, names, i + 1);
      AfterFirst(fs, limit, at, names[..i + 1]);
      assert names[..i + 1][1..] == names[1..][..i];
    }
    if NeverLeaves(fs, limit, base, at, names) {
      forall i | 0 <= i <= |names| - 1 ensures Under(base, Canon(fs, limit, m, Downs(names[1..][..i]))) {
        assert Under(base, Canon(fs, limit, at, Downs(names[..i + 1])));
      }
    }
    if NeverLeaves(fs, limit, base, m, names[1..]) {
      forall i | 0 <= i <= |names| ensures Under(base, Canon(fs, limit, at, Downs(names[..i]))) {
        if i > 0 { assert Under(base, Canon(fs, limit, m, Downs(names[1..][..i - 1]))); }
      }
    }
  }

  /** Where the kernel resolves the whole path, the walk arrives there, or refuses if any prefix leaves the root. */
  lemma {:induction false} WalkAgrees(fs: Files, limit: nat, base: HostPath, at: HostPath, names: HostPath)
    requires WellFormed(fs) && at in fs && !fs[at].Link? && base <= at
    requires Canon(fs, limit, at, Downs(names)).Found?
    ensures Walk(fs, limit, base, at, names, true) ==
            if NeverLeaves(fs, limit, base, at, names) then Ok(Canon(fs, limit, at, Downs(names)).path)
            else Err(EscapesRoot)
    decreases |names|
  {
    if names == [] {
      assert forall i :: 0 <= i <= |names| ==> names[..i] == [];
    } else {
      AfterFirst(fs, limit, at, names);
      AdvanceBelow(fs, limit, base, at, names[0]);
      NeverLeavesAfterFirst(fs, limit, base, at, names);
      var m := Canon(fs, limit, at, [Down(names[0])]).path;
      if base <= m {
        WalkAgrees(fs, limit, base, m, names[1..]);
      } else {
        assert names[..1] == [names[0]] && Downs(names[..1]) == [Down(names[0])];
      }
    }
  }

  /** Symlinks enough for a walk of `n` names, each followed with its own `limit`. */
  function Enough(limit: nat, n: nat): nat {
    if n == 0 then 0 else limit + Enough(limit, n - 1)
  }

  lemma {:induction false} WalkIsKernel(fs: Files, limit: nat, base: HostPath, at: HostPath, names: HostPath, q: HostPath)
    requires WellFormed(fs) && Resolved(fs, at) && base <= at
    requires Walk(fs, limit, base, at, names, true) == Ok(q)
    ensures if at in fs then Canon(fs, Enough(limit, |names|), at, Downs(names)) == Ends(fs, q) else q !in fs
    decreases |names|
  {
    if names != [] {
      var m := Advance(fs, limit, base, at + [names[0]]).value;
      AdvanceStays(fs, limit, base, at, names[0], m);
      WalkIsKernel(fs, limit, base, m, names[1..], q);
      if at in fs { OneMore(fs, limit, Enough(limit, |names| - 1), at, names, m, q); }
    }
  }

  /** From where one name leads to where all lead. */
  lemma OneMore(fs: Files, limit: nat, rest: nat, at: HostPath, names: HostPath, m: HostPath, q: HostPath)
    requires WellFormed(fs) && at in fs && !fs[at].Link? && names != []
    requires Canon(fs, limit, at, [Down(names[0])]) == Ends(fs, m)
    requires if m in fs then Canon(fs, rest, m, Downs(names[1..])) == Ends(fs, q)
             else q !in fs && at + [names[0]] !in fs
    ensures Canon(fs, limit + rest, at, Downs(names)) == Ends(fs, q)
  {
    var head := [Down(names[0])];
    assert Downs(names) == head + Downs(names[1..]);
    if m in fs {
      Compose(fs, limit, rest, at, head, m, Downs(names[1..]));
    } else {
      Decompose(fs, limit + rest, at, head, Downs(names[1..]));
    }
  }

  /// Refusals

  /** From `at`, the name cannot be taken: below a file, or a symlink that leads nowhere or outside. */
  predicate Blocked(fs: Files, limit: nat, base: HostPath, at: HostPath, name: VfsName, error: VfsError)
    requires WellFormed(fs)
  {
    at in fs &&
    if fs[at].File? then error == VfsError.Io
    else
      && error == EscapesRoot
      && at + [name] in fs && fs[at + [name]].Link?
      && var r := Canonicalize(fs, limit, Downs(at + [name]));
         r.Found? ==> !(base <= r.path)
  }

  lemma {:induction false} WalkSplits(fs: Files, limit: nat, base: HostPath, at: HostPath, names: HostPath, i: nat)
    requires WellFormed(fs) && i <= |names|
    ensures var first := Walk(fs, limit, base, at, names[..i], true);
            Walk(fs, limit, base, at, names, true) ==
              if first.Ok? then Walk(fs, limit, base, first.value, names[i..], true) else first
    decreases i
  {
    if i == 0 {
      assert names[i..] == names;
    } else {
      assert names[..i][1..] == names[1..][..i - 1] && names[i..] == names[1..][i - 1..];
      var step := Advance(fs, limit, base, at + [names[0]]);
      if step.Ok? { WalkSplits(fs, limit, base, step.value, names[1..], i - 1); }
    }
  }

  lemma AdvanceRefuses(fs: Files, limit: nat, base: HostPath, at: HostPath, name: VfsName, error: VfsError)
    requires WellFormed(fs) && Resolved(fs, at) && base <= at
    ensures Advance(fs, limit, base, at + [name]) == Err(error) <==> Blocked(fs, limit, base, at, name, error)
  {
    AdvanceBelow(fs, limit, base, at, name);
    if at in fs && fs[at].Dir? { FollowBelow(fs, limit, at, name); }
  }

  /** The walk fails at `i`: everything before arrives somewhere, where the next name is blocked. */
  ghost predicate FailsAt(fs: Files, limit: nat, base: HostPath, at: HostPath, names: HostPath, error: VfsError, i: nat)
    requires WellFormed(fs)
  {
    i < |names| && var first := Walk(fs, limit, base, at, names[..i], true);
    first.Ok? && Blocked(fs, limit, base, first.value, names[i], error)
  }

  lemma {:induction false} WalkRefuses(fs: Files, limit: nat, base: HostPath, at: HostPath, names: HostPath, error: VfsError)
      returns (i: nat)
    requires WellFormed(fs) && Resolved(fs, at) && base <= at && Walk(fs, limit, base, at, names, true) == Err(error)
    ensures FailsAt(fs, limit, base, at, names, error, i)
    decreases |names|
  {
    var step := Advance(fs, limit, base, at + [names[0]]);
    if step.Ok? {
      AdvanceStays(fs, limit, base, at, names[0], step.value);
      var k := WalkRefuses(fs, limit, base, step.value, names[1..], error);
      i := k + 1;
      assert names[..i][1..] == names[1..][..k];
    } else {
      AdvanceRefuses(fs, limit, base, at, names[0], error);
      i := 0;
    }
  }

  lemma BlockedWalkRefuses(fs: Files, limit: nat, base: HostPath, at: HostPath, names: HostPath, error: VfsError, i: nat)
    requires WellFormed(fs) && Resolved(fs, at) && base <= at && FailsAt(fs, limit, base, at, names, error, i)
    ensures Walk(fs, limit, base, at, names, true) == Err(error)
  {
    WalkSplits(fs, limit, base, at, names, i);
    WalkStaysInside(fs, limit, base, at, names[..i]);
    AdvanceRefuses(fs, limit, base, Walk(fs, limit, base, at, names[..i], true).value, names[i], error);
  }

  /// What the two entry points promise

  /** Whatever the filesystem, an accepted target is under the canonical root and crosses no symlink. */
  lemma TargetIsContained(fs: Files, limit: nat, root: seq<Step>, names: HostPath)
    requires WellFormed(fs) && Contained(fs, limit, root, names, true).Ok?
    ensures var base, q := Canonicalize(fs, limit, root).path, Contained(fs, limit, root, names, true).value;
            base <= q && Resolved(fs, q) && NoSymlink(fs, q)
  {
    WalkStaysInside(fs, limit, Canonicalize(fs, limit, root).path, Canonicalize(fs, limit, root).path, names);
    ResolvedHasNoSymlink(fs, Contained(fs, limit, root, names, true).value);
  }

  lemma PrefixFromRoot(fs: Files, limit: nat, root: seq<Step>, names: HostPath, i: nat)
    requires WellFormed(fs) && i <= |names| && Canonicalize(fs, limit, root + Downs(names)).Found?
    requires Canonicalize(fs, limit, root).Found?
    ensures Canonicalize(fs, limit, root + Downs(names[..i])) ==
            Canon(fs, limit, Canonicalize(fs, limit, root).path, Downs(names[..i]))
  {
    DownsSplit(names, i);
    assert root + Downs(names) == (root + Downs(names[..i])) + Downs(names[i..]);
    Decompose(fs, limit, [], root + Downs(names[..i]), Downs(names[i..]));
    Decompose(fs, limit, [], root, Downs(names[..i]));
  }

  /**
   Where the kernel resolves root and path, the target is exactly what it resolves to, unless some
   prefix of the path leaves the root: then, and only then, it is refused.
   */
  lemma TargetIsCanonical(fs: Files, limit: nat, root: seq<Step>, names: HostPath)
    requires WellFormed(fs) && Canonicalize(fs, limit, root + Downs(names)).Found?
    ensures Canonicalize(fs, limit, root).Found?
    ensures Contained(fs, limit, root, names, true) ==
            if forall i :: 0 <= i <= |names| ==>
                 Under(Canonicalize(fs, limit, root).path, Canonicalize(fs, limit, root + Downs(names[..i])))
            then Ok(Canonicalize(fs, limit, root + Downs(names)).path)
            else Err(EscapesRoot)
  {
    Decompose(fs, limit, [], root, Downs(names));
    var base := Canonicalize(fs, limit, root).path;
    forall i | 0 <= i <= |names|
      ensures Canonicalize(fs, limit, root + Downs(names[..i])) == Canon(fs, limit, base, Downs(names[..i]))
    {
      PrefixFromRoot(fs, limit, root, names, i);
    }
    assert names[..|names|] == names;
    WalkAgrees(fs, limit, base, base, names);
  }

  /** An accepted target is what a kernel with symlinks enough makes of root and path; a missing one is missing there too. */
  lemma AcceptedTargetIsKernels(fs: Files, limit: nat, root: seq<Step>, names: HostPath)
    requires WellFormed(fs) && Contained(fs, limit, root, names, true).Ok?
    ensures Canonicalize(fs, Enough(limit, |names| + 1), root + Downs(names)) ==
            Ends(fs, Contained(fs, limit, root, names, true).value)
  {
    var base := Canonicalize(fs, limit, root).path;
    WalkIsKernel(fs, limit, base, base, names, Contained(fs, limit, root, names, true).value);
    Compose(fs, limit, Enough(limit, |names|), [], root, base, Downs(names));
  }

  /** A target under an existing root is refused exactly when some component is blocked, with that error. */
  lemma TargetRefusedIffBlocked(fs: Files, limit: nat, root: seq<Step>, names: HostPath, error: VfsError)
    requires WellFormed(fs) && Canonicalize(fs, limit, root).Found?
    ensures var base := Canonicalize(fs, limit, root).path;
            Contained(fs, limit, root, names, true) == Err(error) <==>
            exists i: nat :: FailsAt(fs, limit, base, base, names, error, i)
  {
    var base := Canonicalize(fs, limit, root).path;
    if Contained(fs, limit, root, names, true) == Err(error) {
      var i := WalkRefuses(fs, limit, base, base, names, error);
    }
    if i: nat :| FailsAt(fs, limit, base, base, names, error, i) {
      BlockedWalkRefuses(fs, limit, base, base, names, error, i);
    }
  }

  /** An entry is its parent's target with the last name appended unresolved; the root is its own entry. */
  lemma EntryIsParentTarget(fs: Files, limit: nat, root: seq<Step>, names: HostPath)
    requires WellFormed(fs)
    ensures var parent := Contained(fs, limit, root, ParentOf(names), true);
            Contained(fs, limit, root, names, false) ==
              if names != [] && parent.Ok? then Ok(parent.value + [names[|names| - 1]]) else parent
  {
    if names != [] && Canonicalize(fs, limit, root).Found? {
      var base := Canonicalize(fs, limit, root).path;
      WalkEntry(fs, limit, base, base, names);
    }
  }

  method ContainedTarget(fs: Files, limit: nat, root: seq<Step>, path: VfsPath) returns (r: VfsResult<HostPath>)
    requires WellFormed(fs)
    ensures r == Contained(fs, limit, root, Names(path), true)
    ensures r.Ok? ==> Canonicalize(fs, limit, root).Found? && Canonicalize(fs, limit, root).path <= r.value
    ensures r.Ok? ==> NoSymlink(fs, r.value)
    ensures r.Ok? && r.value in fs ==>
            Canonicalize(fs, Enough(limit, |Names(path)| + 1), root + Downs(Names(path))) == Found(r.value)
    ensures Canonicalize(fs, limit, root + Downs(Names(path))).Found? ==>
            r == Err(EscapesRoot) || r == Ok(Canonicalize(fs, limit, root + Downs(Names(path))).path)
  {
    r := Resolve(fs, limit, root, Names(path), true);
    if r.Ok? {
      TargetIsContained(fs, limit, root, Names(path));
      AcceptedTargetIsKernels(fs, limit, root, Names(path));
    }
    if Canonicalize(fs, limit, root + Downs(Names(path))).Found? {
      TargetIsCanonical(fs, limit, root, Names(path));
    }
  }

  method ContainedEntry(fs: Files, limit: nat, root: seq<Step>, path: VfsPath) returns (r: VfsResult<HostPath>)
    requires WellFormed(fs)
    ensures r.Ok? ==> Canonicalize(fs, limit, root).Found? && Canonicalize(fs, limit, root).path <= r.value
    ensures path == ROOT ==> r == Contained(fs, limit, root, [], true)
    ensures path != ROOT ==>
              var names := Names(path);
              var parent := Contained(fs, limit, root, ParentOf(names), true);
              && names != [] && r == (if parent.Ok? then Ok(parent.value + [names[|names| - 1]]) else parent)
              && (parent.Ok? ==>
                    && NoSymlink(fs, parent.value)
                    && Canonicalize(fs, Enough(limit, |names|), root + Downs(ParentOf(names))) == Ends(fs, parent.value))
  {
    r := Resolve(fs, limit, root, Names(path), false);
    EntryIsParentTarget(fs, limit, root, Names(path));
    if r.Ok? {
      TargetIsContained(fs, limit, root, ParentOf(Names(path)));
      AcceptedTargetIsKernels(fs, limit, root, ParentOf(Names(path)));
    }
  }
}
