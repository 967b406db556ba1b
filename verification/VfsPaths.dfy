/** Byte-exact workspace-relative paths: validation, components and the directory order on them. */
module VfsPaths {
  import opened Wrappers
  import opened ByteStrings

  const NUL: byte := 0
  const DOT: byte := 46
  const SLASH: byte := 47

  datatype VfsPathError = Absolute | Nul | EmptyComponent | DotComponent | EmptyName | NameSeparator

  /** One path component: what `VfsName` promises. */
  predicate ValidName(name: Bytes) {
    name != [] && SLASH !in name && name != [DOT] && name != [DOT, DOT] && NUL !in name
  }

  predicate ValidNames(names: seq<Bytes>) {
    forall i :: 0 <= i < |names| ==> ValidName(names[i])
  }

  predicate ValidPath(path: Bytes) {
    path == [] || ValidNames(Split(path))
  }

  type VfsName = n: Bytes | ValidName(n) witness [97]

  /** The empty path is the workspace root. */
  type VfsPath = p: Bytes | ValidPath(p) witness []

  const ROOT: VfsPath := []

  /// Splitting and spelling

  /** `slice::split` on the separator: always at least one piece. */
  function Split(bytes: Bytes): (pieces: seq<Bytes>)
    ensures |pieces| >= 1
  {
    if bytes == [] then [[]] else ConsSplit(bytes[0], Split(bytes[1..]))
  }

  /** Components joined by single separators. */
  function Spell(names: seq<Bytes>): Bytes {
    if names == [] then []
    else if |names| == 1 then names[0]
    else names[0] + [SLASH] + Spell(names[1..])
  }

  lemma {:induction false} SpellSplit(bytes: Bytes)
    ensures Spell(Split(bytes)) == bytes
  {
    if bytes != [] {
      SpellSplit(bytes[1..]);
      var rest := Split(bytes[1..]);
      var all := Split(bytes);
      if bytes[0] == SLASH {
        assert all[1..] == rest;
      } else {
        assert all[1..] == rest[1..];
      }
      assert bytes == [bytes[0]] + bytes[1..];
    }
  }

  /** The split of one more byte, from the split of the rest. */
  function ConsSplit(b: byte, pieces: seq<Bytes>): seq<Bytes>
    requires |pieces| >= 1
  {
    if b == SLASH then [[]] + pieces else [[b] + pieces[0]] + pieces[1..]
  }

  lemma ConsSplitConcat(b: byte, l: seq<Bytes>, r: seq<Bytes>)
    requires |l| >= 1
    ensures ConsSplit(b, l + r) == ConsSplit(b, l) + r
  {
  }

  lemma {:induction false} SplitConcat(left: Bytes, right: Bytes)
    ensures Split(left + [SLASH] + right) == Split(left) + Split(right)
  {
    var whole := left + [SLASH] + right;
    if left == [] {
      assert whole[1..] == right;
    } else {
      SplitConcat(left[1..], right);
      assert whole[1..] == left[1..] + [SLASH] + right;
      ConsSplitConcat(left[0], Split(left[1..]), Split(right));
    }
  }

  lemma {:induction false} SplitPlain(bytes: Bytes)
    requires SLASH !in bytes
    ensures Split(bytes) == [bytes]
  {
    if bytes != [] {
      SplitPlain(bytes[1..]);
      assert bytes == [bytes[0]] + bytes[1..];
    }
  }

  lemma {:induction false} SplitSpell(names: seq<Bytes>)
    requires names != [] && forall i :: 0 <= i < |names| ==> SLASH !in names[i]
    ensures Split(Spell(names)) == names
  {
    SplitPlain(names[0]);
    if |names| > 1 {
      SplitSpell(names[1..]);
      SplitConcat(names[0], Spell(names[1..]));
      assert names == [names[0]] + names[1..];
    } else {
      assert names == [names[0]];
    }
  }

  /** `VfsPath::components`: the pieces of the split that are not empty. */
  function Components(path: Bytes): seq<Bytes> {
    NonEmpty(Split(path))
  }

  function NonEmpty(pieces: seq<Bytes>): seq<Bytes> {
    if pieces == [] then []
    else (if pieces[0] == [] then [] else [pieces[0]]) + NonEmpty(pieces[1..])
  }

  lemma {:induction false} NonEmptyKeepsNames(pieces: seq<Bytes>)
    requires ValidNames(pieces)
    ensures NonEmpty(pieces) == pieces
  {
    if pieces != [] { NonEmptyKeepsNames(pieces[1..]); }
  }

  /** The component sequence a valid path stands for. */
  function Names(path: VfsPath): (names: seq<VfsName>) {
    if path == [] then [] else Split(path)
  }

  /** Paths are in bijection with sequences of valid components: one direction. */
  lemma PathOfNames(names: seq<VfsName>)
    ensures ValidPath(Spell(names)) && Names(Spell(names)) == names
  {
    if names != [] {
      SplitSpell(names);
      SpellSplit(Spell(names));
      assert names[0] != [];
      assert Spell(names) != [];
    }
  }

  /** ... and the other, together with what `components` yields. */
  lemma NamesOfPath(path: VfsPath)
    ensures Spell(Names(path)) == path
    ensures Components(path) == Names(path)
  {
    if path == [] {
      assert Components(path) == [];
    } else {
      SpellSplit(path);
      NonEmptyKeepsNames(Split(path));
    }
  }

  lemma NamesInjective(a: VfsPath, b: VfsPath)
    requires Names(a) == Names(b)
    ensures a == b
  {
    NamesOfPath(a);
    NamesOfPath(b);
  }

  /// Validation

  function ValidateComponent(component: Bytes): Option<VfsPathError> {
    if component == [] then Some(EmptyComponent)
    else if component == [DOT] || component == [DOT, DOT] then Some(DotComponent)
    else if NUL in component then Some(Nul)
    else None
  }

  /** Piece `i` is the first one that is no valid component, and this is its fault. */
  predicate FirstFault(pieces: seq<Bytes>, i: int, error: VfsPathError) {
    0 <= i < |pieces| && ValidNames(pieces[..i]) && ValidateComponent(pieces[i]) == Some(error)
  }

  /** `VfsPath::from_bytes`: accepts exactly the valid paths and names the first fault of the others. */
  method FromBytes(bytes: Bytes) returns (r: Result<Bytes, VfsPathError>)
    ensures r.Ok? <==> ValidPath(bytes)
    ensures r.Ok? ==> r.value == bytes
    ensures r.Err? ==> bytes != []
    ensures r.Err? && bytes[0] == SLASH ==> r.error == Absolute
    ensures r.Err? && bytes[0] != SLASH ==> exists i :: FirstFault(Split(bytes), i, r.error)
  {
    if bytes == [] {
      return Ok(bytes);
    }
    var pieces := Split(bytes);
    if bytes[0] == SLASH {
      assert pieces[0] == [] && !ValidName(pieces[0]);
      return Err(Absolute);
    }
    for i := 0 to |pieces|
      invariant ValidNames(pieces[..i])
    {
      var invalid := ValidateComponent(pieces[i]);
      if invalid.Some? {
        assert FirstFault(pieces, i, invalid.value);
        assert !ValidName(pieces[i]);
        return Err(invalid.value);
      }
      SplitHasNoSlash(bytes, i);
    }
    return Ok(bytes);
  }

  /** `VfsName::from_bytes`. */
  function NameFromBytes(bytes: Bytes): (r: Result<Bytes, VfsPathError>)
    ensures r.Ok? <==> ValidName(bytes)
    ensures r.Ok? ==> r.value == bytes
    ensures r.Err? ==> r.error == (if bytes == [] then EmptyName else if SLASH in bytes then NameSeparator
                                   else if bytes == [DOT] || bytes == [DOT, DOT] then DotComponent else Nul)
  {
    if bytes == [] then Err(EmptyName)
    else if SLASH in bytes then Err(NameSeparator)
    else match ValidateComponent(bytes)
      case Some(error) => Err(error)
      case None => Ok(bytes)
  }

  lemma {:induction false} SplitHasNoSlash(bytes: Bytes, i: nat)
    requires i < |Split(bytes)|
    ensures SLASH !in Split(bytes)[i]
  {
    if bytes != [] {
      if bytes[0] == SLASH {
        if i > 0 { SplitHasNoSlash(bytes[1..], i - 1); }
      } else {
        SplitHasNoSlash(bytes[1..], i);
      }
    }
  }

  /** Validity is being the spelling of some component sequence. */
  lemma PathsAreSpellings(bytes: Bytes)
    ensures ValidPath(bytes) <==> exists names: seq<VfsName> :: bytes == Spell(names)
  {
    if ValidPath(bytes) {
      NamesOfPath(bytes);
      assert bytes == Spell(Names(bytes));
    }
    if names: seq<VfsName> :| bytes == Spell(names) {
      PathOfNames(names);
    }
  }

  /// The directory order

  /** `iter().rposition`, with -1 for none. */
  function RPosition(bytes: Bytes, b: byte): (i: int)
    ensures -1 <= i < |bytes|
    ensures i >= 0 ==> bytes[i] == b
    ensures forall j :: i < j < |bytes| ==> bytes[j] != b
  {
    if bytes == [] then -1
    else if bytes[|bytes| - 1] == b then |bytes| - 1
    else RPosition(bytes[..|bytes| - 1], b)
  }

  /** What the last separator separates. */
  lemma LastSlash(path: VfsPath)
    requires path != []
    ensures var i := RPosition(path, SLASH);
            if i < 0 then Names(path) == [path]
            else i > 0 && ValidPath(path[..i]) && Names(path) == Names(path[..i]) + [path[i + 1..]]
  {
    var i := RPosition(path, SLASH);
    if i < 0 {
      SplitPlain(path);
    } else {
      var left, right := path[..i], path[i + 1..];
      assert path == left + [SLASH] + right;
      SplitConcat(left, right);
      SplitPlain(right);
      assert forall k :: 0 <= k < |Split(left)| ==> Split(left)[k] == Split(path)[k];
      assert ValidName(Split(left)[0]);
    }
  }

  function FileName(path: VfsPath): Option<VfsName> {
    if path == [] then None
    else
      LastSlash(path);
      var i := RPosition(path, SLASH);
      assert ValidName(if i >= 0 then path[i + 1..] else path) by {
        assert Names(path)[|Names(path)| - 1] == if i >= 0 then path[i + 1..] else path;
      }
      Some(if i >= 0 then path[i + 1..] else path)
  }

  function Parent(path: VfsPath): (r: Option<VfsPath>)
    ensures r.Some? <==> path != []
    ensures r.Some? ==> |r.value| < |path|
  {
    if path == [] then None
    else
      LastSlash(path);
      var i := RPosition(path, SLASH);
      Some(if i >= 0 then path[..i] else ROOT)
  }

  lemma JoinNames(dir: VfsPath, name: VfsName)
    requires dir != []
    ensures Split(dir + [SLASH] + name) == Names(dir) + [name]
    ensures ValidPath(dir + [SLASH] + name)
  {
    SplitConcat(dir, name);
    SplitPlain(name);
  }

  lemma NameIsPath(name: VfsName)
    ensures ValidPath(name) && Names(name) == [name]
  {
    SplitPlain(name);
  }

  /** `VfsPath::join`. */
  function Join(dir: VfsPath, name: VfsName): VfsPath {
    NameIsPath(name);
    if dir == [] then name
    else
      JoinNames(dir, name);
      dir + [SLASH] + name
  }

  predicate IsAncestorOf(dir: VfsPath, descendant: VfsPath) {
    if descendant == [] then false
    else if dir == [] then true
    else |descendant| > |dir| && dir <= descendant && descendant[|dir|] == SLASH
  }

  function StripDirPrefix(dir: VfsPath, descendant: VfsPath): Option<Bytes> {
    if !IsAncestorOf(dir, descendant) then None
    else if dir == [] then Some(descendant)
    else Some(descendant[|dir| + 1..])
  }

  predicate StrictPrefix(a: seq<Bytes>, b: seq<Bytes>) {
    |a| < |b| && a == b[..|a|]
  }

  lemma JoinAppends(dir: VfsPath, name: VfsName)
    ensures Names(Join(dir, name)) == Names(dir) + [name]
  {
    NameIsPath(name);
    if dir != [] { JoinNames(dir, name); }
  }

  /** `parent` and `file_name` take a path apart ... */
  lemma ParentThenJoin(path: VfsPath)
    requires path != []
    ensures Parent(path).Some? && FileName(path).Some?
    ensures Names(path) == Names(Parent(path).value) + [FileName(path).value]
    ensures Join(Parent(path).value, FileName(path).value) == path
  {
    LastSlash(path);
    JoinAppends(Parent(path).value, FileName(path).value);
    NamesInjective(Join(Parent(path).value, FileName(path).value), path);
  }

  /** ... and `join` puts it together: the two are mutually inverse off the root. */
  lemma JoinThenParent(dir: VfsPath, name: VfsName)
    ensures Join(dir, name) != []
    ensures Parent(Join(dir, name)) == Some(dir)
    ensures FileName(Join(dir, name)) == Some(name)
  {
    var path := Join(dir, name);
    JoinAppends(dir, name);
    assert path != [];
    ParentThenJoin(path);
    var up := Parent(path).value;
    assert (Names(up) + [FileName(path).value])[..|Names(dir)|] == Names(dir);
    NamesInjective(up, dir);
  }

  /** Stripping a directory leaves the spelling of the remaining components. */
  lemma StripLeavesRest(dir: VfsPath, path: VfsPath)
    requires IsAncestorOf(dir, path)
    ensures var rest := StripDirPrefix(dir, path).value;
            rest != [] && ValidPath(rest) && Names(path) == Names(dir) + Names(rest)
  {
    if dir != [] {
      var rest := path[|dir| + 1..];
      assert path == dir + [SLASH] + rest;
      SplitConcat(dir, rest);
      assert forall k :: 0 <= k < |Split(rest)| ==> Split(rest)[k] == Split(path)[|Split(dir)| + k];
      assert ValidName(Split(rest)[0]);
    }
  }

  /** `is_ancestor_of` is strict component prefix. */
  lemma AncestorIsPrefix(dir: VfsPath, path: VfsPath)
    ensures IsAncestorOf(dir, path) <==> StrictPrefix(Names(dir), Names(path))
  {
    if IsAncestorOf(dir, path) {
      StripLeavesRest(dir, path);
    } else if StrictPrefix(Names(dir), Names(path)) && dir != [] {
      PrefixSpelling(dir, path);
    }
  }

  lemma SameSplit(a: Bytes, b: Bytes)
    requires Split(a) == Split(b)
    ensures a == b
  {
    SpellSplit(a);
    SpellSplit(b);
  }

  lemma PrefixSpelling(dir: VfsPath, path: VfsPath)
    requires dir != [] && StrictPrefix(Names(dir), Names(path))
    ensures IsAncestorOf(dir, path)
  {
    var rest := Names(path)[|Names(dir)|..];
    PathOfNames(rest);
    SplitConcat(dir, Spell(rest));
    assert Names(path) == Names(dir) + rest;
    assert Split(Spell(rest)) == rest;
    SameSplit(dir + [SLASH] + Spell(rest), path);
  }

  /** The directories a path lies in, innermost first: iterating `parent` until it answers none. */
  function ParentChain(path: VfsPath): seq<VfsPath>
    decreases |path|
  {
    var up := Parent(path);
    if up.None? then [] else [up.value] + ParentChain(up.value)
  }

  /** The parent chain enumerates exactly the ancestors ... */
  lemma {:induction false} ChainEnumeratesAncestors(dir: VfsPath, path: VfsPath)
    ensures dir in ParentChain(path) <==> IsAncestorOf(dir, path)
    decreases |path|
  {
    if path != [] {
      ChainEnumeratesAncestors(dir, Parent(path).value);
      AncestorSplits(dir, path);
    }
  }

  /** ... one per component, each shorter than the one before, and ends at the root. */
  lemma {:induction false} ChainEndsAtRoot(path: VfsPath)
    ensures |ParentChain(path)| == |Names(path)|
    ensures Shrinks(ParentChain(path), |path|)
    ensures path != [] ==> ParentChain(path)[|ParentChain(path)| - 1] == ROOT
    decreases |path|
  {
    if path != [] {
      var up := Parent(path).value;
      ParentThenJoin(path);
      ChainEndsAtRoot(up);
      ShrinksMore(up, ParentChain(up), |path|);
      assert ParentChain(path) == [up] + ParentChain(up);
    }
  }

  /** Every path is shorter than `bound` and than the ones before it. */
  predicate Shrinks(chain: seq<VfsPath>, bound: nat) {
    && (forall i :: 0 <= i < |chain| ==> |chain[i]| < bound)
    && (forall i, j :: 0 <= i < j < |chain| ==> |chain[j]| < |chain[i]|)
  }

  lemma ShrinksMore(up: VfsPath, chain: seq<VfsPath>, bound: nat)
    requires Shrinks(chain, |up|) && |up| < bound
    ensures Shrinks([up] + chain, bound)
  {
  }

  /** An ancestor is the parent or an ancestor of the parent. */
  lemma AncestorSplits(dir: VfsPath, path: VfsPath)
    requires path != []
    ensures IsAncestorOf(dir, path) <==> dir == Parent(path).value || IsAncestorOf(dir, Parent(path).value)
  {
    var up := Parent(path).value;
    ParentThenJoin(path);
    AncestorIsPrefix(dir, path);
    AncestorIsPrefix(dir, up);
    var n := |Names(up)|;
    assert Names(path)[..n] == Names(up);
    if |Names(dir)| < n {
      assert Names(up)[..|Names(dir)|] == Names(path)[..|Names(dir)|];
    } else if StrictPrefix(Names(dir), Names(path)) {
      NamesInjective(dir, up);
    }
  }

  /// Children of a directory

  /** `iter().position`, with -1 for none. */
  function Position(bytes: Bytes, b: byte): (i: int)
    ensures -1 <= i < |bytes|
    ensures i >= 0 ==> bytes[i] == b && b !in bytes[..i]
    ensures i < 0 ==> b !in bytes
  {
    if bytes == [] then -1
    else if bytes[0] == b then 0
    else
      var i := Position(bytes[1..], b);
      assert i >= 0 ==> bytes[..i + 1] == [bytes[0]] + bytes[1..][..i];
      if i < 0 then -1 else i + 1
  }

  predicate AtOrBelow(top: VfsPath, path: VfsPath) {
    top == path || IsAncestorOf(top, path)
  }

  /** The child of `dir` a descendant is reached through: its name, and whether it lies below that child. */
  function ChildTowards(dir: VfsPath, path: VfsPath): (VfsName, bool)
    requires IsAncestorOf(dir, path)
  {
    var rest := StripDirPrefix(dir, path).value;
    FirstOfRest(dir, path);
    var i := Position(rest, SLASH);
    if i >= 0 then (rest[..i], true) else (rest, false)
  }

  lemma FirstName(path: VfsPath)
    requires path != []
    ensures var i := Position(path, SLASH);
            && Names(path)[0] == (if i >= 0 then path[..i] else path)
            && (i >= 0 <==> |Names(path)| > 1)
  {
    var i := Position(path, SLASH);
    if i >= 0 {
      assert path == path[..i] + [SLASH] + path[i + 1..];
      SplitConcat(path[..i], path[i + 1..]);
      SplitPlain(path[..i]);
    } else {
      SplitPlain(path);
    }
  }

  lemma FirstOfRest(dir: VfsPath, path: VfsPath)
    requires IsAncestorOf(dir, path)
    ensures var rest := StripDirPrefix(dir, path).value;
            var i := Position(rest, SLASH);
            var child := if i >= 0 then rest[..i] else rest;
            && ValidName(child)
            && |Names(path)| > |Names(dir)| && child == Names(path)[|Names(dir)|]
            && (i >= 0 <==> |Names(path)| > |Names(dir)| + 1)
  {
    StripLeavesRest(dir, path);
    FirstName(StripDirPrefix(dir, path).value);
  }

  /** That child is the only one the descendant is at or below. */
  lemma ChildIsUnique(dir: VfsPath, path: VfsPath, name: VfsName)
    ensures AtOrBelow(Join(dir, name), path) <==> IsAncestorOf(dir, path) && ChildTowards(dir, path).0 == name
    ensures IsAncestorOf(Join(dir, name), path) <==> IsAncestorOf(dir, path) && ChildTowards(dir, path) == (name, true)
  {
    var child := Join(dir, name);
    JoinAppends(dir, name);
    AncestorIsPrefix(dir, path);
    AncestorIsPrefix(child, path);
    PrefixOfExtension(Names(dir), name, Names(path));
    if IsAncestorOf(dir, path) { FirstOfRest(dir, path); }
    if Names(path) == Names(child) { NamesInjective(path, child); }
  }

  lemma PrefixOfExtension(a: seq<Bytes>, x: Bytes, b: seq<Bytes>)
    ensures StrictPrefix(a + [x], b) <==> StrictPrefix(a, b) && |b| > |a| + 1 && b[|a|] == x
    ensures b == a + [x] <==> StrictPrefix(a, b) && |b| == |a| + 1 && b[|a|] == x
  {
    if |b| > |a| {
      assert b[..|a| + 1] == b[..|a|] + [b[|a|]];
      if b[..|a| + 1] == a + [x] {
        assert b[..|a|] == b[..|a| + 1][..|a|];
      }
    }
  }

  /// Byte order and directories

  lemma {:induction false} PrefixBetween(p: Bytes, x: Bytes, y: Bytes, z: Bytes)
    requires p <= x && p <= z && Less(x, y) && Less(y, z)
    ensures p <= y
  {
    if p != [] {
      assert x[0] == p[0] == z[0];
      PrefixBetween(p[1..], x[1..], y[1..], z[1..]);
    }
  }

  /** In byte order, what lies between two descendants of a directory is a descendant of it ... */
  lemma DescendantsAreContiguous(dir: VfsPath, x: VfsPath, y: VfsPath, z: VfsPath)
    requires IsAncestorOf(dir, x) && IsAncestorOf(dir, z) && Less(x, y) && Less(y, z)
    ensures IsAncestorOf(dir, y)
  {
    if dir != [] {
      PrefixBetween(dir + [SLASH], x, y, z);
    }
  }

  /** ... but a file and what a colliding directory of its name holds need not be neighbours: `a`, `a-`, `a/b`. */
  lemma CollidingPathsNeedNotBeNeighbours()
    ensures var a, other, below: Bytes := [97], [97, 45], [97, SLASH, 98];
            && ValidPath(a) && ValidPath(other) && ValidPath(below)
            && Less(a, other) && Less(other, below) && IsAncestorOf(a, below) && !IsAncestorOf(a, other)
  {
    SplitPlain([97]);
    SplitPlain([97, 45]);
    assert [97, SLASH, 98] == [97] + [SLASH] + [98];
    SplitPlain([98]);
    JoinNames([97], [98]);
    assert Less([97, 45][1..], [97, SLASH, 98][1..]);
    assert Less([97][1..], [97, 45][1..]);
  }
}
