/** Host paths and the graph keys they stand for (pathmap.rs), and the second mapping in tree.rs. */
module PathMap {
  import opened Wrappers
  import opened ByteStrings
  import opened VfsPaths

  const COLON: byte := 58

  datatype WorkspacePathError = NotAbsolute | OutsideRoot | ParentTraversal | AliasAmbiguity | InvalidPath

  type KeyResult<+T> = Result<T, WorkspacePathError>

  /// Components of a host path

  /** A host path: its drive prefix, if any, and its cleaned components. */
  datatype HostPath = HostPath(prefix: Option<Bytes>, names: seq<VfsName>)

  function PrefixLength(input: Bytes): Option<nat> {
    if |input| > 0 && input[0] == SLASH then Some(0)
    else if |input| > 2 && input[1] == COLON && input[2] == SLASH then Some(2)
    else None
  }

  predicate Ignored(piece: Bytes) {
    piece == [] || piece == [DOT]
  }

  function Fault(piece: Bytes): Option<WorkspacePathError> {
    if piece == [DOT, DOT] then Some(ParentTraversal)
    else if NUL in piece then Some(InvalidPath)
    else None
  }

  /** Empty and `.` pieces go, the first fault wins, the others are the components. */
  function Clean(pieces: seq<Bytes>): (r: KeyResult<seq<VfsName>>)
    requires NoSlashes(pieces)
  {
    if pieces == [] then Ok([])
    else if Ignored(pieces[0]) then Clean(pieces[1..])
    else if Fault(pieces[0]).Some? then Err(Fault(pieces[0]).value)
    else
      var rest := Clean(pieces[1..]);
      if rest.Ok? then Ok([pieces[0]] + rest.value) else rest
  }

  predicate NoSlashes(pieces: seq<Bytes>) {
    forall i :: 0 <= i < |pieces| ==> SLASH !in pieces[i]
  }

  lemma SplitNoSlashes(bytes: Bytes)
    ensures NoSlashes(Split(bytes))
  {
    forall i | 0 <= i < |Split(bytes)| ensures SLASH !in Split(bytes)[i] { SplitHasNoSlash(bytes, i); }
  }

  function Cleaned(bytes: Bytes): KeyResult<seq<VfsName>> {
    SplitNoSlashes(bytes);
    Clean(Split(bytes))
  }

  function Parse(input: Bytes): KeyResult<HostPath> {
    match PrefixLength(input)
    case None => Err(NotAbsolute)
    case Some(n) =>
      match Cleaned(input[n..])
      case Ok(names) => Ok(HostPath(if n == 0 then None else Some(input[..n]), names))
      case Err(error) => Err(error)
  }

  method Components(input: Bytes) returns (r: KeyResult<HostPath>)
    ensures r == Parse(input)
  {
    var start := PrefixLength(input);
    if start.None? {
      return Err(NotAbsolute);
    }
    var n := start.value;
    var pieces := Split(input[n..]);
    SplitNoSlashes(input[n..]);
    var names: seq<VfsName> := [];
    var i := 0;
    assert pieces[0..] == pieces;
    PrependNone(Clean(pieces));
    while i < |pieces|
      invariant 0 <= i <= |pieces| && NoSlashes(pieces[i..])
      invariant Clean(pieces) == Prepend(names, Clean(pieces[i..]))
    {
      assert pieces[i..][1..] == pieces[i + 1..] && SLASH !in pieces[i];
      if !Ignored(pieces[i]) {
        var fault := Fault(pieces[i]);
        if fault.Some? {
          return Err(fault.value);
        }
        PrependOne(names, pieces[i], Clean(pieces[i + 1..]));
        names := names + [pieces[i]];
      }
      i := i + 1;
    }
    assert Clean(pieces) == Ok(names + []) && names + [] == names;
    return Ok(HostPath(if n == 0 then None else Some(input[..n]), names));
  }

  function Prepend(names: seq<VfsName>, rest: KeyResult<seq<VfsName>>): KeyResult<seq<VfsName>> {
    if rest.Ok? then Ok(names + rest.value) else rest
  }

  lemma PrependOne(names: seq<VfsName>, name: VfsName, rest: KeyResult<seq<VfsName>>)
    ensures Prepend(names, Prepend([name], rest)) == Prepend(names + [name], rest)
  {
    if rest.Ok? { assert names + ([name] + rest.value) == (names + [name]) + rest.value; }
  }

  lemma PrependNone(rest: KeyResult<seq<VfsName>>)
    ensures Prepend([], rest) == rest
  {
    if rest.Ok? { assert [] + rest.value == rest.value; }
  }

  /// The key of a path under a root

  function Lower(b: byte): byte {
    if 65 <= b <= 90 then b + 32 else b
  }

  predicate SameIgnoringCase(a: Bytes, b: Bytes) {
    |a| == |b| && forall i :: 0 <= i < |a| ==> Lower(a[i]) == Lower(b[i])
  }

  /** The same drive, without regard to case; or no drive on either side. */
  predicate SameDrive(a: Option<Bytes>, b: Option<Bytes>) {
    if a.Some? && b.Some? then SameIgnoringCase(a.value, b.value) else a == b
  }

  /** `root` is a prefix of `path`: byte for byte, or without regard to case on a drive. */
  predicate Within(path: HostPath, root: HostPath) {
    && SameDrive(path.prefix, root.prefix)
    && |root.names| <= |path.names|
    && forall i :: 0 <= i < |root.names| ==>
         if path.prefix.Some? then SameIgnoringCase(path.names[i], root.names[i]) else path.names[i] == root.names[i]
  }

  /** The key's components are the path's components below the root. */
  function GraphKey(path: Bytes, root: Bytes): KeyResult<VfsPath> {
    match Parse(path)
    case Err(error) => Err(error)
    case Ok(p) =>
      match Parse(root)
      case Err(error) => Err(error)
      case Ok(r) =>
        if Within(p, r) then
          PathOfNames(p.names[|r.names|..]);
          Ok(Spell(p.names[|r.names|..]))
        else Err(OutsideRoot)
  }

  /** The components joined by single separators, one at a time. */
  method SpellOut(names: seq<Bytes>) returns (key: Bytes)
    ensures key == Spell(names)
  {
    key := [];
    var i := 0;
    while i < |names|
      invariant 0 <= i <= |names| && key == Spell(names[..i])
    {
      SpellMore(names[..i], names[i]);
      assert names[..i + 1] == names[..i] + [names[i]];
      if i > 0 {
        key := key + [SLASH];
      }
      key := key + names[i];
      i := i + 1;
    }
    assert names[..i] == names;
  }

  lemma {:induction false} SpellMore(names: seq<Bytes>, last: Bytes)
    ensures Spell(names + [last]) == if names == [] then last else Spell(names) + [SLASH] + last
  {
    if names != [] {
      SpellMore(names[1..], last);
      assert (names + [last])[1..] == names[1..] + [last];
      if |names| > 1 {
        assert Spell(names + [last]) == names[0] + [SLASH] + (Spell(names[1..]) + [SLASH] + last);
        assert Spell(names) + [SLASH] + last == names[0] + [SLASH] + Spell(names[1..]) + [SLASH] + last;
      }
    }
  }

  method WorkspaceGraphKey(path: Bytes, root: Bytes) returns (r: KeyResult<VfsPath>)
    ensures r == GraphKey(path, root)
  {
    var p :- Components(path);
    var base :- Components(root);
    if !SameDrive(p.prefix, base.prefix) {
      return Err(OutsideRoot);
    }
    var shared := if |p.names| <= |base.names| then |p.names| else |base.names|;
    var matches := if p.prefix.Some? then forall i :: 0 <= i < shared ==> SameIgnoringCase(p.names[i], base.names[i])
                   else base.names <= p.names;
    if |p.names| < |base.names| || !matches {
      return Err(OutsideRoot);
    }
    var key := SpellOut(p.names[|base.names|..]);
    PathOfNames(p.names[|base.names|..]);
    var valid := FromBytes(key);
    if valid.Err? {
      return Err(InvalidPath);
    }
    return Ok(valid.value);
  }

  /// Exactly the paths below the root

  function Lowered(bytes: Bytes): (r: Bytes)
    ensures |r| == |bytes| && forall i :: 0 <= i < |r| ==> r[i] == if 65 <= bytes[i] <= 90 then bytes[i] + 32 else bytes[i]
  {
    seq(|bytes|, i requires 0 <= i < |bytes| => if 65 <= bytes[i] <= 90 then bytes[i] + 32 else bytes[i])
  }

  function LoweredAll(names: seq<Bytes>): (r: seq<Bytes>)
    ensures |r| == |names| && forall i :: 0 <= i < |r| ==> r[i] == Lowered(names[i])
  {
    seq(|names|, i requires 0 <= i < |names| => Lowered(names[i]))
  }

  /** `base` is `root` up to case, and `names` are those and then the key's own. */
  ghost predicate StartsLike(names: seq<VfsName>, base: seq<VfsName>, root: seq<VfsName>, key: VfsPath) {
    names == base + Names(key) && LoweredAll(base) == LoweredAll(root)
  }

  /**
   The components of `path` are those of `root` and then those of `key`. On a drive those of the root, and the
   drive itself, are taken in lower case; the key's are byte-exact.
   */
  ghost predicate LiesAt(path: HostPath, root: HostPath, key: VfsPath) {
    if path.prefix.None? then root.prefix.None? && path.names == root.names + Names(key)
    else
      && root.prefix.Some? && Lowered(path.prefix.value) == Lowered(root.prefix.value)
      && exists base :: StartsLike(path.names, base, root.names, key)
  }

  lemma LoweredIff(a: Bytes, b: Bytes)
    ensures Lowered(a) == Lowered(b) <==> SameIgnoringCase(a, b)
  {
    if Lowered(a) == Lowered(b) {
      forall i | 0 <= i < |a| ensures Lower(a[i]) == Lower(b[i]) { assert Lowered(a)[i] == Lowered(b)[i]; }
    }
  }

  lemma LoweredAllIff(a: seq<Bytes>, b: seq<Bytes>)
    ensures LoweredAll(a) == LoweredAll(b) <==>
            |a| == |b| && forall i :: 0 <= i < |a| ==> SameIgnoringCase(a[i], b[i])
  {
    forall i | 0 <= i < |a| && i < |b| ensures Lowered(a[i]) == Lowered(b[i]) <==> SameIgnoringCase(a[i], b[i]) {
      LoweredIff(a[i], b[i]);
    }
    if LoweredAll(a) == LoweredAll(b) {
      assert |a| == |LoweredAll(a)| == |LoweredAll(b)| == |b|;
      forall i | 0 <= i < |a| ensures SameIgnoringCase(a[i], b[i]) { assert LoweredAll(a)[i] == LoweredAll(b)[i]; }
    }
  }

  lemma PlainSplits(path: HostPath, root: HostPath, key: VfsPath)
    requires path.prefix.None? && root.prefix.None?
    ensures path.names == root.names + Names(key) <==> Within(path, root) && path.names[|root.names|..] == Names(key)
  {
    if Within(path, root) { assert path.names == root.names + path.names[|root.names|..]; }
  }

  lemma StartsAlike(names: seq<VfsName>, base: seq<VfsName>, root: seq<VfsName>, key: VfsPath)
    requires StartsLike(names, base, root, key)
    ensures |root| <= |names| && names[|root|..] == Names(key)
    ensures forall i :: 0 <= i < |root| ==> SameIgnoringCase(names[i], root[i])
  {
    LoweredAllIff(base, root);
  }

  lemma AlikeStarts(names: seq<VfsName>, root: seq<VfsName>, key: VfsPath)
    requires |root| <= |names| && names[|root|..] == Names(key)
    requires forall i :: 0 <= i < |root| ==> SameIgnoringCase(names[i], root[i])
    ensures StartsLike(names, names[..|root|], root, key)
  {
    assert names == names[..|root|] + Names(key);
    LoweredAllIff(names[..|root|], root);
  }

  /** Where a path lies at a key, its first components match the root's and the rest spell the key. */
  lemma LiesAtSplits(path: HostPath, root: HostPath, key: VfsPath)
    ensures LiesAt(path, root, key) <==> Within(path, root) && path.names[|root.names|..] == Names(key)
  {
    if path.prefix.Some? && root.prefix.Some? {
      LoweredIff(path.prefix.value, root.prefix.value);
      if LiesAt(path, root, key) {
        var base :| StartsLike(path.names, base, root.names, key);
        StartsAlike(path.names, base, root.names, key);
      }
      if Within(path, root) && path.names[|root.names|..] == Names(key) {
        AlikeStarts(path.names, root.names, key);
      }
    } else if path.prefix.None? && root.prefix.None? {
      PlainSplits(path, root, key);
    }
  }

  /**
   A path has a key under a root exactly when it lies below it, and the key is where; a path that lies nowhere
   below the root is outside, and one that cannot be read, or whose root cannot, is refused for that fault.
   */
  lemma KeyIff(path: Bytes, root: Bytes, key: VfsPath)
    ensures Parse(path).Err? ==> GraphKey(path, root) == Err(Parse(path).error)
    ensures Parse(path).Ok? && Parse(root).Err? ==> GraphKey(path, root) == Err(Parse(root).error)
    ensures Parse(path).Ok? && Parse(root).Ok? ==>
              var p, r := Parse(path).value, Parse(root).value;
              && (GraphKey(path, root) == Ok(key) <==> LiesAt(p, r, key))
              && (GraphKey(path, root) == Err(OutsideRoot) <==> forall k: VfsPath :: !LiesAt(p, r, k))
              && (GraphKey(path, root).Ok? || GraphKey(path, root) == Err(OutsideRoot))
  {
    if Parse(path).Ok? && Parse(root).Ok? {
      var p, r := Parse(path).value, Parse(root).value;
      forall k: VfsPath
        ensures LiesAt(p, r, k) <==> Within(p, r) && p.names[|r.names|..] == Names(k)
        ensures Within(p, r) ==> (Spell(p.names[|r.names|..]) == k <==> p.names[|r.names|..] == Names(k))
      {
        LiesAtSplits(p, r, k);
        NamesOfPath(k);
        if Within(p, r) { PathOfNames(p.names[|r.names|..]); }
      }
      if Within(p, r) {
        PathOfNames(p.names[|r.names|..]);
        assert LiesAt(p, r, Spell(p.names[|r.names|..]));
      }
    }
  }

  /** One piece between separators: nothing and `.` vanish, `..` and NUL are refused, all else is a component. */
  lemma CleanedPiece(piece: Bytes)
    requires 47 !in piece
    ensures piece == [] || piece == [46] ==> Cleaned(piece) == Ok([])
    ensures piece == [46, 46] ==> Cleaned(piece) == Err(ParentTraversal)
    ensures 0 in piece ==> Cleaned(piece) == Err(InvalidPath)
    ensures piece != [] && piece != [46] && piece != [46, 46] && 0 !in piece ==> ValidName(piece) && Cleaned(piece) == Ok([piece])
  {
    SplitPlain(piece);
    assert Split(piece)[1..] == [] && Clean(Split(piece)[1..]) == Ok([]);
  }

  lemma {:induction false} CleanFaults(pieces: seq<Bytes>)
    requires NoSlashes(pieces)
    ensures Clean(pieces) != Err(NotAbsolute)
  {
    if pieces != [] { CleanFaults(pieces[1..]); }
  }

  /** A path is absolute from a leading separator, or from a letter, a colon and a separator. */
  lemma ParseIsCleaned(rest: Bytes, drive: byte)
    ensures Parse([47] + rest) == match Cleaned([47] + rest)
                                  case Ok(names) => Ok(HostPath(None, names))
                                  case Err(error) => Err(error)
    ensures drive != 47 ==> Parse([drive, 58, 47] + rest) == match Cleaned([47] + rest)
                                                             case Ok(names) => Ok(HostPath(Some([drive, 58]), names))
                                                             case Err(error) => Err(error)
    ensures Parse(rest) == Err(NotAbsolute) <==>
            !([47] <= rest) && !(|rest| > 2 && rest[1] == 58 && rest[2] == 47)
  {
    var path := [drive, 58, 47] + rest;
    assert path[2..] == [47] + rest && path[..2] == [drive, 58];
    assert ([47] + rest)[0..] == [47] + rest;
    if PrefixLength(rest).Some? {
      var body := rest[PrefixLength(rest).value..];
      SplitNoSlashes(body);
      CleanFaults(Split(body));
    }
  }

  /// Round trip

  function JoinAtPath(base: Bytes, rel: Bytes): Bytes {
    if |rel| > 0 && rel[0] == SLASH then rel else base + [SLASH] + rel
  }

  /** Joining: an absolute second part stands alone, any other is appended behind one separator. */
  lemma JoinTells(base: Bytes, rel: Bytes)
    ensures JoinAtPath(base, [47] + rel) == [47] + rel
    ensures !([47] <= rel) ==> JoinAtPath(base, rel) == base + [47] + rel
  {
  }

  lemma {:induction false} CleanConcat(a: seq<Bytes>, b: seq<Bytes>)
    requires NoSlashes(a) && NoSlashes(b)
    ensures NoSlashes(a + b) && Clean(a + b) == if Clean(a).Ok? then Prepend(Clean(a).value, Clean(b)) else Clean(a)
  {
    if a == [] {
      assert a + b == b;
      PrependNone(Clean(b));
    } else {
      CleanConcat(a[1..], b);
      assert (a + b)[1..] == a[1..] + b;
      if !Ignored(a[0]) && Fault(a[0]).None? && Clean(a[1..]).Ok? {
        PrependTwice(a[0], Clean(a[1..]).value, Clean(b));
      }
    }
  }

  lemma PrependTwice(name: VfsName, names: seq<VfsName>, rest: KeyResult<seq<VfsName>>)
    ensures Prepend([name], Prepend(names, rest)) == Prepend([name] + names, rest)
  {
    if rest.Ok? { assert [name] + (names + rest.value) == ([name] + names) + rest.value; }
  }

  lemma {:induction false} CleanNames(names: seq<VfsName>)
    ensures NoSlashes(names) && Clean(names) == Ok(names)
  {
    if names != [] {
      CleanNames(names[1..]);
      assert names == [names[0]] + names[1..];
    }
  }

  /** A key's own components are what its bytes clean to. */
  lemma CleanedKey(key: VfsPath)
    ensures Cleaned(key) == Ok(Names(key))
  {
    if key == [] {
      assert Split(key) == [[]];
    } else {
      CleanNames(Names(key));
    }
  }

  lemma CleanedJoin(a: Bytes, b: Bytes)
    ensures Cleaned(a + [SLASH] + b) == if Cleaned(a).Ok? then Prepend(Cleaned(a).value, Cleaned(b)) else Cleaned(a)
  {
    SplitConcat(a, b);
    SplitNoSlashes(a);
    SplitNoSlashes(b);
    CleanConcat(Split(a), Split(b));
  }

  /** Whatever is appended below a root that parses has the root's drive and components first. */
  lemma ParseJoin(root: Bytes, rel: Bytes)
    requires Parse(root).Ok?
    ensures Parse(root + [SLASH] + rel) ==
            match Cleaned(rel)
            case Ok(names) => Ok(HostPath(Parse(root).value.prefix, Parse(root).value.names + names))
            case Err(error) => Err(error)
  {
    var n := PrefixLength(root).value;
    var path := root + [SLASH] + rel;
    assert path[n..] == root[n..] + [SLASH] + rel && path[..n] == root[..n];
    CleanedJoin(root[n..], rel);
  }

  lemma WithinItself(root: HostPath, names: seq<VfsName>)
    ensures Within(HostPath(root.prefix, root.names + names), root)
  {
  }

  /** Below a root that parses, a path with the root's components first has the remaining ones as its key. */
  lemma KeyBelow(root: Bytes, rel: Bytes, key: VfsPath)
    requires Parse(root).Ok? && Cleaned(rel) == Ok(Names(key))
    ensures GraphKey(root + [SLASH] + rel, root) == Ok(key)
  {
    ParseJoin(root, rel);
    var base := Parse(root).value;
    WithinItself(base, Names(key));
    assert (base.names + Names(key))[|base.names|..] == Names(key);
    NamesOfPath(key);
  }

  /** Joining a key onto a root and mapping it back is the identity, for every key and every root that parses. */
  lemma KeyRoundTrip(root: Bytes, key: VfsPath)
    requires Parse(root).Ok?
    ensures GraphKey(JoinAtPath(root, key), root) == Ok(key)
  {
    CleanedKey(key);
    if key != [] { assert ValidName(Split(key)[0]); }
    KeyBelow(root, key, key);
  }

  /** A name that merely begins with the root's last component is a sibling, and everything below it is outside. */
  lemma SiblingIsOutside(base: Bytes, name: VfsName, suffix: Bytes, rel: Bytes)
    requires Parse(base).Ok? && suffix != [] && ValidName(name + suffix) && Cleaned(rel).Ok?
    ensures GraphKey(base + [SLASH] + (name + suffix) + [SLASH] + rel, base + [SLASH] + name) == Err(OutsideRoot)
  {
    CleanedPiece(name);
    CleanedPiece(name + suffix);
    ParseJoin(base, name);
    ParseJoin(base, name + suffix);
    ParseJoin(base + [SLASH] + (name + suffix), rel);
    var above := |Parse(base).value.names|;
    assert !SameIgnoringCase(name + suffix, name);
    assert (Parse(base).value.names + [name])[above] == name;
    assert (Parse(base).value.names + [name + suffix] + Cleaned(rel).value)[above] == name + suffix;
  }

  lemma ParseOne(a: VfsName)
    ensures Parse([47] + a) == Ok(HostPath(None, [a]))
  {
    ParseIsCleaned(a, 0);
    CleanedPiece([]);
    CleanedPiece(a);
    CleanedJoin([], a);
    assert [] + [SLASH] + a == [47] + a && [] + [a] == [a];
  }

  lemma ParseTwo(a: VfsName, b: VfsName)
    ensures Parse([47] + a + [47] + b) == Ok(HostPath(None, [a, b]))
  {
    ParseOne(a);
    CleanedPiece(b);
    ParseJoin([47] + a, b);
    assert [a] + [b] == [a, b];
  }

  /** `/a/b` is `b` under `/a` and outside every `/root` of another name: `/repo2/x` and `/etc/x` under `/repo`. */
  lemma OnlyBelowTheRoot(a: VfsName, b: VfsName, root: VfsName)
    ensures ValidPath(b) && GraphKey([47] + a + [47] + b, [47] + root) == if a == root then Ok(b) else Err(OutsideRoot)
  {
    ParseTwo(a, b);
    ParseOne(root);
    NameIsPath(b);
    assert [a, b][1..] == [b] && [a, b][0] == a && [root][0] == root;
  }

  /// Several roots

  predicate Skipped(r: KeyResult<VfsPath>) {
    r == Err(OutsideRoot) || r == Err(NotAbsolute)
  }

  /** The rest of the scan over `roots`, with what has been seen so far. */
  function Scan(path: Bytes, roots: seq<Bytes>, key: Option<VfsPath>, sawNotAbsolute: bool): KeyResult<VfsPath>
    decreases |roots|
  {
    if roots == [] then
      if key.Some? then Ok(key.value) else Err(if sawNotAbsolute then NotAbsolute else OutsideRoot)
    else
      var r := GraphKey(path, roots[0]);
      if r.Ok? then
        if key.Some? && key.value != r.value then Err(AliasAmbiguity)
        else Scan(path, roots[1..], Some(r.value), sawNotAbsolute)
      else if Skipped(r) then Scan(path, roots[1..], key, sawNotAbsolute || r == Err(NotAbsolute))
      else r
  }

  method KeyFromRoots(path: Bytes, roots: seq<Bytes>) returns (r: KeyResult<VfsPath>)
    ensures r == Scan(path, roots, None, false)
  {
    var key: Option<VfsPath> := None;
    var sawNotAbsolute := false;
    var i := 0;
    while i < |roots|
      invariant 0 <= i <= |roots|
      invariant Scan(path, roots, None, false) == Scan(path, roots[i..], key, sawNotAbsolute)
    {
      assert roots[i..][1..] == roots[i + 1..];
      var candidate := WorkspaceGraphKey(path, roots[i]);
      match candidate {
        case Ok(found) =>
          if key.Some? && key.value != found {
            return Err(AliasAmbiguity);
          }
          key := Some(found);
        case Err(OutsideRoot) =>
        case Err(NotAbsolute) =>
          sawNotAbsolute := true;
        case Err(error) =>
          return Err(error);
      }
      i := i + 1;
    }
    if key.Some? {
      return Ok(key.value);
    }
    return Err(if sawNotAbsolute then NotAbsolute else OutsideRoot);
  }

  /** Some root gives this key, and every root gives it or is passed over. */
  ghost predicate Agreed(path: Bytes, roots: seq<Bytes>, key: VfsPath) {
    && (exists root :: root in roots && GraphKey(path, root) == Ok(key))
    && (forall root :: root in roots ==> GraphKey(path, root) == Ok(key) || Skipped(GraphKey(path, root)))
  }

  lemma {:induction false} ScanMeaning(path: Bytes, roots: seq<Bytes>, seen: Option<VfsPath>, saw: bool, key: VfsPath)
    ensures Scan(path, roots, seen, saw) == Ok(key) <==>
            && (seen == Some(key) || (seen.None? && exists root :: root in roots && GraphKey(path, root) == Ok(key)))
            && (forall root :: root in roots ==> GraphKey(path, root) == Ok(key) || Skipped(GraphKey(path, root)))
    decreases |roots|
  {
    if roots != [] {
      var r := GraphKey(path, roots[0]);
      assert forall root :: root in roots <==> root == roots[0] || root in roots[1..];
      if r.Ok? {
        ScanMeaning(path, roots[1..], Some(r.value), saw, key);
      } else if Skipped(r) {
        ScanMeaning(path, roots[1..], seen, saw || r == Err(NotAbsolute), key);
      }
    }
  }

  /** Success over several roots depends on which roots there are, not on their order or repetition. */
  lemma RootOrderIsIrrelevant(path: Bytes, roots: seq<Bytes>, others: seq<Bytes>, key: VfsPath)
    requires forall root :: root in roots <==> root in others
    ensures Scan(path, roots, None, false) == Ok(key) <==> Agreed(path, roots, key)
    ensures Scan(path, roots, None, false) == Ok(key) <==> Scan(path, others, None, false) == Ok(key)
  {
    ScanMeaning(path, roots, None, false, key);
    ScanMeaning(path, others, None, false, key);
  }

  /** The causes of a failure that is not merely finding no root: a root that cannot be used, or two that disagree. */
  ghost predicate Cause(path: Bytes, roots: seq<Bytes>, error: WorkspacePathError) {
    || (exists root :: root in roots && GraphKey(path, root) == Err(error) && !Skipped(Err(error)))
    || (error == AliasAmbiguity && exists a, b :: a in roots && b in roots && Disagree(path, a, b))
  }

  predicate Disagree(path: Bytes, a: Bytes, b: Bytes) {
    GraphKey(path, a).Ok? && GraphKey(path, b).Ok? && GraphKey(path, a) != GraphKey(path, b)
  }

  lemma {:induction false} FailureHasACause(path: Bytes, roots: seq<Bytes>, done: seq<Bytes>, key: Option<VfsPath>, saw: bool)
    requires key.Some? ==> exists root :: root in done && GraphKey(path, root) == Ok(key.value)
    ensures var r := Scan(path, roots, key, saw);
            r.Err? && !Skipped(r) ==> Cause(path, done + roots, r.error)
    decreases |roots|
  {
    if roots != [] {
      var r := GraphKey(path, roots[0]);
      assert done + roots == (done + [roots[0]]) + roots[1..];
      assert roots[0] in done + [roots[0]];
      if r.Ok? {
        if key.Some? && key.value != r.value {
          var a :| a in done && GraphKey(path, a) == Ok(key.value);
          assert a in done + roots && roots[0] in done + roots && Disagree(path, a, roots[0]);
        } else {
          FailureHasACause(path, roots[1..], done + [roots[0]], Some(r.value), saw);
        }
      } else if Skipped(r) {
        FailureHasACause(path, roots[1..], done + [roots[0]], key, saw || r == Err(NotAbsolute));
      } else {
        assert roots[0] in done + roots;
      }
    }
  }

  /** A failure with no cause is that no root applies: none is absolute enough, or all lie elsewhere. */
  lemma {:induction false} ScanSkips(path: Bytes, roots: seq<Bytes>, saw: bool)
    requires forall root :: root in roots ==> Skipped(GraphKey(path, root))
    ensures Scan(path, roots, None, saw) ==
            if saw || exists root :: root in roots && GraphKey(path, root) == Err(NotAbsolute)
            then Err(NotAbsolute) else Err(OutsideRoot)
    decreases |roots|
  {
    if roots != [] {
      assert roots[0] in roots && Skipped(GraphKey(path, roots[0]));
      assert forall root :: root in roots <==> root == roots[0] || root in roots[1..];
      ScanSkips(path, roots[1..], saw || GraphKey(path, roots[0]) == Err(NotAbsolute));
    }
  }

  /** The roots in another order. */
  ghost predicate Reorders(others: seq<Bytes>, roots: seq<Bytes>) {
    multiset(others) == multiset(roots)
  }

  lemma SameRoots(others: seq<Bytes>, roots: seq<Bytes>, root: Bytes)
    requires Reorders(others, roots)
    ensures root in others <==> root in roots
  {
    assert root in others <==> root in multiset(others);
    assert root in roots <==> root in multiset(roots);
  }

  lemma SameCauses(path: Bytes, others: seq<Bytes>, roots: seq<Bytes>, error: WorkspacePathError)
    requires Reorders(others, roots)
    ensures Cause(path, others, error) <==> Cause(path, roots, error)
  {
    forall root: Bytes ensures root in others <==> root in roots { SameRoots(others, roots, root); }
  }

  function ToFront(roots: seq<Bytes>, i: nat): seq<Bytes>
    requires i < |roots|
  {
    [roots[i]] + (roots[..i] + roots[i + 1..])
  }

  lemma ToFrontReorders(roots: seq<Bytes>, i: nat)
    requires i < |roots|
    ensures Reorders(ToFront(roots, i), roots)
  {
    assert roots == roots[..i] + [roots[i]] + roots[i + 1..];
  }

  /** Whichever cause there is, some order of the same roots reports it. */
  lemma EveryCauseCanBeReported(path: Bytes, roots: seq<Bytes>, error: WorkspacePathError) returns (others: seq<Bytes>)
    requires Cause(path, roots, error)
    ensures Reorders(others, roots) && Scan(path, others, None, false) == Err(error)
  {
    if root :| root in roots && GraphKey(path, root) == Err(error) && !Skipped(Err(error)) {
      var i :| 0 <= i < |roots| && roots[i] == root;
      others := ToFront(roots, i);
      ToFrontReorders(roots, i);
    } else {
      var a, b :| a in roots && b in roots && Disagree(path, a, b);
      others := BothToFront(path, roots, a, b);
    }
  }

  lemma TwoToFront(roots: seq<Bytes>, a: Bytes, b: Bytes) returns (tail: seq<Bytes>)
    requires a in roots && b in roots && a != b
    ensures Reorders([a] + tail, roots) && tail != [] && tail[0] == b
  {
    var i :| 0 <= i < |roots| && roots[i] == a;
    var rest := roots[..i] + roots[i + 1..];
    ToFrontReorders(roots, i);
    var k :| 0 <= k < |roots| && roots[k] == b;
    var j := if k < i then k else k - 1;
    assert rest[j] == b;
    ToFrontReorders(rest, j);
    tail := ToFront(rest, j);
  }

  lemma BothToFront(path: Bytes, roots: seq<Bytes>, a: Bytes, b: Bytes) returns (others: seq<Bytes>)
    requires a in roots && b in roots && Disagree(path, a, b)
    ensures Reorders(others, roots) && Scan(path, others, None, false) == Err(AliasAmbiguity)
  {
    var tail := TwoToFront(roots, a, b);
    others := [a] + tail;
    assert others[1..] == tail;
    assert Scan(path, others, None, false) == Scan(path, tail, Some(GraphKey(path, a).value), false);
  }

  /** With a cause present, whatever the order, what is reported is a cause. */
  lemma SomeCauseIsReported(path: Bytes, roots: seq<Bytes>, error: WorkspacePathError)
    requires Cause(path, roots, error)
    ensures var r := Scan(path, roots, None, false); r.Err? && Cause(path, roots, r.error)
  {
    var r := Scan(path, roots, None, false);
    FailureHasACause(path, roots, [], None, false);
    assert [] + roots == roots;
    if r.Ok? {
      AgreementHasNoCause(path, roots, r.value, error);
    } else if Skipped(r) {
      SkippedMeansAll(path, roots, None, false);
    }
  }

  lemma AgreementHasNoCause(path: Bytes, roots: seq<Bytes>, key: VfsPath, error: WorkspacePathError)
    requires Scan(path, roots, None, false) == Ok(key)
    ensures !Cause(path, roots, error)
  {
    ScanMeaning(path, roots, None, false, key);
  }

  lemma {:induction false} SkippedMeansAll(path: Bytes, roots: seq<Bytes>, key: Option<VfsPath>, saw: bool)
    requires Skipped(Scan(path, roots, key, saw))
    ensures key.None? && forall root :: root in roots ==> Skipped(GraphKey(path, root))
    decreases |roots|
  {
    if roots != [] {
      var r := GraphKey(path, roots[0]);
      SkippedMeansAll(path, roots[1..], if r.Ok? then Some(r.value) else key, saw || r == Err(NotAbsolute));
      assert forall root :: root in roots <==> root == roots[0] || root in roots[1..];
    }
  }

  /** Without a cause, the result is the same in every order. */
  lemma NoCauseNoOrder(path: Bytes, roots: seq<Bytes>, others: seq<Bytes>)
    requires Reorders(others, roots) && forall e :: !Cause(path, roots, e)
    ensures Scan(path, others, None, false) == Scan(path, roots, None, false)
  {
    forall root: Bytes ensures root in others <==> root in roots { SameRoots(others, roots, root); }
    var r, o := Scan(path, roots, None, false), Scan(path, others, None, false);
    if r.Ok? {
      RootOrderIsIrrelevant(path, roots, others, r.value);
    } else {
      FailureHasACause(path, roots, [], None, false);
      assert [] + roots == roots;
      SkippedMeansAll(path, roots, None, false);
      ScanSkips(path, roots, false);
      ScanSkips(path, others, false);
    }
  }

  ghost predicate AnyOrder(path: Bytes, roots: seq<Bytes>) {
    forall others :: Reorders(others, roots) ==> Scan(path, others, None, false) == Scan(path, roots, None, false)
  }

  ghost predicate OneCause(path: Bytes, roots: seq<Bytes>) {
    forall d, e :: Cause(path, roots, d) && Cause(path, roots, e) ==> d == e
  }

  /** Every order of the roots gives the same answer, success or failure, exactly when there is at most one cause. */
  lemma OrderIsIrrelevantIff(path: Bytes, roots: seq<Bytes>)
    ensures AnyOrder(path, roots) <==> OneCause(path, roots)
  {
    if AnyOrder(path, roots) {
      forall d, e | Cause(path, roots, d) && Cause(path, roots, e) ensures d == e {
        var x := EveryCauseCanBeReported(path, roots, d);
        var y := EveryCauseCanBeReported(path, roots, e);
      }
    }
    if OneCause(path, roots) {
      forall others | Reorders(others, roots) ensures Scan(path, others, None, false) == Scan(path, roots, None, false) {
        if d :| Cause(path, roots, d) {
          SomeCauseIsReported(path, roots, d);
          SameCauses(path, others, roots, d);
          SomeCauseIsReported(path, others, d);
          SameCauses(path, others, roots, Scan(path, others, None, false).error);
        } else {
          NoCauseNoOrder(path, roots, others);
        }
      }
    }
  }

  lemma TwoOrders(path: Bytes, x: Bytes, y: Bytes, z: Bytes)
    requires GraphKey(path, x).Ok? && GraphKey(path, y).Ok? && GraphKey(path, x) != GraphKey(path, y)
    requires GraphKey(path, z) == Err(ParentTraversal)
    ensures Scan(path, [x, y, z], None, false) == Err(AliasAmbiguity)
    ensures Scan(path, [z, x, y], None, false) == Err(ParentTraversal)
  {
    assert [x, y, z][1..] == [y, z];
  }

  /** `//a/b` under the roots `/`, `//a` and `/..`: two orders, two kinds of failure. */
  lemma FailureKindDependsOnOrder()
    ensures var slash, dotdot: Bytes := [SLASH], [SLASH, DOT, DOT];
            var a, path: Bytes := [SLASH, SLASH, 97], [SLASH, SLASH, 97, SLASH, 98];
            && Scan(path, [slash, a, dotdot], None, false) == Err(AliasAmbiguity)
            && Scan(path, [dotdot, slash, a], None, false) == Err(ParentTraversal)
  {
    var slash, dotdot: Bytes := [SLASH], [SLASH, DOT, DOT];
    var a, path: Bytes := [SLASH, SLASH, 97], [SLASH, SLASH, 97, SLASH, 98];
    SlashAndDotDotParse();
    NameIsPath([97]);
    NameIsPath([98]);
    JoinNames([97], [98]);
    assert [97] + [SLASH] + [98] == [97, SLASH, 98];
    assert slash + [SLASH] + [97] == a && a + [SLASH] + [98] == path && slash + [SLASH] + [97, SLASH, 98] == path;
    CleanedKey([97]);
    ParseJoin(slash, [97]);
    KeyRoundTrip(slash, [97, SLASH, 98]);
    KeyRoundTrip(a, [98]);
    TwoOrders(path, slash, a, dotdot);
  }

  lemma SlashAndDotDotParse()
    ensures Parse([SLASH]) == Ok(HostPath(None, []))
    ensures Parse([SLASH, DOT, DOT]) == Err(ParentTraversal)
  {
    SplitPlain([DOT, DOT]);
    assert Cleaned([]) == Ok([]) by { assert Split([]) == [[]]; }
    assert [] + [SLASH] + [] == [SLASH] && [SLASH][0..] == [SLASH];
    assert [] + [SLASH] + [DOT, DOT] == [SLASH, DOT, DOT] && [SLASH, DOT, DOT][0..] == [SLASH, DOT, DOT];
    CleanedJoin([], []);
    CleanedJoin([], [DOT, DOT]);
  }

  /// The tree's own mapping

  function Slashes(n: nat): (r: Bytes)
    ensures |r| == n
  {
    seq(n, _ => SLASH)
  }

  /** Without its trailing separators. */
  function Trim(bytes: Bytes): (r: Bytes)
    ensures r <= bytes && (r == [] || r[|r| - 1] != SLASH)
  {
    if bytes != [] && bytes[|bytes| - 1] == SLASH then Trim(bytes[..|bytes| - 1]) else bytes
  }

  /** Without its trailing separators, but never less than one byte. */
  function TrimRoot(root: Bytes): (r: Bytes)
    ensures r <= root && (root != [] ==> r != []) && (|r| > 1 ==> r[|r| - 1] != SLASH)
  {
    if |root| > 1 && root[|root| - 1] == SLASH then TrimRoot(root[..|root| - 1]) else root
  }

  /** The root as `VirtualFileTree::new` stores it. */
  method WorkspaceRoot(root: Bytes) returns (r: Bytes)
    ensures r == TrimRoot(root) && (|r| > 1 ==> r[|r| - 1] != SLASH)
    ensures |r| <= |root| && root == r + Slashes(|root| - |r|)
  {
    TrimRootLeavesSlashes(root);
    r := root;
    while |r| > 1 && r[|r| - 1] == SLASH
      invariant TrimRoot(root) == TrimRoot(r)
    {
      r := r[..|r| - 1];
    }
  }

  function RelativeKey(workspaceRoot: Bytes, path: Bytes): Option<VfsPath> {
    if !(workspaceRoot <= path) then None
    else
      var rest := path[|workspaceRoot|..];
      if rest == [] then Some(ROOT)
      else if rest[0] != SLASH || !ValidPath(Trim(rest[1..])) then None
      else Some(Trim(rest[1..]))
  }

  method RelativePath(workspaceRoot: Bytes, path: Bytes) returns (r: Option<VfsPath>)
    ensures r == RelativeKey(workspaceRoot, path)
  {
    if !(workspaceRoot <= path) {
      return None;
    }
    var rest := path[|workspaceRoot|..];
    if rest == [] {
      return Some(ROOT);
    }
    if rest[0] != SLASH {
      return None;
    }
    rest := rest[1..];
    ghost var whole := rest;
    while |rest| > 0 && rest[|rest| - 1] == SLASH
      invariant Trim(whole) == Trim(rest)
    {
      rest := rest[..|rest| - 1];
    }
    var key := FromBytes(rest);
    if key.Ok? {
      return Some(key.value);
    }
    return None;
  }

  /** Trailing separators add no component. */
  lemma CleanedSlash(bytes: Bytes)
    ensures Cleaned(bytes + [SLASH]) == Cleaned(bytes)
  {
    assert bytes + [SLASH] + [] == bytes + [SLASH];
    assert Split([]) == [[]];
    CleanedJoin(bytes, []);
    if Cleaned(bytes).Ok? { assert Cleaned(bytes).value + [] == Cleaned(bytes).value; }
  }

  lemma {:induction false} CleanedTrim(bytes: Bytes)
    ensures Cleaned(Trim(bytes)) == Cleaned(bytes)
  {
    if bytes != [] && bytes[|bytes| - 1] == SLASH {
      var init := bytes[..|bytes| - 1];
      assert bytes == init + [SLASH];
      CleanedSlash(init);
      CleanedTrim(init);
    }
  }

  lemma {:induction false} CleanedTrimRoot(root: Bytes)
    ensures Cleaned(TrimRoot(root)) == Cleaned(root)
  {
    if |root| > 1 && root[|root| - 1] == SLASH {
      var init := root[..|root| - 1];
      assert root == init + [SLASH];
      CleanedSlash(init);
      CleanedTrimRoot(init);
    }
  }

  lemma ParseTrimRoot(root: Bytes)
    requires root != [] && root[0] == SLASH
    ensures Parse(TrimRoot(root)) == Parse(root)
  {
    var trimmed := TrimRoot(root);
    CleanedTrimRoot(root);
    assert trimmed[0..] == trimmed && root[0..] == root;
  }

  lemma KeyOfRoot(root: Bytes)
    requires root != [] && root[0] == SLASH && Parse(root).Ok?
    ensures GraphKey(TrimRoot(root), root) == Ok(ROOT)
  {
    ParseTrimRoot(root);
    var base := Parse(root).value;
    assert base.names[|base.names|..] == [];
  }

  lemma SameRoot(path: Bytes, a: Bytes, b: Bytes)
    requires Parse(a) == Parse(b)
    ensures GraphKey(path, a) == GraphKey(path, b)
  {
  }

  lemma KeyBelowTrimmed(root: Bytes, rest: Bytes, key: VfsPath)
    requires root != [] && root[0] == SLASH && Parse(root).Ok? && Trim(rest) == key
    ensures GraphKey(TrimRoot(root) + [SLASH] + rest, root) == Ok(key)
  {
    ParseTrimRoot(root);
    CleanedTrim(rest);
    CleanedKey(key);
    KeyBelow(TrimRoot(root), rest, key);
    SameRoot(TrimRoot(root) + [SLASH] + rest, TrimRoot(root), root);
  }

  /** Whatever key the tree's mapping answers, the graph key mapping answers the same. */
  lemma MappingsAgree(root: Bytes, path: Bytes)
    requires root != [] && root[0] == SLASH && Parse(root).Ok?
    ensures RelativeKey(TrimRoot(root), path).Some? ==>
            GraphKey(path, root) == Ok(RelativeKey(TrimRoot(root), path).value)
  {
    var workspaceRoot := TrimRoot(root);
    var answer := RelativeKey(workspaceRoot, path);
    if answer.Some? {
      var rest := path[|workspaceRoot|..];
      if rest == [] {
        assert path == workspaceRoot;
        KeyOfRoot(root);
      } else {
        assert path == workspaceRoot + [SLASH] + rest[1..];
        KeyBelowTrimmed(root, rest[1..], answer.value);
      }
    }
  }

  /// When the tree's mapping answers

  lemma {:induction false} TrimSlashes(bytes: Bytes, n: nat)
    requires bytes != [] ==> bytes[|bytes| - 1] != SLASH
    ensures Trim(bytes + Slashes(n)) == bytes
  {
    var long := bytes + Slashes(n);
    if n == 0 {
      assert long == bytes;
    } else {
      assert long[|long| - 1] == SLASH && long[..|long| - 1] == bytes + Slashes(n - 1);
      TrimSlashes(bytes, n - 1);
    }
  }

  lemma JoinEnds(dir: Bytes, name: VfsName)
    ensures name != [] && (dir + [SLASH] + name)[|dir| + |name|] == name[|name| - 1] && name[|name| - 1] != SLASH
  {
    assert name[|name| - 1] in name;
  }

  lemma LastByte(key: VfsPath)
    requires key != []
    ensures key[|key| - 1] != SLASH
  {
    ParentThenJoin(key);
    JoinEnds(Parent(key).value, FileName(key).value);
  }

  lemma {:induction false} TrimLeavesSlashes(bytes: Bytes)
    ensures bytes == Trim(bytes) + Slashes(|bytes| - |Trim(bytes)|)
  {
    if bytes != [] && bytes[|bytes| - 1] == SLASH {
      TrimLeavesSlashes(bytes[..|bytes| - 1]);
    }
  }

  lemma {:induction false} TrimRootLeavesSlashes(root: Bytes)
    ensures root == TrimRoot(root) + Slashes(|root| - |TrimRoot(root)|)
  {
    if |root| > 1 && root[|root| - 1] == SLASH {
      TrimRootLeavesSlashes(root[..|root| - 1]);
    }
  }

  /** The root itself, or the root, one separator, the key, and any number of separators. */
  ghost predicate Spells(workspaceRoot: Bytes, path: Bytes, key: VfsPath) {
    || (path == workspaceRoot && key == ROOT)
    || exists n: nat :: path == workspaceRoot + [SLASH] + (key + Slashes(n))
  }

  lemma AnswerIsSpelled(workspaceRoot: Bytes, path: Bytes, key: VfsPath)
    requires RelativeKey(workspaceRoot, path) == Some(key)
    ensures Spells(workspaceRoot, path, key)
  {
    var rest := path[|workspaceRoot|..];
    assert path == workspaceRoot + rest;
    if rest != [] {
      var n := |rest| - 1 - |key|;
      TrimLeavesSlashes(rest[1..]);
      assert rest == [SLASH] + (key + Slashes(n));
      assert path == workspaceRoot + [SLASH] + (key + Slashes(n));
    }
  }

  lemma SpellingIsAnswered(workspaceRoot: Bytes, key: VfsPath, n: nat)
    ensures RelativeKey(workspaceRoot, workspaceRoot + [SLASH] + (key + Slashes(n))) == Some(key)
  {
    var path, tail := workspaceRoot + [SLASH] + (key + Slashes(n)), key + Slashes(n);
    assert path[..|workspaceRoot|] == workspaceRoot;
    assert path[|workspaceRoot|..][1..] == tail;
    if key != [] { LastByte(key); }
    TrimSlashes(key, n);
  }

  /** The tree's mapping answers a key for exactly those paths. */
  lemma RelativeKeyIff(workspaceRoot: Bytes, path: Bytes, key: VfsPath)
    ensures RelativeKey(workspaceRoot, path) == Some(key) <==> Spells(workspaceRoot, path, key)
  {
    if RelativeKey(workspaceRoot, path) == Some(key) {
      AnswerIsSpelled(workspaceRoot, path, key);
    }
    if n: nat :| path == workspaceRoot + [SLASH] + (key + Slashes(n)) {
      SpellingIsAnswered(workspaceRoot, key, n);
    }
  }

  /** Of the paths with a graph key, the tree's mapping answers exactly those spelled that way, and no other key. */
  lemma TreeMappingAnswersIff(root: Bytes, path: Bytes, key: VfsPath)
    requires root != [] && root[0] == SLASH && GraphKey(path, root) == Ok(key)
    ensures RelativeKey(TrimRoot(root), path).Some? <==> Spells(TrimRoot(root), path, key)
    ensures RelativeKey(TrimRoot(root), path).Some? ==> RelativeKey(TrimRoot(root), path) == Some(key)
  {
    MappingsAgree(root, path);
    RelativeKeyIff(TrimRoot(root), path, key);
  }

  /** Under the root `/`, the paths `/` and `//a` have keys in both mappings, and `/a` only a graph key. */
  lemma SlashRootMapsLess()
    ensures RelativeKey(TrimRoot([SLASH]), [SLASH]) == Some(ROOT)
    ensures RelativeKey(TrimRoot([SLASH]), [SLASH, SLASH, 97]) == Some([97])
    ensures RelativeKey(TrimRoot([SLASH]), [SLASH, 97]) == None
    ensures GraphKey([SLASH], [SLASH]) == Ok(ROOT)
    ensures GraphKey([SLASH, SLASH, 97], [SLASH]) == Ok([97])
    ensures GraphKey([SLASH, 97], [SLASH]) == Ok([97])
  {
    var path, root: Bytes := [SLASH, 97], [SLASH];
    SplitPlain([97]);
    assert Cleaned([]) == Ok([]) by { assert Split([]) == [[]]; }
    assert [] + [SLASH] + [97] == path && [] + [SLASH] + [] == root && path[0..] == path && root[0..] == root;
    CleanedJoin([], [97]);
    CleanedJoin([], []);
    var name: VfsName := [97];
    assert Parse(root) == Ok(HostPath(None, [])) && Parse(path) == Ok(HostPath(None, [name]));
    assert [name][0..] == [name];
    RelativeKeyIff(root, root, ROOT);
    assert root + [SLASH] + ([97] + Slashes(0)) == [SLASH, SLASH, 97];
    RelativeKeyIff(root, [SLASH, SLASH, 97], [97]);
    MappingsAgree(root, root);
    MappingsAgree(root, [SLASH, SLASH, 97]);
  }
}
