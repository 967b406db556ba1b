/** The mutating requests on the wire (protocol.rs): their MessagePack encoding and the frame bound. */
module WireFrame {
  import opened Wrappers
  import opened ByteStrings
  import opened VfsPaths
  import opened Staging

  datatype Request =
    | Write(path: VfsPath, data: Bytes)
    | Remove(path: VfsPath)
    | Rename(from: VfsPath, to: VfsPath)

  /** MessagePack lengths are at most 32 bits wide. */
  predicate Encodable(request: Request) {
    match request
    case Write(path, data) => |path| < 0x1_0000_0000 && |data| < 0x1_0000_0000
    case Remove(path) => |path| < 0x1_0000_0000
    case Rename(from, to) => |from| < 0x1_0000_0000 && |to| < 0x1_0000_0000
  }

  /// Encoding

  /** A one-entry map from the variant's name to an array of its fields. */
  const WRITE_TAG: Bytes := [0x81, 0xa5, 0x57, 0x72, 0x69, 0x74, 0x65, 0x92]
  const REMOVE_TAG: Bytes := [0x81, 0xa6, 0x52, 0x65, 0x6d, 0x6f, 0x76, 0x65, 0x91]
  const RENAME_TAG: Bytes := [0x81, 0xa6, 0x52, 0x65, 0x6e, 0x61, 0x6d, 0x65, 0x92]

  /** The bin family: an 8, 16 or 32 bit length, then the bytes. */
  function BinHeader(n: nat): (r: Bytes)
    requires n < 0x1_0000_0000
    ensures |r| == if n < 0x100 then 2 else if n < 0x1_0000 then 3 else 5
  {
    if n < 0x100 then [0xc4] + BigEndian(1, n)
    else if n < 0x1_0000 then [0xc5] + BigEndian(2, n)
    else [0xc6] + BigEndian(4, n)
  }

  /** The array family: a 4, 16 or 32 bit count. */
  function ArrayHeader(n: nat): (r: Bytes)
    requires n < 0x1_0000_0000
    ensures |r| == if n < 16 then 1 else if n < 0x1_0000 then 3 else 5
  {
    if n < 16 then [0x90 + n]
    else if n < 0x1_0000 then [0xdc] + BigEndian(2, n)
    else [0xdd] + BigEndian(4, n)
  }

  function Bin(bytes: Bytes): Bytes
    requires |bytes| < 0x1_0000_0000
  {
    BinHeader(|bytes|) + bytes
  }

  /** The int family for one byte: itself up to 0x7f, behind a marker from 0x80 on. */
  function Int(b: byte): Bytes {
    if b < 0x80 then [b] else [0xcc, b]
  }

  function Ints(data: Bytes): Bytes {
    if data == [] then [] else Int(data[0]) + Ints(data[1..])
  }

  function Encode(request: Request): Bytes
    requires Encodable(request)
  {
    match request
    case Write(path, data) => WRITE_TAG + (Bin(path) + (ArrayHeader(|data|) + Ints(data)))
    case Remove(path) => REMOVE_TAG + Bin(path)
    case Rename(from, to) => RENAME_TAG + (Bin(from) + Bin(to))
  }

  /// Decoding

  /** A value and the bytes after it. */
  datatype Parsed<+T> = Parsed(value: T, rest: Bytes)

  function TakeLength(width: nat, bytes: Bytes): Option<Parsed<nat>> {
    if |bytes| < width then None else Some(Parsed(FromBigEndian(bytes[..width]), bytes[width..]))
  }

  function DecodeBinHeader(bytes: Bytes): Option<Parsed<nat>> {
    if bytes == [] then None
    else if bytes[0] == 0xc4 then TakeLength(1, bytes[1..])
    else if bytes[0] == 0xc5 then TakeLength(2, bytes[1..])
    else if bytes[0] == 0xc6 then TakeLength(4, bytes[1..])
    else None
  }

  function DecodeArrayHeader(bytes: Bytes): Option<Parsed<nat>> {
    if bytes == [] then None
    else if 0x90 <= bytes[0] < 0xa0 then Some(Parsed(bytes[0] - 0x90, bytes[1..]))
    else if bytes[0] == 0xdc then TakeLength(2, bytes[1..])
    else if bytes[0] == 0xdd then TakeLength(4, bytes[1..])
    else None
  }

  /** A path is validated again as it is decoded. */
  function DecodePath(bytes: Bytes): Option<Parsed<VfsPath>> {
    var header :- DecodeBinHeader(bytes);
    if |header.rest| < header.value || !ValidPath(header.rest[..header.value]) then None
    else Some(Parsed(header.rest[..header.value], header.rest[header.value..]))
  }

  function DecodeInts(count: nat, bytes: Bytes): Option<Parsed<Bytes>>
    decreases count
  {
    if count == 0 then Some(Parsed([], bytes))
    else if bytes == [] || (0x80 <= bytes[0] && (bytes[0] != 0xcc || |bytes| == 1)) then None
    else
      var head := if bytes[0] == 0xcc then Parsed(bytes[1], bytes[2..]) else Parsed(bytes[0], bytes[1..]);
      var tail :- DecodeInts(count - 1, head.rest);
      Some(Parsed([head.value] + tail.value, tail.rest))
  }

  function DecodeWrite(bytes: Bytes): Option<Request> {
    var path :- DecodePath(bytes);
    var count :- DecodeArrayHeader(path.rest);
    var data :- DecodeInts(count.value, count.rest);
    if data.rest == [] then Some(Write(path.value, data.value)) else None
  }

  function DecodeRename(bytes: Bytes): Option<Request> {
    var from :- DecodePath(bytes);
    var to :- DecodePath(from.rest);
    if to.rest == [] then Some(Rename(from.value, to.value)) else None
  }

  function DecodeRemove(bytes: Bytes): Option<Request> {
    var path :- DecodePath(bytes);
    if path.rest == [] then Some(Remove(path.value)) else None
  }

  function Decode(bytes: Bytes): Option<Request> {
    if WRITE_TAG <= bytes then DecodeWrite(bytes[|WRITE_TAG|..])
    else if REMOVE_TAG <= bytes then DecodeRemove(bytes[|REMOVE_TAG|..])
    else if RENAME_TAG <= bytes then DecodeRename(bytes[|RENAME_TAG|..])
    else None
  }

  /// Round trip

  lemma TakeLengthOf(width: nat, n: nat, rest: Bytes)
    requires n < Pow256(width)
    ensures TakeLength(width, BigEndian(width, n) + rest) == Some(Parsed(n, rest))
  {
    BigEndianRoundTrip(width, n);
    assert (BigEndian(width, n) + rest)[..width] == BigEndian(width, n);
    assert (BigEndian(width, n) + rest)[width..] == rest;
  }

  lemma Uncons(b: byte, x: Bytes, rest: Bytes)
    ensures ([b] + x + rest)[0] == b && ([b] + x + rest)[1..] == x + rest
  {
  }

  lemma Widths()
    ensures Pow256(1) == 0x100 && Pow256(2) == 0x1_0000 && Pow256(4) == 0x1_0000_0000
  {
    assert Pow256(3) == 0x100_0000;
  }

  lemma BinHeaderDecodes(n: nat, rest: Bytes)
    requires n < 0x1_0000_0000
    ensures DecodeBinHeader(BinHeader(n) + rest) == Some(Parsed(n, rest))
  {
    Widths();
    var width := if n < 0x100 then 1 else if n < 0x1_0000 then 2 else 4;
    Uncons(BinHeader(n)[0], BigEndian(width, n), rest);
    TakeLengthOf(width, n, rest);
  }

  lemma ArrayHeaderDecodes(n: nat, rest: Bytes)
    requires n < 0x1_0000_0000
    ensures DecodeArrayHeader(ArrayHeader(n) + rest) == Some(Parsed(n, rest))
  {
    if n >= 16 {
      Widths();
      var width := if n < 0x1_0000 then 2 else 4;
      Uncons(ArrayHeader(n)[0], BigEndian(width, n), rest);
      TakeLengthOf(width, n, rest);
    }
  }

  lemma PathDecodes(path: VfsPath, rest: Bytes)
    requires |path| < 0x1_0000_0000
    ensures DecodePath(Bin(path) + rest) == Some(Parsed(path, rest))
  {
    assert Bin(path) + rest == BinHeader(|path|) + (path + rest);
    BinHeaderDecodes(|path|, path + rest);
    assert (path + rest)[..|path|] == path && (path + rest)[|path|..] == rest;
  }

  lemma {:induction false} IntsDecode(data: Bytes, rest: Bytes)
    ensures DecodeInts(|data|, Ints(data) + rest) == Some(Parsed(data, rest))
  {
    if data == [] {
      assert Ints(data) + rest == rest;
    } else {
      var tail := Ints(data[1..]) + rest;
      IntsDecode(data[1..], rest);
      assert Ints(data) + rest == Int(data[0]) + tail;
      assert (Int(data[0]) + tail)[|Int(data[0])|..] == tail;
      assert [data[0]] + data[1..] == data;
    }
  }

  lemma Tagged(tag: Bytes, rest: Bytes)
    ensures tag <= tag + rest && (tag + rest)[|tag|..] == rest
  {
  }

  /** Every encodable request decodes to itself, its paths validated again on the way. */
  lemma RequestRoundTrip(request: Request)
    requires Encodable(request)
    ensures Decode(Encode(request)) == Some(request)
  {
    match request
    case Write(path, data) =>
      WriteDecodes(path, data);
    case Remove(path) =>
      Tagged(REMOVE_TAG, Bin(path));
      assert Encode(request)[1] == REMOVE_TAG[1] != WRITE_TAG[1];
      assert Bin(path) + [] == Bin(path);
      PathDecodes(path, []);
    case Rename(from, to) =>
      Tagged(RENAME_TAG, Bin(from) + Bin(to));
      assert Encode(request)[1] == RENAME_TAG[1] != WRITE_TAG[1];
      assert Encode(request)[4] == RENAME_TAG[4] != REMOVE_TAG[4];
      PathDecodes(from, Bin(to));
      assert Bin(to) + [] == Bin(to);
      PathDecodes(to, []);
  }

  lemma WriteDecodes(path: VfsPath, data: Bytes)
    requires Encodable(Write(path, data))
    ensures Decode(Encode(Write(path, data))) == Some(Write(path, data))
  {
    var body := ArrayHeader(|data|) + Ints(data);
    Tagged(WRITE_TAG, Bin(path) + body);
    PathDecodes(path, body);
    ArrayHeaderDecodes(|data|, Ints(data));
    assert Ints(data) + [] == Ints(data);
    IntsDecode(data, []);
  }

  /** The pinned encodings, byte for byte. */
  lemma PinnedEncodings(a: VfsPath, b: VfsPath)
    requires a == [0x61] && b == [0x62]
    ensures Encode(Write(a, [0x78])) ==
            [0x81, 0xa5, 0x57, 0x72, 0x69, 0x74, 0x65, 0x92, 0xc4, 0x01, 0x61, 0x91, 0x78]
    ensures Encode(Remove(a)) == [0x81, 0xa6, 0x52, 0x65, 0x6d, 0x6f, 0x76, 0x65, 0x91, 0xc4, 0x01, 0x61]
    ensures Encode(Rename(a, b)) ==
            [0x81, 0xa6, 0x52, 0x65, 0x6e, 0x61, 0x6d, 0x65, 0x92, 0xc4, 0x01, 0x61, 0xc4, 0x01, 0x62]
  {
    assert BigEndian(1, 1) == [1];
    assert Ints([0x78]) == [0x78] + Ints([]);
  }

  /// Exactly what is accepted

  /** `bytes` are an `n` of this width and then `rest`. */
  predicate LengthAt(width: nat, bytes: Bytes, n: nat, rest: Bytes) {
    n < Pow256(width) && bytes == BigEndian(width, n) + rest
  }

  predicate BinAt(bytes: Bytes, n: nat, rest: Bytes) {
    bytes != [] && ((bytes[0] == 0xc4 && LengthAt(1, bytes[1..], n, rest)) ||
                    (bytes[0] == 0xc5 && LengthAt(2, bytes[1..], n, rest)) ||
                    (bytes[0] == 0xc6 && LengthAt(4, bytes[1..], n, rest)))
  }

  predicate ArrayAt(bytes: Bytes, n: nat, rest: Bytes) {
    bytes != [] && ((n <= 15 && bytes == [144 + n] + rest) ||
                    (bytes[0] == 0xdc && LengthAt(2, bytes[1..], n, rest)) ||
                    (bytes[0] == 0xdd && LengthAt(4, bytes[1..], n, rest)))
  }

  predicate PathAt(bytes: Bytes, path: VfsPath, rest: Bytes) {
    BinAt(bytes, |path|, path + rest)
  }

  /** Each byte as itself up to 127, or behind the marker. */
  predicate IntsAt(bytes: Bytes, data: Bytes, rest: Bytes)
    decreases |data|
  {
    if data == [] then bytes == rest
    else || ([data[0]] <= bytes && data[0] <= 127 && IntsAt(bytes[1..], data[1..], rest))
         || ([0xcc, data[0]] <= bytes && IntsAt(bytes[2..], data[1..], rest))
  }

  /** `bytes` spell this request: its own tag, and each field in any width that holds it, to the end. */
  ghost predicate Spells(bytes: Bytes, request: Request) {
    match request
    case Write(path, data) =>
      WRITE_TAG <= bytes && exists mid, ints ::
        PathAt(bytes[|WRITE_TAG|..], path, mid) && ArrayAt(mid, |data|, ints) && IntsAt(ints, data, [])
    case Remove(path) => REMOVE_TAG <= bytes && PathAt(bytes[|REMOVE_TAG|..], path, [])
    case Rename(from, to) =>
      RENAME_TAG <= bytes && exists mid :: PathAt(bytes[|RENAME_TAG|..], from, mid) && PathAt(mid, to, [])
  }

  lemma LengthIff(width: nat, bytes: Bytes, n: nat, rest: Bytes)
    ensures TakeLength(width, bytes) == Some(Parsed(n, rest)) <==> LengthAt(width, bytes, n, rest)
  {
    if LengthAt(width, bytes, n, rest) { TakeLengthOf(width, n, rest); }
    if TakeLength(width, bytes) == Some(Parsed(n, rest)) {
      FromThenTo(bytes[..width]);
      assert bytes == bytes[..width] + bytes[width..];
    }
  }

  lemma {:induction false} FromThenTo(bytes: Bytes)
    ensures FromBigEndian(bytes) < Pow256(|bytes|) && BigEndian(|bytes|, FromBigEndian(bytes)) == bytes
  {
    if bytes != [] {
      FromThenTo(bytes[..|bytes| - 1]);
    }
  }

  lemma BinIff(bytes: Bytes, n: nat, rest: Bytes)
    ensures DecodeBinHeader(bytes) == Some(Parsed(n, rest)) <==> BinAt(bytes, n, rest)
  {
    if bytes != [] {
      LengthIff(1, bytes[1..], n, rest);
      LengthIff(2, bytes[1..], n, rest);
      LengthIff(4, bytes[1..], n, rest);
    }
  }

  lemma ArrayIff(bytes: Bytes, n: nat, rest: Bytes)
    ensures DecodeArrayHeader(bytes) == Some(Parsed(n, rest)) <==> ArrayAt(bytes, n, rest)
  {
    if bytes != [] {
      LengthIff(2, bytes[1..], n, rest);
      LengthIff(4, bytes[1..], n, rest);
      assert bytes == [bytes[0]] + bytes[1..];
    }
  }

  lemma PathIff(bytes: Bytes, path: VfsPath, rest: Bytes)
    ensures DecodePath(bytes) == Some(Parsed(path, rest)) <==> PathAt(bytes, path, rest)
  {
    BinIff(bytes, |path|, path + rest);
    assert (path + rest)[..|path|] == path && (path + rest)[|path|..] == rest;
    if DecodePath(bytes) == Some(Parsed(path, rest)) {
      var header := DecodeBinHeader(bytes).value;
      assert header.rest == header.rest[..header.value] + header.rest[header.value..];
    }
  }

  lemma {:induction false} IntsIff(bytes: Bytes, data: Bytes, rest: Bytes)
    ensures DecodeInts(|data|, bytes) == Some(Parsed(data, rest)) <==> IntsAt(bytes, data, rest)
    decreases |data|
  {
    if data != [] && bytes != [] {
      var wide := bytes[0] == 0xcc && |bytes| > 1;
      var tail := if wide then bytes[2..] else bytes[1..];
      IntsIff(tail, data[1..], rest);
      IntsCount(|data| - 1, tail);
      assert data == [data[0]] + data[1..];
    }
  }

  lemma {:induction false} IntsCount(count: nat, bytes: Bytes)
    ensures DecodeInts(count, bytes).Some? ==> |DecodeInts(count, bytes).value.value| == count
  {
    if count > 0 && bytes != [] {
      IntsCount(count - 1, if bytes[0] == 0xcc && |bytes| > 1 then bytes[2..] else bytes[1..]);
    }
  }

  lemma WriteIff(bytes: Bytes, path: VfsPath, data: Bytes)
    ensures DecodeWrite(bytes) == Some(Write(path, data)) <==>
            exists mid, ints :: PathAt(bytes, path, mid) && ArrayAt(mid, |data|, ints) && IntsAt(ints, data, [])
  {
    forall mid, ints | PathAt(bytes, path, mid) && ArrayAt(mid, |data|, ints) && IntsAt(ints, data, [])
      ensures DecodeWrite(bytes) == Some(Write(path, data))
    {
      PathIff(bytes, path, mid);
      ArrayIff(mid, |data|, ints);
      IntsIff(ints, data, []);
    }
    if DecodeWrite(bytes) == Some(Write(path, data)) {
      var mid := DecodePath(bytes).value.rest;
      var count := DecodeArrayHeader(mid).value;
      PathIff(bytes, path, mid);
      IntsCount(count.value, count.rest);
      ArrayIff(mid, |data|, count.rest);
      IntsIff(count.rest, data, []);
    }
  }

  lemma RenameIff(bytes: Bytes, from: VfsPath, to: VfsPath)
    ensures DecodeRename(bytes) == Some(Rename(from, to)) <==> exists mid :: PathAt(bytes, from, mid) && PathAt(mid, to, [])
  {
    forall mid | PathAt(bytes, from, mid) && PathAt(mid, to, []) ensures DecodeRename(bytes) == Some(Rename(from, to)) {
      PathIff(bytes, from, mid);
      PathIff(mid, to, []);
    }
    if DecodeRename(bytes) == Some(Rename(from, to)) {
      var mid := DecodePath(bytes).value.rest;
      PathIff(bytes, from, mid);
      PathIff(mid, to, []);
    }
  }

  lemma OneTag(bytes: Bytes)
    ensures WRITE_TAG <= bytes ==> !(REMOVE_TAG <= bytes) && !(RENAME_TAG <= bytes)
    ensures REMOVE_TAG <= bytes ==> !(RENAME_TAG <= bytes)
  {
    if WRITE_TAG <= bytes { assert bytes[1] == 0xa5; }
    if REMOVE_TAG <= bytes { assert bytes[1] == 0xa6 && bytes[4] == 0x6d; }
    if RENAME_TAG <= bytes { assert bytes[1] == 0xa6 && bytes[4] == 0x6e; }
  }

  /** The decoder accepts exactly the spellings of a request, and as that request. */
  lemma DecodeIff(bytes: Bytes, request: Request)
    ensures Decode(bytes) == Some(request) <==> Spells(bytes, request)
  {
    OneTag(bytes);
    match request
    case Write(path, data) => if WRITE_TAG <= bytes { WriteIff(bytes[|WRITE_TAG|..], path, data); }
    case Remove(path) => if REMOVE_TAG <= bytes { PathIff(bytes[|REMOVE_TAG|..], path, []); }
    case Rename(from, to) => if RENAME_TAG <= bytes { RenameIff(bytes[|RENAME_TAG|..], from, to); }
  }

  /// The frame bound

  /** How many bytes take two on the wire. */
  function Wide(data: Bytes): (r: nat)
    ensures r <= |data|
  {
    if data == [] then 0 else (if data[0] >= 0x80 then 1 else 0) + Wide(data[1..])
  }

  lemma {:induction false} IntsLength(data: Bytes)
    ensures |Ints(data)| == |data| + Wide(data)
  {
    if data != [] { IntsLength(data[1..]); }
  }

  lemma {:induction false} AllWide(data: Bytes)
    requires forall i :: 0 <= i < |data| ==> data[i] >= 0x80
    ensures Wide(data) == |data|
  {
    if data != [] { AllWide(data[1..]); }
  }

  lemma WriteLength(path: VfsPath, data: Bytes)
    requires Encodable(Write(path, data))
    ensures |Encode(Write(path, data))| ==
            8 + |BinHeader(|path|)| + |path| + |ArrayHeader(|data|)| + |data| + Wide(data)
  {
    IntsLength(data);
  }

  /** Any body up to the bound fits one frame, behind any path of at most 65520 bytes. */
  lemma WriteFits(path: VfsPath, data: Bytes)
    requires |data| <= MAX_PROJECTION_WRITE && |path| <= 65520
    ensures Encodable(Write(path, data)) && |Encode(Write(path, data))| <= MAX_FRAME_BYTES
  {
    WriteLength(path, data);
  }

  /** In the worst case, a body at the bound with no byte below 0x80, that path bound is exact. */
  lemma PathBoundIsSharp(path: VfsPath, data: Bytes)
    requires |data| == MAX_PROJECTION_WRITE && |path| < 0x1_0000_0000
    requires forall i :: 0 <= i < |data| ==> data[i] >= 0x80
    ensures |Encode(Write(path, data))| <= MAX_FRAME_BYTES <==> |path| <= 65520
  {
    WriteLength(path, data);
    AllWide(data);
  }
}
