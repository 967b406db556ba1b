/** The three byte-range cuts of the read paths, against one reference. */
module ByteRanges {
  import opened Wrappers
  import opened ByteStrings

  const U64_MAX: u64 := U64_LIMIT - 1

  function Min(a: nat, b: nat): nat {
    if a <= b then a else b
  }

  function SaturatingAdd(a: u64, b: u64): u64 {
    if a + b < U64_LIMIT then a + b else U64_MAX
  }

  /** The bytes of `data` at positions `offset` up to `offset + len`. */
  function Range(data: Bytes, offset: nat, len: nat): (r: Bytes)
    ensures |r| == if offset >= |data| then 0 else Min(len, |data| - offset)
    ensures forall i :: 0 <= i < |r| ==> r[i] == data[offset + i]
  {
    data[Min(offset, |data|)..Min(offset + len, |data|)]
  }

  /** `slice_verified_blob`. */
  function SliceVerifiedBlob(data: Bytes, offset: u64, len: u64): (r: VfsResult<Bytes>)
    ensures r == if |data| < U64_LIMIT then Ok(Range(data, offset, len)) else Err(Provider)
  {
    if |data| >= U64_LIMIT then Err(Provider)
    else if len == 0 || offset >= |data| then Ok([])
    else Ok(data[offset..Min(SaturatingAdd(offset, len), |data|)])
  }

  /** The cut `read_staged` makes of the host file. */
  function SliceStaged(data: Bytes, offset: u64, len: u64): (r: Bytes)
    requires |data| < U64_LIMIT
    ensures r == Range(data, offset, len)
  {
    data[Min(offset, |data|)..Min(SaturatingAdd(offset, len), |data|)]
  }

  /**
   The cut `VirtualFileTree::read_range` makes of a cached body in a release build, where `offset + len`
   wraps; None is the panic of a slice that ends before it starts.
   */
  function SliceCached(data: Bytes, offset: u64, len: u64): Option<Bytes> {
    var end := (offset + len) % U64_LIMIT;
    if offset >= |data| then Some([])
    else if offset <= Min(end, |data|) then Some(data[offset..Min(end, |data|)])
    else None
  }

  /** The cached cut is the reference cut exactly when the end does not wrap or the offset is past the body. */
  lemma CachedSliceIsRange(data: Bytes, offset: u64, len: u64)
    ensures SliceCached(data, offset, len) == Some(Range(data, offset, len)) <==>
            offset + len < U64_LIMIT || offset >= |data|
    ensures SliceCached(data, offset, len).None? <==> offset + len >= U64_LIMIT && offset < |data|
  {
    if offset + len < U64_LIMIT {
      assert (offset + len) % U64_LIMIT == offset + len;
    } else {
      assert (offset + len) % U64_LIMIT == offset + len - U64_LIMIT;
    }
  }
}
