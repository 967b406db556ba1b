/** The synthetic inode (pathmap.rs): FNV-1a over 64-bit words, and which paths it can confuse. */
module Inodes {
  import opened ByteStrings

  const OFFSET_BASIS: u64 := 0xcbf2_9ce4_8422_2325
  const PRIME: nat := 0x0000_0100_0000_01b3
  /** The inverse of `PRIME` modulo 2^64. */
  const INVERSE: nat := 0xce96_5057_aff6_957b
  const CARRY: nat := 887285111055

  /// Exclusive or, bit by bit

  function Pow2(n: nat): (r: nat)
    ensures r >= 1
  {
    if n == 0 then 1 else 2 * Pow2(n - 1)
  }

  /** Exclusive or of the two lowest bits. */
  function XorBit(a: nat, b: nat): (r: nat)
    ensures r < 2
  {
    if a % 2 == b % 2 then 0 else 1
  }

  function Xor(a: nat, b: nat, width: nat): (r: nat)
    ensures r < Pow2(width)
  {
    if width == 0 then 0 else XorBit(a, b) + 2 * Xor(a / 2, b / 2, width - 1)
  }

  lemma LowBit(low: nat, high: nat)
    requires low < 2
    ensures (low + 2 * high) % 2 == low && (low + 2 * high) / 2 == high
  {
  }

  /** Bit `i` of a number, counted from the lowest. */
  function Bit(x: nat, i: nat): nat {
    if i == 0 then x % 2 else Bit(x / 2, i - 1)
  }

  /** Each bit is set exactly where one of the two is and the other is not. */
  lemma {:induction false} XorBits(a: nat, b: nat, width: nat, i: nat)
    requires i < width
    ensures Bit(Xor(a, b, width), i) == (Bit(a, i) + Bit(b, i)) % 2
  {
    LowBit(XorBit(a, b), Xor(a / 2, b / 2, width - 1));
    if i > 0 { XorBits(a / 2, b / 2, width - 1, i - 1); }
  }

  lemma BitUndoes(a: nat, b: nat)
    ensures XorBit(XorBit(a, b), b) == a % 2
  {
  }

  lemma XorCons(low: nat, high: nat, b: nat, width: nat)
    requires low < 2 && width > 0
    ensures Xor(low + 2 * high, b, width) == XorBit(low, b) + 2 * Xor(high, b / 2, width - 1)
  {
    LowBit(low, high);
  }

  lemma {:induction false} XorUndoes(a: nat, b: nat, width: nat)
    requires a < Pow2(width)
    ensures Xor(Xor(a, b, width), b, width) == a
  {
    if width > 0 {
      XorUndoes(a / 2, b / 2, width - 1);
      XorCons(XorBit(a, b), Xor(a / 2, b / 2, width - 1), b, width);
      BitUndoes(a, b);
    }
  }

  lemma {:induction false} XorCommutes(a: nat, b: nat, width: nat)
    ensures Xor(a, b, width) == Xor(b, a, width)
  {
    if width > 0 { XorCommutes(a / 2, b / 2, width - 1); }
  }

  lemma {:induction false} Pow2Twice(n: nat, m: nat)
    ensures Pow2(n + m) == Pow2(n) * Pow2(m)
  {
    if n > 0 { Pow2Twice(n - 1, m); }
  }

  lemma Pow2Word()
    ensures Pow2(64) == U64_LIMIT && Pow2(8) == 256
  {
    assert Pow2(4) == 16;
    Pow2Twice(4, 4);
    Pow2Twice(8, 8);
    Pow2Twice(16, 16);
    Pow2Twice(32, 32);
  }

  /// The hash

  function Mix(hash: u64, b: byte): u64 {
    (Xor(hash, b as nat, 64) * PRIME) % U64_LIMIT
  }

  function Hash(hash: u64, bytes: Bytes): u64
    decreases |bytes|
  {
    if bytes == [] then hash else Hash(Mix(hash, bytes[0]), bytes[1..])
  }

  method SyntheticInode(bytes: Bytes) returns (hash: u64)
    ensures hash == Hash(OFFSET_BASIS, bytes)
  {
    hash := OFFSET_BASIS;
    for i := 0 to |bytes|
      invariant Hash(OFFSET_BASIS, bytes) == Hash(hash, bytes[i..])
    {
      assert bytes[i..][1..] == bytes[i + 1..];
      hash := Mix(hash, bytes[i]);
    }
  }

  /** Multiplication by the odd prime is undone by its inverse. */
  lemma TimesInverse(a: u64)
    ensures ((a * PRIME) % U64_LIMIT * INVERSE) % U64_LIMIT == a
  {
    var q, r := a * PRIME / U64_LIMIT, (a * PRIME) % U64_LIMIT;
    assert r == a * PRIME - q * U64_LIMIT;
    assert PRIME * INVERSE == 1 + CARRY * U64_LIMIT;
    assert r * INVERSE == a + (a * CARRY - q * INVERSE) * U64_LIMIT;
    Residue(r * INVERSE, a, a * CARRY - q * INVERSE);
  }

  lemma Residue(x: int, a: u64, k: int)
    requires x == a + k * U64_LIMIT
    ensures x % U64_LIMIT == a
  {
  }

  /** One round loses nothing: neither the hash so far nor the byte. */
  lemma MixInjective(g: u64, h: u64, b: byte, c: byte)
    requires Mix(g, b) == Mix(h, c)
    ensures b == c ==> g == h
    ensures g == h ==> b == c
  {
    Pow2Word();
    TimesInverse(Xor(g, b as nat, 64));
    TimesInverse(Xor(h, c as nat, 64));
    XorUndoes(g, b as nat, 64);
    XorUndoes(h, c as nat, 64);
    XorCommutes(g, b as nat, 64);
    XorCommutes(h, c as nat, 64);
    XorUndoes(b as nat, g, 64);
    XorUndoes(c as nat, h, 64);
  }

  lemma {:induction false} HashInjective(g: u64, h: u64, suffix: Bytes)
    ensures Hash(g, suffix) == Hash(h, suffix) <==> g == h
    decreases |suffix|
  {
    if suffix != [] {
      HashInjective(Mix(g, suffix[0]), Mix(h, suffix[0]), suffix[1..]);
      if Mix(g, suffix[0]) == Mix(h, suffix[0]) { MixInjective(g, h, suffix[0], suffix[0]); }
    }
  }

  lemma {:induction false} HashConcat(h: u64, a: Bytes, b: Bytes)
    ensures Hash(h, a + b) == Hash(Hash(h, a), b)
    decreases |a|
  {
    if a == [] {
      assert a + b == b;
    } else {
      assert (a + b)[1..] == a[1..] + b;
      HashConcat(Mix(h, a[0]), a[1..], b);
    }
  }

  /** Appending the same suffix neither creates nor removes a collision. */
  lemma SuffixKeepsCollisions(s: Bytes, t: Bytes, suffix: Bytes)
    ensures Hash(OFFSET_BASIS, s + suffix) == Hash(OFFSET_BASIS, t + suffix) <==>
            Hash(OFFSET_BASIS, s) == Hash(OFFSET_BASIS, t)
  {
    HashConcat(OFFSET_BASIS, s, suffix);
    HashConcat(OFFSET_BASIS, t, suffix);
    HashInjective(Hash(OFFSET_BASIS, s), Hash(OFFSET_BASIS, t), suffix);
  }

  /** Paths that differ in exactly one byte never share an inode. */
  lemma OneByteApart(s: Bytes, i: nat, b: byte)
    requires i < |s| && s[i] != b
    ensures Hash(OFFSET_BASIS, s) != Hash(OFFSET_BASIS, s[i := b])
  {
    var head, tail := s[..i], s[i + 1..];
    assert s == (head + [s[i]]) + tail && s[i := b] == (head + [b]) + tail;
    SuffixKeepsCollisions(head + [s[i]], head + [b], tail);
    HashConcat(OFFSET_BASIS, head, [s[i]]);
    HashConcat(OFFSET_BASIS, head, [b]);
    var h := Hash(OFFSET_BASIS, head);
    assert forall c: byte :: Hash(h, [c]) == Hash(Mix(h, c), []);
    if Mix(h, s[i]) == Mix(h, b) { MixInjective(h, h, s[i], b); }
  }
}
