/** Bytes, machine integers and the fixed-width encodings the wire formats share. */
module Bytes {

  datatype Option<+T> = None | Some(value: T)

  const U16_MAX: nat := 0xFFFF
  const U64_MAX: nat := 0xFFFF_FFFF_FFFF_FFFF

  type Byte = n: int | 0 <= n < 256
  type Bytes = seq<Byte>

  /** A Rust `u64`. Clock readings and signed timestamps have this type. */
  type U64 = n: int | 0 <= n <= U64_MAX

  /** `u64::saturating_add` */
  function SatAdd(a: U64, b: U64): U64 {
    if a + b <= U64_MAX then a + b else U64_MAX
  }

  /** `u64::saturating_sub` */
  function SatSub(a: U64, b: U64): U64 {
    if a >= b then a - b else 0
  }

  function Min(a: int, b: int): int {
    if a <= b then a else b
  }

  function Max(a: int, b: int): int {
    if a <= b then b else a
  }

  /** `to_be_bytes` of an integer `width` bytes wide; larger values are truncated. */
  function BigEndian(width: nat, n: nat): (r: Bytes)
    ensures |r| == width
  {
    if width == 0 then [] else BigEndian(width - 1, n / 256) + [n % 256]
  }

  /** `to_le_bytes` of an integer `width` bytes wide; larger values are truncated. */
  function LittleEndian(width: nat, n: nat): (r: Bytes)
    ensures |r| == width
  {
    if width == 0 then [] else [n % 256] + LittleEndian(width - 1, n / 256)
  }

  /** The number a big-endian byte string spells. */
  function FromBigEndian(s: Bytes): nat {
    if s == [] then 0 else 256 * FromBigEndian(s[..|s| - 1]) + s[|s| - 1]
  }

  function Pow256(width: nat): nat {
    if width == 0 then 1 else 256 * Pow256(width - 1)
  }

  lemma {:induction false} BigEndianInverse(width: nat, n: nat)
    requires n < Pow256(width)
    ensures FromBigEndian(BigEndian(width, n)) == n
  {
    if width > 0 {
      BigEndianInverse(width - 1, n / 256);
      var s := BigEndian(width, n);
      assert s[..|s| - 1] == BigEndian(width - 1, n / 256);
    }
  }

  /** Equal encodings of values that fit come from equal values. */
  lemma BigEndianInjective(width: nat, m: nat, n: nat)
    requires m < Pow256(width) && n < Pow256(width)
    requires BigEndian(width, m) == BigEndian(width, n)
    ensures m == n
  {
    BigEndianInverse(width, m);
    BigEndianInverse(width, n);
  }

  lemma {:induction false} FromBigEndianInjective(s: Bytes, t: Bytes)
    requires |s| == |t| && FromBigEndian(s) == FromBigEndian(t)
    ensures s == t
  {
    if s != [] {
      FromBigEndianInjective(s[..|s| - 1], t[..|t| - 1]);
      assert s == s[..|s| - 1] + [s[|s| - 1]];
      assert t == t[..|t| - 1] + [t[|t| - 1]];
    }
  }

  /** The order of byte arrays of one length: the first byte that differs decides. */
  ghost predicate Precedes(s: Bytes, t: Bytes)
    requires |s| == |t|
  {
    exists k :: 0 <= k < |s| && s[..k] == t[..k] && s[k] < t[k]
  }

  /** The last byte decides between arrays that agree up to it. */
  lemma PrecedesLast(s: Bytes, t: Bytes)
    requires |s| == |t| && s != []
    ensures var s', t' := s[..|s| - 1], t[..|t| - 1];
            Precedes(s, t) <==> Precedes(s', t') || (s' == t' && s[|s| - 1] < t[|t| - 1])
  {
    var n := |s| - 1;
    var s', t' := s[..n], t[..n];
    if Precedes(s', t') {
      var k :| 0 <= k < n && s'[..k] == t'[..k] && s'[k] < t'[k];
      assert s[..k] == s'[..k] && t[..k] == t'[..k];
    }
    if Precedes(s, t) {
      var k :| 0 <= k <= n && s[..k] == t[..k] && s[k] < t[k];
      if k < n {
        assert s'[..k] == s[..k] && t'[..k] == t[..k] && s'[k] < t'[k];
      }
    }
  }

  /** Byte arrays of one length are ordered as the numbers they spell. */
  lemma {:induction false} BigEndianOrder(s: Bytes, t: Bytes)
    requires |s| == |t|
    ensures Precedes(s, t) <==> FromBigEndian(s) < FromBigEndian(t)
  {
    if s != [] {
      var s', t' := s[..|s| - 1], t[..|t| - 1];
      PrecedesLast(s, t);
      BigEndianOrder(s', t');
      if FromBigEndian(s') == FromBigEndian(t') {
        FromBigEndianInjective(s', t');
      }
    }
  }

  /** Two concatenations whose first parts have one length split at the same place. */
  lemma SplitAt(a: Bytes, x: Bytes, b: Bytes, y: Bytes)
    requires |a| == |b| && a + x == b + y
    ensures a == b && x == y
  {
    assert a == (a + x)[..|a|] && b == (b + y)[..|b|];
    assert x == (a + x)[|a|..] && y == (b + y)[|b|..];
  }
}
