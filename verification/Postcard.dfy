/** The Postcard wire format as far as the capability records use it: varints,
    raw byte arrays, length-prefixed bytes, one-byte booleans, UTF-8 strings.
    A reader takes a value off the front of its input and returns what is left. */
module Postcard {
  import opened Bytes

  type Taken<T> = Option<(T, Bytes)>

  /** Varint writer: seven bits a byte, least significant first, high bit on all but the last. */
  function PutVarint(n: nat): (r: Bytes)
    ensures |r| >= 1
  {
    if n < 128 then [n] else [128 + n % 128] + PutVarint(n / 128)
  }

  /** Varint reader for an integer type whose longest encoding has `k` bytes, the
      last of them at most `last`. Padded encodings are accepted, longer ones are not. */
  function TakeVarint(k: nat, last: Byte, s: Bytes): (r: Taken<nat>)
    ensures r.Some? ==> |r.value.1| < |s| && r.value.0 < VarintLimit(k, last)
  {
    if k == 0 || s == [] then
      None
    else if s[0] < 128 then
      if k == 1 && s[0] > last then None else Some((s[0], s[1..]))
    else
      match TakeVarint(k - 1, last, s[1..])
      case None => None
      case Some((high, rest)) => Some((s[0] - 128 + 128 * high, rest))
  }

  /** One more than the largest value `TakeVarint(k, last, _)` is meant to carry. */
  function VarintLimit(k: nat, last: Byte): (limit: nat)
    ensures k >= 1 ==> limit >= 1
    ensures k >= 2 ==> limit >= 128
  {
    if k == 0 then 0 else if k == 1 then last + 1 else 128 * VarintLimit(k - 1, last)
  }

  lemma {:induction false} VarintRoundTrip(k: nat, last: Byte, n: nat, rest: Bytes)
    requires last < 128 && n < VarintLimit(k, last)
    ensures TakeVarint(k, last, PutVarint(n) + rest) == Some((n, rest))
  {
    var s := PutVarint(n) + rest;
    if n < 128 {
      assert s[1..] == rest;
      if k == 1 {
        assert VarintLimit(k, last) == last + 1;
      }
    } else {
      assert s[0] == 128 + n % 128;
      assert s[1..] == PutVarint(n / 128) + rest;
      assert k >= 2;
      VarintRoundTrip(k - 1, last, n / 128, rest);
    }
  }

  lemma U64Limit()
    ensures VarintLimit(10, 1) == U64_MAX + 1
  {
  }

  function TakeU16(s: Bytes): (r: Taken<nat>)
    ensures r.Some? ==> |r.value.1| < |s|
  {
    TakeVarint(3, 3, s)
  }

  /** Also `usize`, on the 64-bit targets. */
  function TakeU64(s: Bytes): (r: Taken<nat>)
    ensures r.Some? ==> |r.value.1| < |s| && r.value.0 <= U64_MAX
  {
    U64Limit();
    TakeVarint(10, 1, s)
  }

  lemma TakePutU16(n: nat, rest: Bytes)
    requires n <= U16_MAX
    ensures TakeU16(PutVarint(n) + rest) == Some((n, rest))
  {
    assert VarintLimit(3, 3) == 128 * (128 * 4);
    VarintRoundTrip(3, 3, n, rest);
  }

  lemma TakePutU64(n: nat, rest: Bytes)
    requires n <= U64_MAX
    ensures TakeU64(PutVarint(n) + rest) == Some((n, rest))
  {
    U64Limit();
    VarintRoundTrip(10, 1, n, rest);
  }

  function TakeBytes(n: nat, s: Bytes): (r: Taken<Bytes>)
    ensures r.Some? ==> |r.value.0| == n && |r.value.1| == |s| - n
  {
    if n <= |s| then Some((s[..n], s[n..])) else None
  }

  lemma TakePutBytes(b: Bytes, rest: Bytes)
    ensures TakeBytes(|b|, b + rest) == Some((b, rest))
  {
  }

  function PutBool(b: bool): Bytes {
    if b then [1] else [0]
  }

  function TakeBool(s: Bytes): (r: Taken<bool>)
    ensures r.Some? ==> |r.value.1| == |s| - 1
  {
    if s == [] || s[0] > 1 then None else Some((s[0] == 1, s[1..]))
  }

  lemma TakePutBool(b: bool, rest: Bytes)
    ensures TakeBool(PutBool(b) + rest) == Some((b, rest))
  {
  }

  /** A length-prefixed byte vector. */
  function PutVec(v: Bytes): Bytes {
    PutVarint(|v|) + v
  }

  function TakeVec(s: Bytes): (r: Taken<Bytes>)
    ensures r.Some? ==> |r.value.1| < |s|
  {
    match TakeU64(s)
    case None => None
    case Some((n, rest)) => TakeBytes(n, rest)
  }

  lemma TakePutVec(v: Bytes, rest: Bytes)
    requires |v| <= U64_MAX
    ensures TakeVec(PutVec(v) + rest) == Some((v, rest))
  {
    assert PutVec(v) + rest == PutVarint(|v|) + (v + rest);
    TakePutU64(|v|, v + rest);
    TakePutBytes(v, rest);
  }

  predicate Continuation(b: Byte) {
    0x80 <= b <= 0xBF
  }

  /** Length of the well-formed UTF-8 sequence at the front of `s`, 0 when there is none. */
  function Utf8Step(s: Bytes): (n: nat)
    requires s != []
    ensures n <= |s|
  {
    if s[0] < 0x80 then 1
    else if 0xC2 <= s[0] <= 0xDF && |s| >= 2 && Continuation(s[1]) then 2
    else if 0xE0 <= s[0] <= 0xEF && |s| >= 3 && Continuation(s[1]) && Continuation(s[2])
            && (s[0] == 0xE0 ==> s[1] >= 0xA0) && (s[0] == 0xED ==> s[1] <= 0x9F) then 3
    else if 0xF0 <= s[0] <= 0xF4 && |s| >= 4 && Continuation(s[1]) && Continuation(s[2]) && Continuation(s[3])
            && (s[0] == 0xF0 ==> s[1] >= 0x90) && (s[0] == 0xF4 ==> s[1] <= 0x8F) then 4
    else 0
  }

  /** What a Rust `String` guarantees of its bytes. */
  predicate ValidUtf8(s: Bytes) {
    s == [] || (Utf8Step(s) > 0 && ValidUtf8(s[Utf8Step(s)..]))
  }

  function TakeString(s: Bytes): (r: Taken<Bytes>)
    ensures r.Some? ==> |r.value.1| < |s| && ValidUtf8(r.value.0)
  {
    match TakeVec(s)
    case None => None
    case Some((text, rest)) => if ValidUtf8(text) then Some((text, rest)) else None
  }
}
