/** The byte-wise UTF-8 check of `Postcard.dfy` against what UTF-8 is: the concatenation of the
    encodings of Unicode scalar values (section 3 of RFC 3629). */
module Utf8Text {
  import opened Bytes
  import opened Postcard

  /** A code point that is no surrogate. */
  predicate Scalar(c: nat) {
    c < 0xD800 || 0xE000 <= c < 0x11_0000
  }

  /** One to four bytes, six bits of the code point in each but the first. */
  function EncodeScalar(c: nat): (r: Bytes)
    requires Scalar(c)
    ensures |r| > 0
  {
    if c < 0x80 then [c]
    else if c < 0x800 then [0xC0 + c / 64, 0x80 + c % 64]
    else if c < 0x1_0000 then [0xE0 + c / 4096, 0x80 + c / 64 % 64, 0x80 + c % 64]
    else [0xF0 + c / 262144, 0x80 + c / 4096 % 64, 0x80 + c / 64 % 64, 0x80 + c % 64]
  }

  function EncodeText(text: seq<nat>): Bytes
    requires forall c <- text :: Scalar(c)
  {
    if text == [] then [] else EncodeScalar(text[0]) + EncodeText(text[1..])
  }

  /** The bits a byte carries above its marker. */
  function Above(b: Byte, marker: nat): nat
    requires marker <= b
  {
    b - marker
  }

  /** The code point at the front of well-formed bytes. */
  function DecodeScalar(s: Bytes): nat
    requires s != [] && Utf8Step(s) > 0
  {
    match Utf8Step(s)
    case 1 => s[0]
    case 2 => Above(s[0], 0xC0) * 64 + Above(s[1], 0x80)
    case 3 => Above(s[0], 0xE0) * 4096 + Above(s[1], 0x80) * 64 + Above(s[2], 0x80)
    case _ =>
      Above(s[0], 0xF0) * 262144 + Above(s[1], 0x80) * 4096 + Above(s[2], 0x80) * 64 + Above(s[3], 0x80)
  }

  lemma TwoDigits(a: nat, b: nat)
    requires b < 64
    ensures (a * 64 + b) / 64 == a && (a * 64 + b) % 64 == b
  {
  }

  lemma ThreeDigits(a: nat, b: nat, c: nat)
    requires b < 64 && c < 64
    ensures var n := a * 4096 + b * 64 + c; n / 4096 == a && n / 64 % 64 == b && n % 64 == c
  {
    TwoDigits(a * 64 + b, c);
    TwoDigits(a, b);
  }

  lemma FourDigits(a: nat, b: nat, c: nat, d: nat)
    requires b < 64 && c < 64 && d < 64
    ensures var n := a * 262144 + b * 4096 + c * 64 + d;
            n / 262144 == a && n / 4096 % 64 == b && n / 64 % 64 == c && n % 64 == d
  {
    ThreeDigits(a * 64 + b, c, d);
    TwoDigits(a, b);
  }

  /** What the check steps over is the encoding of a scalar value. */
  lemma StepsOverScalar(s: Bytes)
    requires s != [] && Utf8Step(s) > 0
    ensures Scalar(DecodeScalar(s)) && EncodeScalar(DecodeScalar(s)) == s[..Utf8Step(s)]
  {
    match Utf8Step(s)
    case 1 =>
    case 2 => TwoDigits(Above(s[0], 0xC0), Above(s[1], 0x80));
    case 3 => ThreeDigits(Above(s[0], 0xE0), Above(s[1], 0x80), Above(s[2], 0x80));
    case _ => FourDigits(Above(s[0], 0xF0), Above(s[1], 0x80), Above(s[2], 0x80), Above(s[3], 0x80));
  }

  lemma SplitDigits(c: nat)
    ensures c == c / 64 * 64 + c % 64 && c / 64 == c / 4096 * 64 + c / 64 % 64
    ensures c / 4096 == c / 262144 * 64 + c / 4096 % 64
  {
  }

  /** Steps over three bytes that carry these bits. */
  lemma StepsOverThree(a: nat, b: nat, c: nat, s: Bytes)
    requires a < 16 && b < 64 && c < 64 && |s| >= 3 && s[0] == 0xE0 + a && s[1] == 0x80 + b && s[2] == 0x80 + c
    requires var n := a * 4096 + b * 64 + c; 0x800 <= n && Scalar(n)
    ensures Utf8Step(s) == 3
  {
  }

  lemma StepsOverFour(a: nat, b: nat, c: nat, d: nat, s: Bytes)
    requires b < 64 && c < 64 && d < 64 && |s| >= 4 && s[0] == 0xF0 + a && s[1] == 0x80 + b && s[2] == 0x80 + c
             && s[3] == 0x80 + d
    requires var n := a * 262144 + b * 4096 + c * 64 + d; 0x1_0000 <= n < 0x11_0000
    ensures Utf8Step(s) == 4
  {
  }

  /** And it steps over every such encoding. */
  lemma ScalarIsSteppedOver(c: nat, rest: Bytes)
    requires Scalar(c)
    ensures Utf8Step(EncodeScalar(c) + rest) == |EncodeScalar(c)|
  {
    var s := EncodeScalar(c) + rest;
    if 0x800 <= c {
      SplitDigits(c);
      if c < 0x1_0000 {
        StepsOverThree(c / 4096, c / 64 % 64, c % 64, s);
      } else {
        StepsOverFour(c / 262144, c / 4096 % 64, c / 64 % 64, c % 64, s);
      }
    }
  }

  lemma EncodeFront(c: nat, rest: seq<nat>)
    requires Scalar(c) && forall d <- rest :: Scalar(d)
    ensures (forall d <- [c] + rest :: Scalar(d)) && EncodeText([c] + rest) == EncodeScalar(c) + EncodeText(rest)
  {
    assert ([c] + rest)[1..] == rest;
  }

  lemma FrontIsScalar(s: Bytes) returns (c: nat)
    requires s != [] && Utf8Step(s) > 0
    ensures Scalar(c) && EncodeScalar(c) + s[Utf8Step(s)..] == s
  {
    c := DecodeScalar(s);
    StepsOverScalar(s);
    assert s == s[..Utf8Step(s)] + s[Utf8Step(s)..];
  }

  lemma {:induction false} ValidIsEncoded(s: Bytes) returns (text: seq<nat>)
    requires ValidUtf8(s)
    ensures (forall c <- text :: Scalar(c)) && EncodeText(text) == s
  {
    text := [];
    if s != [] {
      var c := FrontIsScalar(s);
      var rest := ValidIsEncoded(s[Utf8Step(s)..]);
      EncodeFront(c, rest);
      text := [c] + rest;
    }
  }

  lemma {:induction false} EncodedIsValid(text: seq<nat>)
    requires forall c <- text :: Scalar(c)
    ensures ValidUtf8(EncodeText(text))
  {
    if text != [] {
      var front, rest := EncodeScalar(text[0]), EncodeText(text[1..]);
      EncodedIsValid(text[1..]);
      ScalarIsSteppedOver(text[0], rest);
      assert (front + rest)[|front|..] == rest;
    }
  }

  /** A byte string passes the check if and only if it is the encoding of some text. */
  lemma ValidExactly(s: Bytes)
    ensures ValidUtf8(s) <==> exists text :: (forall c <- text :: Scalar(c)) && EncodeText(text) == s
  {
    if ValidUtf8(s) {
      var text := ValidIsEncoded(s);
    }
    forall text | (forall c <- text :: Scalar(c)) && EncodeText(text) == s ensures ValidUtf8(s) {
      EncodedIsValid(text);
    }
  }
}
