/** Capability adverts and digest extensions on the wire: the two-stage decode of
    `CapabilityAdvert::from_postcard`, the bytes that are signed, and the targeted
    request that shares the steady topic with the adverts. */
module AdvertCodec {
  import opened Bytes
  import opened Postcard

  /** `DmCapabilities` */
  datatype Caps = Caps(
    maxProtocolVersion: nat,
    gossipInbox: bool,
    kemAlgorithm: Bytes,
    maxEnvelopeBytes: nat,
    kemPublicKey: Bytes,
    digestSupport: bool)

  /** `CapabilityAdvert` */
  datatype Advert = Advert(
    protocolVersion: nat,
    agentId: Bytes,
    machineId: Bytes,
    createdAt: nat,
    capabilities: Caps,
    signature: Bytes)

  /** `DigestSupportExtension` */
  datatype Extension = Extension(
    protocolVersion: nat,
    agentId: Bytes,
    machineId: Bytes,
    createdAt: nat,
    digestSupport: bool,
    signature: Bytes)

  /** The ranges the Rust field types impose. */
  predicate CapsFit(c: Caps) {
    && c.maxProtocolVersion <= U16_MAX
    && ValidUtf8(c.kemAlgorithm) && |c.kemAlgorithm| <= U64_MAX
    && c.maxEnvelopeBytes <= U64_MAX
    && |c.kemPublicKey| <= U64_MAX
  }

  predicate AdvertFits(a: Advert) {
    && a.protocolVersion <= U16_MAX
    && |a.agentId| == 32 && |a.machineId| == 32
    && a.createdAt <= U64_MAX
    && CapsFit(a.capabilities)
    && |a.signature| <= U64_MAX
  }

  predicate ExtensionFits(e: Extension) {
    && e.protocolVersion <= U16_MAX
    && |e.agentId| == 32 && |e.machineId| == 32
    && e.createdAt <= U64_MAX
    && |e.signature| <= U64_MAX
  }

  // ---------------------------------------------------------------- writing

  /** The five frozen capability fields in front of `rest`. */
  function PutCapsV1(c: Caps, rest: Bytes): Bytes {
    PutVarint(c.maxProtocolVersion)
    + (PutBool(c.gossipInbox)
       + (PutVec(c.kemAlgorithm)
          + (PutVarint(c.maxEnvelopeBytes)
             + (PutVec(c.kemPublicKey) + rest))))
  }

  /** The digest bit is written only when true (`skip_serializing_if`). */
  function PutDigest(b: bool): Bytes {
    if b then PutBool(true) else []
  }

  /** Everything in front of the digest bit and the signature. */
  function PutHead(a: Advert, rest: Bytes): Bytes {
    PutVarint(a.protocolVersion)
    + (a.agentId
       + (a.machineId
          + (PutVarint(a.createdAt)
             + PutCapsV1(a.capabilities, rest))))
  }

  /** `postcard::to_stdvec(&advert)` */
  function Encode(a: Advert): Bytes {
    PutHead(a, PutDigest(a.capabilities.digestSupport) + PutVec(a.signature))
  }

  // ---------------------------------------------------------------- reading

  function TakeCapsV1(s: Bytes): (r: Taken<Caps>)
    ensures r.Some? ==> |r.value.1| <= |s| - 5
  {
    match TakeU16(s) case None => None case Some((version, s1)) =>
    match TakeBool(s1) case None => None case Some((inbox, s2)) =>
    match TakeString(s2) case None => None case Some((kem, s3)) =>
    match TakeU64(s3) case None => None case Some((limit, s4)) =>
    match TakeVec(s4) case None => None case Some((key, s5)) =>
      Some((Caps(version, inbox, kem, limit, key, false), s5))
  }

  function TakeHead(s: Bytes): (r: Taken<Advert>)
    ensures r.Some? ==> |r.value.1| <= |s| - 71 && r.value.0.createdAt <= U64_MAX
  {
    match TakeU16(s) case None => None case Some((version, s1)) =>
    match TakeBytes(32, s1) case None => None case Some((agent, s2)) =>
    match TakeBytes(32, s2) case None => None case Some((machine, s3)) =>
    match TakeU64(s3) case None => None case Some((created, s4)) =>
    match TakeCapsV1(s4) case None => None case Some((caps, s5)) =>
      Some((Advert(version, agent, machine, created, caps, []), s5))
  }

  /** `from_bytes::<CapabilityAdvert>`: bytes after the signature are ignored. */
  function DecodeV2(s: Bytes): (r: Option<Advert>)
    ensures r.Some? ==> r.value.createdAt <= U64_MAX
  {
    match TakeHead(s) case None => None case Some((head, s1)) =>
    match TakeBool(s1) case None => None case Some((digest, s2)) =>
    match TakeVec(s2) case None => None case Some((signature, _)) =>
      Some(head.(capabilities := head.capabilities.(digestSupport := digest), signature := signature))
  }

  /** `from_bytes::<CapabilityAdvertV1Wire>`, lifted with a false digest bit. */
  function DecodeV1(s: Bytes): (r: Option<Advert>)
    ensures r.Some? ==> r.value.createdAt <= U64_MAX
  {
    match TakeHead(s) case None => None case Some((head, s1)) =>
    match TakeVec(s1) case None => None case Some((signature, _)) =>
      Some(head.(signature := signature))
  }

  /** `CapabilityAdvert::from_postcard` */
  function FromPostcard(s: Bytes): (r: Option<Advert>)
    ensures r.Some? ==> r.value.createdAt <= U64_MAX
  {
    match DecodeV2(s)
    case Some(a) => Some(a)
    case None => DecodeV1(s)
  }

  // ---------------------------------------------------------------- round trip

  lemma CapsRoundTrip(c: Caps, rest: Bytes)
    requires CapsFit(c)
    ensures TakeCapsV1(PutCapsV1(c, rest)) == Some((c.(digestSupport := false), rest))
  {
    var s5 := PutVec(c.kemPublicKey) + rest;
    var s4 := PutVarint(c.maxEnvelopeBytes) + s5;
    var s3 := PutVec(c.kemAlgorithm) + s4;
    var s2 := PutBool(c.gossipInbox) + s3;
    TakePutU16(c.maxProtocolVersion, s2);
    TakePutBool(c.gossipInbox, s3);
    TakePutVec(c.kemAlgorithm, s4);
    TakePutU64(c.maxEnvelopeBytes, s5);
    TakePutVec(c.kemPublicKey, rest);
  }

  lemma HeadRoundTrip(a: Advert, rest: Bytes)
    requires AdvertFits(a)
    ensures TakeHead(PutHead(a, rest))
         == Some((a.(capabilities := a.capabilities.(digestSupport := false), signature := []), rest))
  {
    var s4 := PutCapsV1(a.capabilities, rest);
    var s3 := PutVarint(a.createdAt) + s4;
    TakePutU16(a.protocolVersion, a.agentId + (a.machineId + s3));
    TakePutBytes(a.agentId, a.machineId + s3);
    TakePutBytes(a.machineId, s3);
    TakePutU64(a.createdAt, s4);
    CapsRoundTrip(a.capabilities, rest);
  }

  lemma TakePutWholeVec(v: Bytes)
    requires |v| <= U64_MAX
    ensures TakeVec(PutVec(v)) == Some((v, []))
  {
    TakePutVec(v, []);
    assert PutVec(v) + [] == PutVec(v);
  }

  /** A v1-shaped tail read as a v2 tail: the signature's length prefix is taken for
      the digest bit, which goes wrong for one signature only. */
  lemma V1TailUnderV2(signature: Bytes)
    requires |signature| <= U64_MAX
    ensures var r := TakeBool(PutVec(signature));
            (r.Some? && TakeVec(r.value.1).Some?) <==> signature == [0]
    ensures signature == [0] ==> TakeBool(PutVec(signature)).value.0
  {
  }

  /** The v2 shape is read by the first stage. */
  lemma DecodeTrueBit(a: Advert)
    requires AdvertFits(a) && a.capabilities.digestSupport
    ensures DecodeV2(Encode(a)) == Some(a)
  {
    HeadRoundTrip(a, PutDigest(true) + PutVec(a.signature));
    TakePutBool(true, PutVec(a.signature));
    TakePutWholeVec(a.signature);
  }

  /** With a false bit, the signature follows the head at once. */
  lemma HeadOfFalse(a: Advert)
    requires AdvertFits(a) && !a.capabilities.digestSupport
    ensures TakeHead(Encode(a)) == Some((a.(signature := []), PutVec(a.signature)))
  {
    assert PutDigest(false) + PutVec(a.signature) == PutVec(a.signature);
    HeadRoundTrip(a, PutVec(a.signature));
  }

  /** The v1 shape is refused by the first stage, but for one signature, and read by the second. */
  lemma DecodeFalseBit(a: Advert)
    requires AdvertFits(a) && !a.capabilities.digestSupport
    ensures DecodeV1(Encode(a)) == Some(a)
    ensures if a.signature == [0] then DecodeV2(Encode(a)).Some? && DecodeV2(Encode(a)) != Some(a)
            else DecodeV2(Encode(a)).None?
  {
    SecondStageReads(a);
    HeadOfFalse(a);
    V1TailUnderV2(a.signature);
  }

  lemma SecondStageReads(a: Advert)
    requires AdvertFits(a) && !a.capabilities.digestSupport
    ensures DecodeV1(Encode(a)) == Some(a)
  {
    HeadOfFalse(a);
    TakePutWholeVec(a.signature);
  }

  /** The two-stage decode inverts the encoder on every advert but those of one shape:
      digest bit false and a signature that is the single byte zero. */
  lemma DecodeInvertsEncode(a: Advert)
    requires AdvertFits(a)
    ensures FromPostcard(Encode(a)) == Some(a)
       <==> a.capabilities.digestSupport || a.signature != [0]
    ensures FromPostcard(Encode(a)).Some?
  {
    if a.capabilities.digestSupport {
      DecodeTrueBit(a);
    } else {
      DecodeFalseBit(a);
    }
  }

  // ---------------------------------------------------------------- digest extensions

  /** `postcard::to_stdvec(&extension)` */
  function EncodeExtension(e: Extension): Bytes {
    PutVarint(e.protocolVersion)
    + (e.agentId
       + (e.machineId
          + (PutVarint(e.createdAt)
             + (PutBool(e.digestSupport) + PutVec(e.signature)))))
  }

  /** `DigestSupportExtension::from_postcard` */
  function DecodeExtension(s: Bytes): (r: Option<Extension>)
    ensures r.Some? ==> r.value.createdAt <= U64_MAX
  {
    match TakeU16(s) case None => None case Some((version, s1)) =>
    match TakeBytes(32, s1) case None => None case Some((agent, s2)) =>
    match TakeBytes(32, s2) case None => None case Some((machine, s3)) =>
    match TakeU64(s3) case None => None case Some((created, s4)) =>
    match TakeBool(s4) case None => None case Some((digest, s5)) =>
    match TakeVec(s5) case None => None case Some((signature, _)) =>
      Some(Extension(version, agent, machine, created, digest, signature))
  }

  lemma ExtensionRoundTrip(e: Extension)
    requires ExtensionFits(e)
    ensures DecodeExtension(EncodeExtension(e)) == Some(e)
  {
    var s5 := PutVec(e.signature);
    var s4 := PutBool(e.digestSupport) + s5;
    var s3 := PutVarint(e.createdAt) + s4;
    TakePutU16(e.protocolVersion, e.agentId + (e.machineId + s3));
    TakePutBytes(e.agentId, e.machineId + s3);
    TakePutBytes(e.machineId, s3);
    TakePutU64(e.createdAt, s4);
    TakePutBool(e.digestSupport, s5);
    TakePutWholeVec(e.signature);
  }

  // ---------------------------------------------------------------- signed bytes

  const AdvertSignDomain: Bytes := [120, 48, 120, 45, 99, 97, 112, 115, 45, 118, 49]  // "x0x-caps-v1"
  const ExtensionSignDomain: Bytes :=
    [120, 48, 120, 45, 99, 97, 112, 115, 45, 100, 105, 103, 101, 115, 116, 45, 118, 49]  // "x0x-caps-digest-v1"

  /** `CapabilityAdvert::signed_bytes` */
  function AdvertSignedBytes(a: Advert): Bytes {
    AdvertSignDomain
    + (BigEndian(2, a.protocolVersion)
       + (a.agentId
          + (a.machineId
             + (BigEndian(8, a.createdAt)
                + PutCapsV1(a.capabilities, PutDigest(a.capabilities.digestSupport))))))
  }

  /** `DigestSupportExtension::signed_bytes` */
  function ExtensionSignedBytes(e: Extension): Bytes {
    ExtensionSignDomain
    + (BigEndian(2, e.protocolVersion)
       + (e.agentId
          + (e.machineId
             + (BigEndian(8, e.createdAt) + PutBool(e.digestSupport)))))
  }

  lemma WidthLimits()
    ensures Pow256(2) == U16_MAX + 1 && Pow256(8) == U64_MAX + 1
  {
  }

  lemma CapsBytesInjective(c: Caps, d: Caps)
    requires CapsFit(c) && CapsFit(d)
    requires PutCapsV1(c, PutDigest(c.digestSupport)) == PutCapsV1(d, PutDigest(d.digestSupport))
    ensures c == d
  {
    CapsRoundTrip(c, PutDigest(c.digestSupport));
    CapsRoundTrip(d, PutDigest(d.digestSupport));
    assert PutDigest(c.digestSupport) == PutDigest(d.digestSupport);
    assert |PutDigest(c.digestSupport)| == |PutDigest(d.digestSupport)|;
  }

  /** A signature over an advert binds every field of it but the signature itself. */
  lemma AdvertSignedBytesInjective(a: Advert, b: Advert)
    requires AdvertFits(a) && AdvertFits(b)
    requires AdvertSignedBytes(a) == AdvertSignedBytes(b)
    ensures a.(signature := []) == b.(signature := [])
  {
    var a4 := PutCapsV1(a.capabilities, PutDigest(a.capabilities.digestSupport));
    var b4 := PutCapsV1(b.capabilities, PutDigest(b.capabilities.digestSupport));
    var a3 := BigEndian(8, a.createdAt) + a4;
    var b3 := BigEndian(8, b.createdAt) + b4;
    var a1 := a.agentId + (a.machineId + a3);
    var b1 := b.agentId + (b.machineId + b3);
    SplitAt(AdvertSignDomain, BigEndian(2, a.protocolVersion) + a1,
            AdvertSignDomain, BigEndian(2, b.protocolVersion) + b1);
    SplitAt(BigEndian(2, a.protocolVersion), a1, BigEndian(2, b.protocolVersion), b1);
    SplitAt(a.agentId, a.machineId + a3, b.agentId, b.machineId + b3);
    SplitAt(a.machineId, a3, b.machineId, b3);
    SplitAt(BigEndian(8, a.createdAt), a4, BigEndian(8, b.createdAt), b4);
    WidthLimits();
    BigEndianInjective(2, a.protocolVersion, b.protocolVersion);
    BigEndianInjective(8, a.createdAt, b.createdAt);
    CapsBytesInjective(a.capabilities, b.capabilities);
  }

  /** A signature over an extension binds every field of it but the signature itself. */
  lemma ExtensionSignedBytesInjective(e: Extension, f: Extension)
    requires ExtensionFits(e) && ExtensionFits(f)
    requires ExtensionSignedBytes(e) == ExtensionSignedBytes(f)
    ensures e.(signature := []) == f.(signature := [])
  {
    var e3 := BigEndian(8, e.createdAt) + PutBool(e.digestSupport);
    var f3 := BigEndian(8, f.createdAt) + PutBool(f.digestSupport);
    var e1 := e.agentId + (e.machineId + e3);
    var f1 := f.agentId + (f.machineId + f3);
    SplitAt(ExtensionSignDomain, BigEndian(2, e.protocolVersion) + e1,
            ExtensionSignDomain, BigEndian(2, f.protocolVersion) + f1);
    SplitAt(BigEndian(2, e.protocolVersion), e1, BigEndian(2, f.protocolVersion), f1);
    SplitAt(e.agentId, e.machineId + e3, f.agentId, f.machineId + f3);
    SplitAt(e.machineId, e3, f.machineId, f3);
    SplitAt(BigEndian(8, e.createdAt), PutBool(e.digestSupport), BigEndian(8, f.createdAt), PutBool(f.digestSupport));
    WidthLimits();
    BigEndianInjective(2, e.protocolVersion, f.protocolVersion);
    BigEndianInjective(8, e.createdAt, f.createdAt);
  }

  /** No bytes are at once an advert's and an extension's signed bytes. */
  lemma SignedBytesDomainsDisjoint(a: Advert, e: Extension)
    ensures AdvertSignedBytes(a) != ExtensionSignedBytes(e)
  {
    assert AdvertSignedBytes(a)[9] == 118 && ExtensionSignedBytes(e)[9] == 100;
  }

  /** Whoever decodes an advert recomputes exactly the bytes its signer signed. */
  lemma DecodedAdvertVerifies(a: Advert)
    requires AdvertFits(a) && |a.signature| >= 2
    ensures var r := FromPostcard(Encode(a));
            r.Some? && AdvertSignedBytes(r.value) == AdvertSignedBytes(a) && r.value.signature == a.signature
  {
    DecodeInvertsEncode(a);
  }

  // ---------------------------------------------------------------- targeted requests

  datatype Topic = SteadyTopic | TargetedRequestTopic | OtherTopic

  const TARGETED_REQUEST_VERSION: nat := 2

  /** `b"x0x/caps/v1/targeted-request-v2\0"` */
  const WarmRequestDomain: Bytes :=
    [120, 48, 120, 47, 99, 97, 112, 115, 47, 118, 49, 47, 116, 97, 114, 103, 101, 116, 101, 100,
     45, 114, 101, 113, 117, 101, 115, 116, 45, 118, 50, 0]

  function EncodeRequest(agentId: Bytes): Bytes {
    PutVarint(TARGETED_REQUEST_VERSION) + agentId
  }

  /** The payload published on a topic to ask `agentId` for its advert. */
  function RequestPayload(topic: Topic, agentId: Bytes): Bytes {
    if topic == SteadyTopic then WarmRequestDomain + EncodeRequest(agentId) else EncodeRequest(agentId)
  }

  function TakeRequest(s: Bytes): Taken<(nat, Bytes)> {
    match TakeU16(s) case None => None case Some((version, s1)) =>
    match TakeBytes(32, s1) case None => None case Some((agent, s2)) =>
      Some(((version, agent), s2))
  }

  /** `decode_targeted_capability_request`: trailing bytes are tolerated on the dedicated
      topic and refused behind the domain prefix. */
  function DecodeRequest(topic: Topic, payload: Bytes): Option<Bytes> {
    match topic
    case OtherTopic => None
    case TargetedRequestTopic =>
      (match TakeRequest(payload)
       case Some(((version, agent), _)) => if version == TARGETED_REQUEST_VERSION then Some(agent) else None
       case None => None)
    case SteadyTopic =>
      if WarmRequestDomain <= payload then
        (match TakeRequest(payload[|WarmRequestDomain|..])
         case Some(((version, agent), trailing)) =>
           if trailing == [] && version == TARGETED_REQUEST_VERSION then Some(agent) else None
         case None => None)
      else None
  }

  lemma TakeEncodedRequest(agentId: Bytes)
    requires |agentId| == 32
    ensures TakeRequest(EncodeRequest(agentId)) == Some(((TARGETED_REQUEST_VERSION, agentId), []))
    ensures |EncodeRequest(agentId)| == 33
  {
    TakePutU16(TARGETED_REQUEST_VERSION, agentId);
    TakePutBytes(agentId, []);
    assert agentId + [] == agentId;
  }

  /** Bytes too short for the fixed part of an advert are no advert. */
  lemma ShortIsNoAdvert(s: Bytes)
    requires |s| <= 71
    ensures FromPostcard(s) == None
  {
  }

  /** A request is read back on both carriers, and the copy that rides the steady topic
      can never be taken for an advert by whoever only knows adverts. */
  lemma RequestRidesBothCarriers(topic: Topic, agentId: Bytes)
    requires |agentId| == 32 && topic != OtherTopic
    ensures DecodeRequest(topic, RequestPayload(topic, agentId)) == Some(agentId)
    ensures FromPostcard(RequestPayload(topic, agentId)) == None
  {
    var body, domain := EncodeRequest(agentId), WarmRequestDomain;
    TakeEncodedRequest(agentId);
    assert |domain| == 32;
    assert (domain + body)[|domain|..] == body && domain <= domain + body;
    ShortIsNoAdvert(RequestPayload(topic, agentId));
  }

  /** Adverts and warm requests are told apart in the other direction too: no advert
      anyone encodes with protocol version 1 is read as a request. */
  lemma AdvertIsNoRequest(a: Advert)
    requires a.protocolVersion == 1
    ensures DecodeRequest(SteadyTopic, Encode(a)) == None
  {
    assert Encode(a)[0] == 1;
  }

  /** How many bytes at the front of `s` spell the version of a request: 2 as a varint, padded or not. */
  function VersionLength(s: Bytes): (n: nat)
    ensures n <= |s|
  {
    if [2] <= s then 1 else if [130, 0] <= s then 2 else if [130, 128, 0] <= s then 3 else 0
  }

  lemma TakeTwo(s: Bytes)
    ensures var n, taken := VersionLength(s), TakeU16(s);
            if n > 0 then taken == Some((2, s[n..])) else taken.Some? ==> taken.value.0 != 2
  {
    if s != [] && s[0] >= 128 {
      var s1 := s[1..];
      assert TakeVarint(2, 3, s1).Some? ==> s1 != [];
      if s1 != [] && s1[0] >= 128 {
        var s2 := s1[1..];
        assert TakeVarint(1, 3, s2).Some? ==> s2 != [] && s2[0] <= 3;
      }
    }
  }

  lemma RequestTakenExactly(s: Bytes)
    ensures var n, taken := VersionLength(s), TakeRequest(s);
            if n > 0 && |s| >= n + 32 then taken == Some(((2, s[n..n + 32]), s[n + 32..]))
            else taken.Some? ==> taken.value.0.0 != 2
  {
    var n := VersionLength(s);
    TakeTwo(s);
    if n > 0 && |s| >= n + 32 {
      assert s[n..][..32] == s[n..n + 32] && s[n..][32..] == s[n + 32..];
    }
  }

  /** On the dedicated topic exactly the payloads that begin with version 2 and an id are
      requests, for that id; on the steady topic exactly the domain followed by those two and
      nothing more; on any other topic none. */
  lemma RequestReadExactly(payload: Bytes)
    ensures DecodeRequest(OtherTopic, payload) == None
    ensures var n := VersionLength(payload);
            DecodeRequest(TargetedRequestTopic, payload)
            == if n > 0 && |payload| >= n + 32 then Some(payload[n..n + 32]) else None
    ensures WarmRequestDomain <= payload ==>
              var body := payload[32..];
              var n := VersionLength(body);
              DecodeRequest(SteadyTopic, payload)
              == if n > 0 && |body| == n + 32 then Some(body[n..]) else None
    ensures !(WarmRequestDomain <= payload) ==> DecodeRequest(SteadyTopic, payload) == None
  {
    assert |WarmRequestDomain| == 32;
    RequestTakenExactly(payload);
    if WarmRequestDomain <= payload {
      var body := payload[32..];
      var n := VersionLength(body);
      RequestTakenExactly(body);
      assert |body| == n + 32 ==> body[n..n + 32] == body[n..];
    }
  }
}
