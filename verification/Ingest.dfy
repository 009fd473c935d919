/** Verified ingest of adverts and digest extensions into the capability store
    (`src/dm_capability_service.rs`), with and without the freshness pre-check, and the
    whole path from a peer's signed advert to a sender's lookup. */
module Ingest {
  import opened Bytes
  import opened Clock
  import opened Postcard
  import opened AdvertCodec
  import opened CapabilityStore
  import opened StoreHistory

  const ADVERT_PROTOCOL_VERSION: nat := 1
  const EXTENSION_PROTOCOL_VERSION: nat := 1

  /** `PubSubMessage`, as far as ingest reads it. */
  datatype Message = Message(sender: Option<Bytes>, senderKey: Option<Bytes>, verified: bool, payload: Bytes)

  /** The signature scheme: what id a key hashes to, and whether a key, a text and a signature agree. */
  datatype Scheme = Scheme(keyId: Bytes -> Bytes, check: (Bytes, Bytes, Bytes) -> bool)

  /** `verify_advert_signature` */
  predicate AdvertVerifies(scheme: Scheme, a: Advert, key: Bytes) {
    scheme.keyId(key) == a.agentId && scheme.check(key, AdvertSignedBytes(a), a.signature)
  }

  /** `verify_digest_extension_signature` */
  predicate ExtensionVerifies(scheme: Scheme, e: Extension, key: Bytes) {
    scheme.keyId(key) == e.agentId && scheme.check(key, ExtensionSignedBytes(e), e.signature)
  }

  predicate Authenticated(self: Bytes, m: Message) {
    m.verified && m.sender.Some? && m.senderKey.Some? && m.sender.value != self
  }

  /** The advert whose signature is to be verified, if the message gets that far; `precheck`
      says whether a stale advert is dropped before. */
  function AdvertToVerify(precheck: bool, st: Store, self: Bytes, m: Message): Option<Advert> {
    if !Authenticated(self, m) then None else
    match FromPostcard(m.payload)
    case None => None
    case Some(a) =>
      if a.protocolVersion != ADVERT_PROTOCOL_VERSION || a.agentId != m.sender.value then None
      else if precheck && !WouldAcceptAdvert(st, FromBigEndian(a.agentId), a.createdAt) then None
      else Some(a)
  }

  /** `ingest_verified_capability_advert` */
  function IngestAdvert(scheme: Scheme, precheck: bool, st: Store, ttl: U64, now: Reading, self: Bytes,
                        m: Message): (Store, bool) {
    match AdvertToVerify(precheck, st, self, m)
    case None => (st, false)
    case Some(a) =>
      if !AdvertVerifies(scheme, a, m.senderKey.value) then (st, false)
      else Insert(st, ttl, now, FromBigEndian(a.agentId), FromBigEndian(a.machineId), a.capabilities, a.createdAt)
  }

  /** The extension whose signature is to be verified. */
  function ExtensionToVerify(precheck: bool, st: Store, now: Reading, self: Bytes, m: Message): Option<Extension> {
    if !Authenticated(self, m) then None else
    match DecodeExtension(m.payload)
    case None => None
    case Some(e) =>
      if e.protocolVersion != EXTENSION_PROTOCOL_VERSION || e.agentId != m.sender.value then None
      else if precheck && !WouldAcceptExtension(st, now, FromBigEndian(e.agentId), e.createdAt) then None
      else Some(e)
  }

  /** `ingest_verified_digest_extension` */
  function IngestExtension(scheme: Scheme, precheck: bool, st: Store, ttl: U64, now: Reading, self: Bytes,
                           m: Message): (Store, bool) {
    match ExtensionToVerify(precheck, st, now, self, m)
    case None => (st, false)
    case Some(e) =>
      if !ExtensionVerifies(scheme, e, m.senderKey.value) then (st, false)
      else Extend(st, ttl, now, FromBigEndian(e.agentId), FromBigEndian(e.machineId), e.digestSupport, e.createdAt)
  }

  /** What reaches the subscriber tasks. */
  datatype Arrival =
    | OnAdvertTopic(message: Message, now: Reading)
    | OnDigestTopic(message: Message, now: Reading)

  function IngestOne(scheme: Scheme, precheck: bool, st: Store, ttl: U64, self: Bytes, x: Arrival): (Store, bool) {
    match x
    case OnAdvertTopic(m, now) => IngestAdvert(scheme, precheck, st, ttl, now, self, m)
    case OnDigestTopic(m, now) => IngestExtension(scheme, precheck, st, ttl, now, self, m)
  }

  /** The store after a sequence of arrivals, and what each of them returned. */
  function IngestAll(scheme: Scheme, precheck: bool, st: Store, ttl: U64, self: Bytes, xs: seq<Arrival>)
    : (Store, seq<bool>)
  {
    if xs == [] then (st, [])
    else
      var (before, results) := IngestAll(scheme, precheck, st, ttl, self, xs[..|xs| - 1]);
      var (after, accepted) := IngestOne(scheme, precheck, before, ttl, self, xs[|xs| - 1]);
      (after, results + [accepted])
  }

  /** The same on the store itself, check by check. */
  method IngestAdvertInto(scheme: Scheme, cache: CapabilityCache, now: Reading, self: Bytes, m: Message)
    returns (taken: bool)
    modifies cache
    ensures (cache.State(), taken) == IngestAdvert(scheme, true, old(cache.State()), cache.ttl, now, self, m)
  {
    if !m.verified || m.sender.None? || m.senderKey.None? || m.sender.value == self {
      return false;
    }
    var decoded := FromPostcard(m.payload);
    if decoded.None? {
      return false;
    }
    var a := decoded.value;
    if a.protocolVersion != 1 || a.agentId != m.sender.value {
      return false;
    }
    if !WouldAcceptAdvert(cache.State(), FromBigEndian(a.agentId), a.createdAt) {
      return false;
    }
    if scheme.keyId(m.senderKey.value) != a.agentId
       || !scheme.check(m.senderKey.value, AdvertSignedBytes(a), a.signature) {
      return false;
    }
    taken := cache.InsertAdvert(now, FromBigEndian(a.agentId), FromBigEndian(a.machineId), a.capabilities, a.createdAt);
  }

  method IngestExtensionInto(scheme: Scheme, cache: CapabilityCache, now: Reading, self: Bytes, m: Message)
    returns (taken: bool)
    modifies cache
    ensures (cache.State(), taken) == IngestExtension(scheme, true, old(cache.State()), cache.ttl, now, self, m)
  {
    if !m.verified || m.sender.None? || m.senderKey.None? || m.sender.value == self {
      return false;
    }
    var decoded := DecodeExtension(m.payload);
    if decoded.None? {
      return false;
    }
    var e := decoded.value;
    if e.protocolVersion != 1 || e.agentId != m.sender.value {
      return false;
    }
    if !WouldAcceptExtension(cache.State(), now, FromBigEndian(e.agentId), e.createdAt) {
      return false;
    }
    if scheme.keyId(m.senderKey.value) != e.agentId
       || !scheme.check(m.senderKey.value, ExtensionSignedBytes(e), e.signature) {
      return false;
    }
    taken := cache.ApplyExtension(now, FromBigEndian(e.agentId), FromBigEndian(e.machineId), e.digestSupport,
                                  e.createdAt);
  }

  /** A new store goes through a run of arrivals as the runs of the values do. */
  method Execute(scheme: Scheme, ttl: U64, self: Bytes, xs: seq<Arrival>)
    returns (cache: CapabilityCache, results: seq<bool>)
    ensures fresh(cache) && cache.ttl == ttl
    ensures (cache.State(), results) == IngestAll(scheme, true, EmptyStore, ttl, self, xs)
  {
    cache := new CapabilityCache(ttl);
    results := [];
    for i := 0 to |xs|
      invariant fresh(cache) && cache.ttl == ttl
      invariant (cache.State(), results) == IngestAll(scheme, true, EmptyStore, ttl, self, xs[..i])
    {
      assert xs[..i + 1][..i] == xs[..i];
      var taken;
      match xs[i] {
        case OnAdvertTopic(m, now) => taken := IngestAdvertInto(scheme, cache, now, self, m);
        case OnDigestTopic(m, now) => taken := IngestExtensionInto(scheme, cache, now, self, m);
      }
      results := results + [taken];
    }
    assert xs[..|xs|] == xs;
  }

  /** The pre-check refines full verification: over any sequence of messages, forged,
      malformed, stale or genuine, it changes neither a result nor the store. */
  lemma {:induction false} PrecheckRefinesVerification(scheme: Scheme, st: Store, ttl: U64, self: Bytes,
                                                       xs: seq<Arrival>)
    ensures IngestAll(scheme, true, st, ttl, self, xs) == IngestAll(scheme, false, st, ttl, self, xs)
  {
    if xs != [] {
      PrecheckRefinesVerification(scheme, st, ttl, self, xs[..|xs| - 1]);
    }
  }

  // ---------------------------------------------------------------- from signer to sender

  /** `build_signed_advert`: the digest bit is left out of what is signed and sent. */
  function BuildSignedAdvert(sign: Bytes -> Bytes, agent: Bytes, machine: Bytes, caps: Caps, now: Reading): Advert {
    var unsigned := Advert(ADVERT_PROTOCOL_VERSION, agent, machine, Wall(now), caps.(digestSupport := false), []);
    unsigned.(signature := sign(AdvertSignedBytes(unsigned)))
  }

  /** What a signer sends decodes to what was signed. */
  lemma BuiltAdvertDecodes(sign: Bytes -> Bytes, agent: Bytes, machine: Bytes, caps: Caps, built: Reading)
    requires |agent| == 32 && |machine| == 32 && CapsFit(caps)
    requires forall text :: 2 <= |sign(text)| <= U64_MAX
    ensures var a := BuildSignedAdvert(sign, agent, machine, caps, built);
            FromPostcard(Encode(a)) == Some(a) && a.signature == sign(AdvertSignedBytes(a))
  {
    var a := BuildSignedAdvert(sign, agent, machine, caps, built);
    assert AdvertSignedBytes(a) == AdvertSignedBytes(a.(signature := []));
    assert AdvertFits(a) && |a.signature| >= 2;
    DecodeInvertsEncode(a);
  }

  /** What a signer who knows the key sends is taken in, with or without the pre-check. */
  lemma BuiltAdvertIsInserted(scheme: Scheme, sign: Bytes -> Bytes, key: Bytes, st: Store, ttl: U64, self: Bytes,
                              agent: Bytes, machine: Bytes, caps: Caps, built: Reading, now: Reading, precheck: bool)
    requires |agent| == 32 && |machine| == 32 && CapsFit(caps) && agent != self
    requires forall text :: 2 <= |sign(text)| <= U64_MAX && scheme.check(key, text, sign(text))
    requires scheme.keyId(key) == agent && WouldAcceptAdvert(st, FromBigEndian(agent), Wall(built))
    ensures (var a := BuildSignedAdvert(sign, agent, machine, caps, built);
             IngestAdvert(scheme, precheck, st, ttl, now, self, Message(Some(agent), Some(key), true, Encode(a)))
             == Insert(st, ttl, now, FromBigEndian(agent), FromBigEndian(machine), a.capabilities, Wall(built)))
  {
    var a := BuildSignedAdvert(sign, agent, machine, caps, built);
    var m := Message(Some(agent), Some(key), true, Encode(a));
    assert FromPostcard(m.payload) == Some(a) && AdvertVerifies(scheme, a, key) by {
      BuiltAdvertDecodes(sign, agent, machine, caps, built);
    }
    assert Authenticated(self, m) && a.protocolVersion == ADVERT_PROTOCOL_VERSION && a.createdAt == Wall(built);
  }

  /** A peer's capabilities, signed and encoded at `built`, decoded, verified and ingested at
      `now`, are what a lookup returns until the TTL runs out and not after, with the digest
      bit that the store's own fresh extension for that machine says. */
  lemma PublishedAdvertIsFound(
    scheme: Scheme, sign: Bytes -> Bytes, key: Bytes, st: Store, ttl: U64, self: Bytes,
    agent: Bytes, machine: Bytes, caps: Caps, built: Reading, now: Reading, later: Reading, precheck: bool)
    requires |agent| == 32 && |machine| == 32 && CapsFit(caps) && agent != self
    requires forall text :: 2 <= |sign(text)| <= U64_MAX && scheme.check(key, text, sign(text))
    requires scheme.keyId(key) == agent
    requires InTime(Wall(built), Wall(now), ttl) && now <= later
    requires FromBigEndian(agent) in st.adverts ==> st.adverts[FromBigEndian(agent)].createdAt < Wall(built)
    ensures var a := BuildSignedAdvert(sign, agent, machine, caps, built);
            var m := Message(Some(agent), Some(key), true, Encode(a));
            var bit := LiveBit(st, now, FromBigEndian(agent), FromBigEndian(machine), false);
            var (after, accepted) := IngestAdvert(scheme, precheck, st, ttl, now, self, m);
            && accepted
            && Lookup(after, later, FromBigEndian(agent)).1
            == if later <= Until(Wall(built), now, ttl)
               then Some((caps.(digestSupport := bit), FromBigEndian(machine)))
               else None
  {
    var a := BuildSignedAdvert(sign, agent, machine, caps, built);
    BuiltAdvertIsInserted(scheme, sign, key, st, ttl, self, agent, machine, caps, built, now, precheck);
    InsertedExactly(st, ttl, now, FromBigEndian(agent), FromBigEndian(machine), a.capabilities, Wall(built));
    InsertedIsFound(st, ttl, now, later, FromBigEndian(agent), FromBigEndian(machine), a.capabilities, Wall(built));
  }
}
