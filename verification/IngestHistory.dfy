/** What holds over every run of verified ingest: which messages are taken in, field by
    field, and which message every stored entry and every digest bit came from. */
module IngestHistory {
  import opened Bytes
  import opened Clock
  import opened Postcard
  import opened AdvertCodec
  import opened CapabilityStore
  import opened Ingest
  import opened StoreHistory

  // ---------------------------------------------------------------- exactly what is taken in

  /** The message is a verified one from another agent, and carries this advert in protocol
      version 1, naming and signed by that very agent. */
  ghost predicate CarriesAdvert(scheme: Scheme, self: Bytes, m: Message, a: Advert) {
    && m.verified && m.sender == Some(a.agentId) && a.agentId != self
    && FromPostcard(m.payload) == Some(a) && a.protocolVersion == 1
    && m.senderKey.Some? && scheme.keyId(m.senderKey.value) == a.agentId
    && scheme.check(m.senderKey.value, AdvertSignedBytes(a), a.signature)
  }

  /** The same for a digest extension. */
  ghost predicate CarriesExtension(scheme: Scheme, self: Bytes, m: Message, e: Extension) {
    && m.verified && m.sender == Some(e.agentId) && e.agentId != self
    && DecodeExtension(m.payload) == Some(e) && e.protocolVersion == 1
    && m.senderKey.Some? && scheme.keyId(m.senderKey.value) == e.agentId
    && scheme.check(m.senderKey.value, ExtensionSignedBytes(e), e.signature)
  }

  /** The arrival deserves to be taken into this store. */
  ghost predicate Deserves(scheme: Scheme, st: Store, ttl: U64, self: Bytes, x: Arrival) {
    match x
    case OnAdvertTopic(m, now) =>
      && FromPostcard(m.payload).Some?
      && var a := FromPostcard(m.payload).value;
         var agent := FromBigEndian(a.agentId);
         && CarriesAdvert(scheme, self, m, a) && InTime(a.createdAt, Wall(now), ttl)
         && (agent in st.adverts ==> st.adverts[agent].createdAt < a.createdAt)
    case OnDigestTopic(m, now) =>
      && DecodeExtension(m.payload).Some?
      && var e := DecodeExtension(m.payload).value;
         var agent := FromBigEndian(e.agentId);
         && CarriesExtension(scheme, self, m, e) && InTime(e.createdAt, Wall(now), ttl)
         && (agent in st.extensions && now <= st.extensions[agent].expiresAt ==>
               st.extensions[agent].createdAt < e.createdAt)
  }

  /** The costly signature check is made for a message if and only if it is a verified one from
      another agent, carries that agent's advert in version 1 and, with the pre-check, the store
      has none of that date or later. */
  lemma AdvertCheckedExactly(precheck: bool, st: Store, self: Bytes, m: Message)
    ensures AdvertToVerify(precheck, st, self, m).Some?
       <==> (&& m.verified && m.sender.Some? && m.senderKey.Some? && m.sender.value != self
             && FromPostcard(m.payload).Some?
             && var a := FromPostcard(m.payload).value;
                && a.protocolVersion == 1 && m.sender == Some(a.agentId)
                && (precheck ==> FromBigEndian(a.agentId) in st.adverts ==>
                      st.adverts[FromBigEndian(a.agentId)].createdAt < a.createdAt))
  {
  }

  /** The same for extensions, where only a live one stands in the way. */
  lemma ExtensionCheckedExactly(precheck: bool, st: Store, now: Reading, self: Bytes, m: Message)
    ensures ExtensionToVerify(precheck, st, now, self, m).Some?
       <==> (&& m.verified && m.sender.Some? && m.senderKey.Some? && m.sender.value != self
             && DecodeExtension(m.payload).Some?
             && var e := DecodeExtension(m.payload).value;
                && e.protocolVersion == 1 && m.sender == Some(e.agentId)
                && (precheck ==>
                      FromBigEndian(e.agentId) in st.extensions
                      && now <= st.extensions[FromBigEndian(e.agentId)].expiresAt ==>
                        st.extensions[FromBigEndian(e.agentId)].createdAt < e.createdAt))
  {
  }

  lemma AdvertTakenExactly(scheme: Scheme, precheck: bool, st: Store, ttl: U64, self: Bytes, m: Message, now: Reading)
    ensures IngestAdvert(scheme, precheck, st, ttl, now, self, m).1
       <==> Deserves(scheme, st, ttl, self, OnAdvertTopic(m, now))
  {
    match FromPostcard(m.payload)
    case None =>
    case Some(a) =>
      InsertedExactly(st, ttl, now, FromBigEndian(a.agentId), FromBigEndian(a.machineId), a.capabilities, a.createdAt);
  }

  lemma ExtensionTakenExactly(scheme: Scheme, precheck: bool, st: Store, ttl: U64, self: Bytes, m: Message,
                              now: Reading)
    ensures IngestExtension(scheme, precheck, st, ttl, now, self, m).1
       <==> Deserves(scheme, st, ttl, self, OnDigestTopic(m, now))
  {
    match DecodeExtension(m.payload)
    case None =>
    case Some(e) =>
      ExtendedExactly(st, ttl, now, FromBigEndian(e.agentId), FromBigEndian(e.machineId), e.digestSupport, e.createdAt);
  }

  /** Over every run, with or without the pre-check: an arrival is taken in if and only if it
      deserves to be, and one that is not leaves the store as it was. */
  lemma {:induction false} TakenExactly(scheme: Scheme, precheck: bool, st: Store, ttl: U64, self: Bytes,
                                        xs: seq<Arrival>, i: nat)
    requires i < |xs|
    ensures |IngestAll(scheme, precheck, st, ttl, self, xs).1| == |xs|
    ensures var before := IngestAll(scheme, precheck, st, ttl, self, xs[..i]).0;
            var after := IngestAll(scheme, precheck, st, ttl, self, xs[..i + 1]).0;
            var taken := IngestAll(scheme, precheck, st, ttl, self, xs).1[i];
            && (taken <==> Deserves(scheme, before, ttl, self, xs[i]))
            && (!taken ==> after == before)
  {
    var before := IngestAll(scheme, precheck, st, ttl, self, xs[..i]).0;
    ResultsLength(scheme, precheck, st, ttl, self, xs);
    ResultAt(scheme, precheck, st, ttl, self, xs, i);
    match xs[i] {
      case OnAdvertTopic(m, now) => AdvertTakenExactly(scheme, precheck, before, ttl, self, m, now);
      case OnDigestTopic(m, now) => ExtensionTakenExactly(scheme, precheck, before, ttl, self, m, now);
    }
  }

  lemma {:induction false} ResultsLength(scheme: Scheme, precheck: bool, st: Store, ttl: U64, self: Bytes,
                                         xs: seq<Arrival>)
    ensures |IngestAll(scheme, precheck, st, ttl, self, xs).1| == |xs|
  {
    if xs != [] {
      ResultsLength(scheme, precheck, st, ttl, self, xs[..|xs| - 1]);
    }
  }

  lemma {:induction false} ResultAt(scheme: Scheme, precheck: bool, st: Store, ttl: U64, self: Bytes,
                                    xs: seq<Arrival>, i: nat)
    requires i < |xs| && |IngestAll(scheme, precheck, st, ttl, self, xs).1| == |xs|
    ensures var before := IngestAll(scheme, precheck, st, ttl, self, xs[..i]).0;
            IngestOne(scheme, precheck, before, ttl, self, xs[i])
            == (IngestAll(scheme, precheck, st, ttl, self, xs[..i + 1]).0,
                IngestAll(scheme, precheck, st, ttl, self, xs).1[i])
  {
    var n := |xs| - 1;
    if i == n {
      assert xs[..i + 1] == xs;
    } else {
      ResultsLength(scheme, precheck, st, ttl, self, xs[..n]);
      ResultAt(scheme, precheck, st, ttl, self, xs[..n], i);
      assert xs[..n][..i] == xs[..i] && xs[..n][..i + 1] == xs[..i + 1] && xs[..n][i] == xs[i];
    }
  }

  predicate DatedFrom(st: Store, agent: Id, date: U64) {
    agent in st.adverts && date <= st.adverts[agent].createdAt
  }

  lemma RecordKeepsDate(st: Store, ttl: U64, now: Reading, op: Operation, agent: Id, date: U64)
    requires DatedFrom(st, agent, date) && (op.OpAdvert? || op.OpExtension?)
    ensures DatedFrom(CapabilityStore.Step(st, ttl, Timed(op, now)), agent, date)
  {
  }

  lemma DateNeverGoesBack(scheme: Scheme, precheck: bool, st: Store, ttl: U64, self: Bytes, x: Arrival, agent: Id,
                          date: U64)
    requires DatedFrom(st, agent, date)
    ensures DatedFrom(IngestOne(scheme, precheck, st, ttl, self, x).0, agent, date)
  {
    match x {
      case OnAdvertTopic(m, now) =>
        match AdvertToVerify(precheck, st, self, m) {
          case None =>
          case Some(a) =>
            RecordKeepsDate(st, ttl, now, OpAdvert(FromBigEndian(a.agentId), FromBigEndian(a.machineId),
                                                   a.capabilities, a.createdAt), agent, date);
        }
      case OnDigestTopic(m, now) =>
        match ExtensionToVerify(precheck, st, now, self, m) {
          case None =>
          case Some(e) =>
            RecordKeepsDate(st, ttl, now, OpExtension(FromBigEndian(e.agentId), FromBigEndian(e.machineId),
                                                      e.digestSupport, e.createdAt), agent, date);
        }
    }
  }

  lemma {:induction false} DateStays(scheme: Scheme, precheck: bool, st: Store, ttl: U64, self: Bytes,
                                     xs: seq<Arrival>, i: nat, agent: Id, date: U64)
    requires i <= |xs| && DatedFrom(IngestAll(scheme, precheck, st, ttl, self, xs[..i]).0, agent, date)
    ensures DatedFrom(IngestAll(scheme, precheck, st, ttl, self, xs).0, agent, date)
    decreases |xs|
  {
    if i == |xs| {
      assert xs[..i] == xs;
    } else {
      var n := |xs| - 1;
      assert xs[..n][..i] == xs[..i];
      DateStays(scheme, precheck, st, ttl, self, xs[..n], i, agent, date);
      DateNeverGoesBack(scheme, precheck, IngestAll(scheme, precheck, st, ttl, self, xs[..n]).0, ttl, self, xs[n],
                        agent, date);
    }
  }

  /** However often a message that was taken in comes again, whatever came between, it never
      costs another signature check. */
  lemma RepeatCostsNothing(scheme: Scheme, st: Store, ttl: U64, self: Bytes, xs: seq<Arrival>, i: nat)
    requires i < |xs| && xs[i].OnAdvertTopic? && |IngestAll(scheme, true, st, ttl, self, xs).1| == |xs|
    requires IngestAll(scheme, true, st, ttl, self, xs).1[i]
    ensures AdvertToVerify(true, IngestAll(scheme, true, st, ttl, self, xs).0, self, xs[i].message) == None
  {
    var m := xs[i].message;
    var before := IngestAll(scheme, true, st, ttl, self, xs[..i]).0;
    ResultAt(scheme, true, st, ttl, self, xs, i);
    var a := AdvertToVerify(true, before, self, m).value;
    DateStays(scheme, true, st, ttl, self, xs, i + 1, FromBigEndian(a.agentId), a.createdAt);
  }

  // ---------------------------------------------------------------- where everything stored came from

  /** The arrival carries the advert this entry was made of, apart from its digest bit. */
  ghost predicate GaveAdvert(scheme: Scheme, self: Bytes, x: Arrival, agent: Id, entry: CachedAdvert) {
    && x.OnAdvertTopic?
    && exists a ::
         && CarriesAdvert(scheme, self, x.message, a) && FromBigEndian(a.agentId) == agent
         && entry.machine == FromBigEndian(a.machineId) && entry.createdAt == a.createdAt
         && entry.capabilities == a.capabilities.(digestSupport := entry.capabilities.digestSupport)
  }

  /** The arrival carries the extension this entry was made of. */
  ghost predicate GaveExtension(scheme: Scheme, self: Bytes, x: Arrival, agent: Id, entry: CachedExtension) {
    && x.OnDigestTopic?
    && exists e ::
         && CarriesExtension(scheme, self, x.message, e) && FromBigEndian(e.agentId) == agent
         && entry.machine == FromBigEndian(e.machineId) && entry.createdAt == e.createdAt
         && entry.digestSupport == e.digestSupport
  }

  /** The arrival carries an advert or an extension with this digest bit for this machine. */
  ghost predicate SaysBit(scheme: Scheme, self: Bytes, x: Arrival, agent: Id, machine: Id, bit: bool) {
    match x
    case OnAdvertTopic(m, _) =>
      exists a ::
        && CarriesAdvert(scheme, self, m, a) && FromBigEndian(a.agentId) == agent
        && FromBigEndian(a.machineId) == machine && a.capabilities.digestSupport == bit
    case OnDigestTopic(m, _) =>
      exists e ::
        && CarriesExtension(scheme, self, m, e) && FromBigEndian(e.agentId) == agent
        && FromBigEndian(e.machineId) == machine && e.digestSupport == bit
  }

  /** What an arrival does to the entries of one agent. */
  lemma AdvertStep(scheme: Scheme, precheck: bool, st: Store, ttl: U64, self: Bytes, m: Message, now: Reading,
                   agent: Id)
    ensures var (after, taken) := IngestAdvert(scheme, precheck, st, ttl, now, self, m);
            && after.extensions == st.extensions
            && (agent in after.adverts && (agent in st.adverts ==> after.adverts[agent] != st.adverts[agent]) ==>
                  && taken
                  && GaveAdvert(scheme, self, OnAdvertTopic(m, now), agent, after.adverts[agent])
                  && (|| SaysBit(scheme, self, OnAdvertTopic(m, now), agent, after.adverts[agent].machine,
                                 after.adverts[agent].capabilities.digestSupport)
                      || (&& agent in st.extensions
                          && st.extensions[agent].machine == after.adverts[agent].machine
                          && st.extensions[agent].digestSupport
                             == after.adverts[agent].capabilities.digestSupport)))
  {
    if IngestAdvert(scheme, precheck, st, ttl, now, self, m).1 {
      assert CarriesAdvert(scheme, self, m, FromPostcard(m.payload).value);
    }
  }

  lemma ExtensionStep(scheme: Scheme, precheck: bool, st: Store, ttl: U64, self: Bytes, m: Message, now: Reading,
                      agent: Id)
    ensures var (after, taken) := IngestExtension(scheme, precheck, st, ttl, now, self, m);
            && (agent in after.extensions
                && (agent in st.extensions ==> after.extensions[agent] != st.extensions[agent]) ==>
                  taken && GaveExtension(scheme, self, OnDigestTopic(m, now), agent, after.extensions[agent]))
            && (agent in after.adverts ==>
                  && agent in st.adverts
                  && (after.adverts[agent] != st.adverts[agent] ==>
                        && taken
                        && after.adverts[agent] == st.adverts[agent].(capabilities := after.adverts[agent].capabilities)
                        && SaysBit(scheme, self, OnDigestTopic(m, now), agent, after.adverts[agent].machine,
                                   after.adverts[agent].capabilities.digestSupport)
                        && after.adverts[agent].capabilities
                           == st.adverts[agent].capabilities.(
                              digestSupport := after.adverts[agent].capabilities.digestSupport)))
  {
    if IngestExtension(scheme, precheck, st, ttl, now, self, m).1 {
      assert CarriesExtension(scheme, self, m, DecodeExtension(m.payload).value);
    }
  }

  lemma {:induction false} ExtensionCameFrom(scheme: Scheme, precheck: bool, ttl: U64, self: Bytes, xs: seq<Arrival>,
                                             agent: Id)
    returns (i: nat)
    requires agent in IngestAll(scheme, precheck, EmptyStore, ttl, self, xs).0.extensions
    ensures var (st, taken) := IngestAll(scheme, precheck, EmptyStore, ttl, self, xs);
            && |taken| == |xs| && i < |xs| && taken[i]
            && GaveExtension(scheme, self, xs[i], agent, st.extensions[agent])
  {
    var n := |xs| - 1;
    ResultsLength(scheme, precheck, EmptyStore, ttl, self, xs);
    var before := IngestAll(scheme, precheck, EmptyStore, ttl, self, xs[..n]).0;
    var after := IngestAll(scheme, precheck, EmptyStore, ttl, self, xs).0;
    match xs[n] {
      case OnAdvertTopic(m, now) => AdvertStep(scheme, precheck, before, ttl, self, m, now, agent);
      case OnDigestTopic(m, now) => ExtensionStep(scheme, precheck, before, ttl, self, m, now, agent);
    }
    if agent in before.extensions && after.extensions[agent] == before.extensions[agent] {
      i := ExtensionCameFrom(scheme, precheck, ttl, self, xs[..n], agent);
    } else {
      i := n;
    }
  }

  lemma OtherBit(scheme: Scheme, self: Bytes, x: Arrival, agent: Id, entry: CachedAdvert, bit: bool)
    requires GaveAdvert(scheme, self, x, agent, entry)
    ensures GaveAdvert(scheme, self, x, agent, entry.(capabilities := entry.capabilities.(digestSupport := bit)))
  {
  }

  lemma ExtensionSays(scheme: Scheme, self: Bytes, x: Arrival, agent: Id, entry: CachedExtension)
    requires GaveExtension(scheme, self, x, agent, entry)
    ensures SaysBit(scheme, self, x, agent, entry.machine, entry.digestSupport)
  {
  }

  lemma {:induction false} AdvertCameFrom(scheme: Scheme, precheck: bool, ttl: U64, self: Bytes, xs: seq<Arrival>,
                                          agent: Id)
    returns (i: nat)
    requires agent in IngestAll(scheme, precheck, EmptyStore, ttl, self, xs).0.adverts
    ensures var (st, taken) := IngestAll(scheme, precheck, EmptyStore, ttl, self, xs);
            && |taken| == |xs| && i < |xs| && taken[i]
            && GaveAdvert(scheme, self, xs[i], agent, st.adverts[agent])
  {
    var n := |xs| - 1;
    ResultsLength(scheme, precheck, EmptyStore, ttl, self, xs);
    var before := IngestAll(scheme, precheck, EmptyStore, ttl, self, xs[..n]).0;
    var entry := IngestAll(scheme, precheck, EmptyStore, ttl, self, xs).0.adverts[agent];
    match xs[n] {
      case OnAdvertTopic(m, now) =>
        AdvertStep(scheme, precheck, before, ttl, self, m, now, agent);
        if agent in before.adverts && entry == before.adverts[agent] {
          i := AdvertCameFrom(scheme, precheck, ttl, self, xs[..n], agent);
        } else {
          i := n;
        }
      case OnDigestTopic(m, now) =>
        ExtensionStep(scheme, precheck, before, ttl, self, m, now, agent);
        i := AdvertCameFrom(scheme, precheck, ttl, self, xs[..n], agent);
        OtherBit(scheme, self, xs[i], agent, before.adverts[agent], entry.capabilities.digestSupport);
    }
  }

  lemma {:induction false} BitCameFrom(scheme: Scheme, precheck: bool, ttl: U64, self: Bytes, xs: seq<Arrival>,
                                       agent: Id)
    returns (i: nat)
    requires agent in IngestAll(scheme, precheck, EmptyStore, ttl, self, xs).0.adverts
    ensures var (st, taken) := IngestAll(scheme, precheck, EmptyStore, ttl, self, xs);
            && |taken| == |xs| && i < |xs| && taken[i]
            && SaysBit(scheme, self, xs[i], agent, st.adverts[agent].machine,
                       st.adverts[agent].capabilities.digestSupport)
  {
    var n := |xs| - 1;
    ResultsLength(scheme, precheck, EmptyStore, ttl, self, xs);
    var before := IngestAll(scheme, precheck, EmptyStore, ttl, self, xs[..n]).0;
    var entry := IngestAll(scheme, precheck, EmptyStore, ttl, self, xs).0.adverts[agent];
    if agent in before.adverts && entry == before.adverts[agent] {
      i := BitCameFrom(scheme, precheck, ttl, self, xs[..n], agent);
      return;
    }
    match xs[n] {
      case OnAdvertTopic(m, now) =>
        AdvertStep(scheme, precheck, before, ttl, self, m, now, agent);
        if SaysBit(scheme, self, xs[n], agent, entry.machine, entry.capabilities.digestSupport) {
          i := n;
        } else {
          i := ExtensionCameFrom(scheme, precheck, ttl, self, xs[..n], agent);
          ExtensionSays(scheme, self, xs[i], agent, before.extensions[agent]);
        }
      case OnDigestTopic(m, now) =>
        ExtensionStep(scheme, precheck, before, ttl, self, m, now, agent);
        i := n;
    }
  }

  /** Over every run, every stored advert, every stored extension and every digest bit came
      from a message that was taken in, signed by the agent it is stored under. */
  lemma EveryEntryHasItsMessage(scheme: Scheme, precheck: bool, ttl: U64, self: Bytes, xs: seq<Arrival>, agent: Id)
    ensures |IngestAll(scheme, precheck, EmptyStore, ttl, self, xs).1| == |xs|
    ensures var (st, taken) := IngestAll(scheme, precheck, EmptyStore, ttl, self, xs);
            && (agent in st.adverts ==>
                  && (exists i ::
                        0 <= i < |xs| && taken[i] && GaveAdvert(scheme, self, xs[i], agent, st.adverts[agent]))
                  && (exists i ::
                        && 0 <= i < |xs| && taken[i]
                        && SaysBit(scheme, self, xs[i], agent, st.adverts[agent].machine,
                                   st.adverts[agent].capabilities.digestSupport)))
            && (agent in st.extensions ==>
                  exists i ::
                    0 <= i < |xs| && taken[i] && GaveExtension(scheme, self, xs[i], agent, st.extensions[agent]))
  {
    ResultsLength(scheme, precheck, EmptyStore, ttl, self, xs);
    var st := IngestAll(scheme, precheck, EmptyStore, ttl, self, xs).0;
    if agent in st.adverts {
      var i := AdvertCameFrom(scheme, precheck, ttl, self, xs, agent);
      var j := BitCameFrom(scheme, precheck, ttl, self, xs, agent);
    }
    if agent in st.extensions {
      var i := ExtensionCameFrom(scheme, precheck, ttl, self, xs, agent);
    }
  }

  // ---------------------------------------------------------------- from signed extension to lookup

  /** `build_signed_digest_extension`: nothing is signed for a bit that is off. */
  function BuildSignedExtension(sign: Bytes -> Bytes, agent: Bytes, machine: Bytes, caps: Caps, now: Reading)
    : Option<Extension>
  {
    if !caps.digestSupport then None
    else
      var unsigned := Extension(EXTENSION_PROTOCOL_VERSION, agent, machine, Wall(now), true, []);
      Some(unsigned.(signature := sign(ExtensionSignedBytes(unsigned))))
  }

  /** Something is sent if and only if the bit is on, and it decodes to what was signed. */
  lemma BuiltExtensionDecodes(sign: Bytes -> Bytes, agent: Bytes, machine: Bytes, caps: Caps, built: Reading)
    requires |agent| == 32 && |machine| == 32
    requires forall text :: |sign(text)| <= U64_MAX
    ensures var e := BuildSignedExtension(sign, agent, machine, caps, built);
            && (e.Some? <==> caps.digestSupport)
            && (e.Some? ==> DecodeExtension(EncodeExtension(e.value)) == e
                            && e.value.signature == sign(ExtensionSignedBytes(e.value)))
  {
    if caps.digestSupport {
      var e := BuildSignedExtension(sign, agent, machine, caps, built).value;
      assert ExtensionSignedBytes(e) == ExtensionSignedBytes(e.(signature := []));
      ExtensionRoundTrip(e);
    }
  }

  /** What a signer who knows the key sends is applied, with or without the pre-check. */
  lemma BuiltExtensionIsApplied(scheme: Scheme, sign: Bytes -> Bytes, key: Bytes, st: Store, ttl: U64, self: Bytes,
                                agent: Bytes, machine: Bytes, caps: Caps, built: Reading, now: Reading,
                                precheck: bool)
    requires |agent| == 32 && |machine| == 32 && caps.digestSupport && agent != self
    requires forall text :: |sign(text)| <= U64_MAX && scheme.check(key, text, sign(text))
    requires scheme.keyId(key) == agent
    ensures (var e := BuildSignedExtension(sign, agent, machine, caps, built).value;
             IngestExtension(scheme, precheck, st, ttl, now, self,
                             Message(Some(agent), Some(key), true, EncodeExtension(e)))
             == Extend(st, ttl, now, FromBigEndian(agent), FromBigEndian(machine), true, Wall(built)))
  {
    var e := BuildSignedExtension(sign, agent, machine, caps, built).value;
    var m := Message(Some(agent), Some(key), true, EncodeExtension(e));
    assert DecodeExtension(m.payload) == Some(e) && ExtensionVerifies(scheme, e, key) by {
      BuiltExtensionDecodes(sign, agent, machine, caps, built);
    }
    assert Authenticated(self, m) && e.protocolVersion == EXTENSION_PROTOCOL_VERSION && e.createdAt == Wall(built);
    if precheck && !WouldAcceptExtension(st, now, FromBigEndian(agent), e.createdAt) {
      assert ExtensionToVerify(precheck, st, now, self, m) == None;
    } else {
      assert ExtensionToVerify(precheck, st, now, self, m) == Some(e);
    }
  }

  /** A peer that supports digests and says so in a signed extension is heard: from then on a
      lookup of its live advert for that machine says so too. */
  lemma PublishedExtensionIsFound(
    scheme: Scheme, sign: Bytes -> Bytes, key: Bytes, st: Store, ttl: U64, self: Bytes,
    agent: Bytes, machine: Bytes, caps: Caps, built: Reading, now: Reading, later: Reading, precheck: bool)
    requires |agent| == 32 && |machine| == 32 && caps.digestSupport && agent != self
    requires forall text :: |sign(text)| <= U64_MAX && scheme.check(key, text, sign(text))
    requires scheme.keyId(key) == agent && InTime(Wall(built), Wall(now), ttl)
    requires var id := FromBigEndian(agent);
             id in st.extensions && now <= st.extensions[id].expiresAt ==>
               st.extensions[id].createdAt < Wall(built)
    requires now <= later
    ensures var e := BuildSignedExtension(sign, agent, machine, caps, built).value;
            var m := Message(Some(agent), Some(key), true, EncodeExtension(e));
            var (after, taken) := IngestExtension(scheme, precheck, st, ttl, now, self, m);
            var id := FromBigEndian(agent);
            && taken && LiveBit(after, now, id, FromBigEndian(machine), false)
            && (id in st.adverts && later <= st.adverts[id].expiresAt
                && st.adverts[id].machine == FromBigEndian(machine) ==>
                  Lookup(after, later, id).1
                  == Some((st.adverts[id].capabilities.(digestSupport := true), FromBigEndian(machine))))
  {
    BuiltExtensionIsApplied(scheme, sign, key, st, ttl, self, agent, machine, caps, built, now, precheck);
    ExtendedIsFound(st, ttl, now, later, FromBigEndian(agent), FromBigEndian(machine), true, Wall(built));
  }
}
