/** The capability cache of `src/dm_capability.rs`: what each operation does to the
    two maps, and the class whose methods do it in place. */
module CapabilityStore {
  import opened Bytes
  import opened Clock
  import opened AdvertCodec

  /** A 32-byte agent or machine id, by the big-endian number its bytes spell. */
  type Id = nat

  const ADVERT_CACHE_TTL_MS: U64 := 900_000
  const MAX_FUTURE_SKEW_MS: U64 := 300_000

  datatype CachedAdvert = CachedAdvert(capabilities: Caps, machine: Id, expiresAt: Instant, createdAt: U64)
  datatype CachedExtension = CachedExtension(machine: Id, digestSupport: bool, expiresAt: Instant, createdAt: U64)

  /** The two maps of `CapabilityStoreInner`. */
  datatype Store = Store(adverts: map<Id, CachedAdvert>, extensions: map<Id, CachedExtension>)

  const EmptyStore := Store(map[], map[])

  /** `timestamp_is_fresh_for_ttl` */
  predicate Fresh(created: U64, today: U64, ttl: U64) {
    ttl > 0 && created <= SatAdd(today, MAX_FUTURE_SKEW_MS) && SatSub(today, created) < ttl
  }

  /** `expiry_for_signed_timestamp_at`: whole milliseconds are left, counted from the instant of
      arrival. The wall and the monotonic clock are one. */
  function Expiry(created: U64, now: Reading, ttl: U64): (e: Option<Instant>)
    ensures e.Some? ==> now <= e.value
    ensures e.Some? ==> e.value == now + (Min(Min(created, Wall(now)) + ttl, U64_MAX) - Wall(now)) as real
  {
    if !Fresh(created, Wall(now), ttl) then None
    else Some(now + Min(SatSub(SatAdd(created, ttl), Wall(now)), ttl) as real)
  }

  /** The digest bit of an extension that is fresh and bound to this machine overrides the one given. */
  function MergedBit(st: Store, agent: Id, machine: Id, now: Reading, own: bool): bool {
    if agent in st.extensions && now <= st.extensions[agent].expiresAt && st.extensions[agent].machine == machine
    then st.extensions[agent].digestSupport else own
  }

  /** `CapabilityStore::insert` */
  function Insert(st: Store, ttl: U64, now: Reading, agent: Id, machine: Id, caps: Caps, created: U64): (Store, bool) {
    var expiry := Expiry(created, now, ttl);
    if expiry.None? then
      (st, false)
    else if agent in st.adverts && created <= st.adverts[agent].createdAt then
      (st, false)
    else
      var merged := caps.(digestSupport := MergedBit(st, agent, machine, now, caps.digestSupport));
      (st.(adverts := st.adverts[agent := CachedAdvert(merged, machine, expiry.value, created)]), true)
  }

  /** `CapabilityStore::apply_digest_extension` */
  function Extend(st: Store, ttl: U64, now: Reading, agent: Id, machine: Id, digest: bool,
                  created: U64): (Store, bool) {
    var expiry := Expiry(created, now, ttl);
    if expiry.None? then
      (st, false)
    else if agent in st.extensions && now <= st.extensions[agent].expiresAt
            && created <= st.extensions[agent].createdAt then
      (st, false)
    else
      var extensions := st.extensions[agent := CachedExtension(machine, digest, expiry.value, created)];
      var adverts :=
        if agent in st.adverts && now <= st.adverts[agent].expiresAt && st.adverts[agent].machine == machine then
          var entry := st.adverts[agent];
          st.adverts[agent := entry.(capabilities := entry.capabilities.(digestSupport := digest))]
        else
          st.adverts;
      (Store(adverts, extensions), true)
  }

  /** The capabilities a card brings in: its own digest bit is unsigned and dropped. */
  function CardCaps(st: Store, now: Reading, agent: Id, machine: Id, caps: Caps): Caps {
    caps.(digestSupport := MergedBit(st, agent, machine, now, false))
  }

  /** `CapabilityStore::insert_from_card` */
  function ImportCard(st: Store, ttl: U64, now: Reading, agent: Id, machine: Id, caps: Caps,
                      created: U64): (Store, bool) {
    var expiry := Expiry(created, now, ttl);
    if expiry.None? then
      (st, false)
    else
      var merged := CardCaps(st, now, agent, machine, caps);
      var installed := st.(adverts := st.adverts[agent := CachedAdvert(merged, machine, expiry.value, created)]);
      if agent !in st.adverts then
        (installed, true)
      else
        var existing := st.adverts[agent];
        if created < existing.createdAt then
          (st, false)
        else if now <= existing.expiresAt && existing.capabilities.maxProtocolVersion > merged.maxProtocolVersion then
          (st, false)
        else if created == existing.createdAt then
          if existing.machine == machine && existing.capabilities == merged
          then (st, false)
          else (st.(adverts := st.adverts - {agent}), false)
        else
          (installed, true)
  }

  /** `CapabilityStore::lookup_binding_at`: an entry found expired is dropped. */
  function Lookup(st: Store, now: Reading, agent: Id): (Store, Option<(Caps, Id)>) {
    if agent !in st.adverts then
      (st, None)
    else if now > st.adverts[agent].expiresAt then
      (st.(adverts := st.adverts - {agent}), None)
    else
      (st, Some((st.adverts[agent].capabilities, st.adverts[agent].machine)))
  }

  /** `would_accept_advert` */
  predicate WouldAcceptAdvert(st: Store, agent: Id, created: U64) {
    agent in st.adverts ==> created > st.adverts[agent].createdAt
  }

  /** `would_accept_digest_extension` */
  predicate WouldAcceptExtension(st: Store, now: Reading, agent: Id, created: U64) {
    agent in st.extensions ==> now > st.extensions[agent].expiresAt || created > st.extensions[agent].createdAt
  }

  /** The store itself. The clock is a parameter of every operation. */
  class CapabilityCache {
    var adverts: map<Id, CachedAdvert>
    var extensions: map<Id, CachedExtension>
    const ttl: U64

    constructor (ttl: U64)
      ensures State() == EmptyStore && this.ttl == ttl
    {
      adverts, extensions := map[], map[];
      this.ttl := ttl;
    }

    function State(): Store
      reads this
    {
      Store(adverts, extensions)
    }

    method InsertAdvert(now: Reading, agent: Id, machine: Id, caps: Caps, created: U64) returns (accepted: bool)
      modifies this
      ensures (State(), accepted) == Insert(old(State()), ttl, now, agent, machine, caps, created)
    {
      var expiry := Expiry(created, now, ttl);
      if expiry.None? {
        return false;
      }
      if agent in adverts && created <= adverts[agent].createdAt {
        return false;
      }
      var merged := caps;
      if agent in extensions && now <= extensions[agent].expiresAt && extensions[agent].machine == machine {
        merged := merged.(digestSupport := extensions[agent].digestSupport);
      }
      adverts := adverts[agent := CachedAdvert(merged, machine, expiry.value, created)];
      return true;
    }

    method ApplyExtension(now: Reading, agent: Id, machine: Id, digest: bool, created: U64) returns (accepted: bool)
      modifies this
      ensures (State(), accepted) == Extend(old(State()), ttl, now, agent, machine, digest, created)
    {
      var expiry := Expiry(created, now, ttl);
      if expiry.None? {
        return false;
      }
      if agent in extensions && now <= extensions[agent].expiresAt && created <= extensions[agent].createdAt {
        return false;
      }
      extensions := extensions[agent := CachedExtension(machine, digest, expiry.value, created)];
      if agent in adverts {
        var entry := adverts[agent];
        if now <= entry.expiresAt && entry.machine == machine {
          adverts := adverts[agent := entry.(capabilities := entry.capabilities.(digestSupport := digest))];
        }
      }
      return true;
    }

    method InsertFromCard(now: Reading, agent: Id, machine: Id, caps: Caps, created: U64) returns (accepted: bool)
      modifies this
      ensures (State(), accepted) == ImportCard(old(State()), ttl, now, agent, machine, caps, created)
    {
      var expiry := Expiry(created, now, ttl);
      if expiry.None? {
        return false;
      }
      var merged := caps.(digestSupport := false);
      if agent in extensions && now <= extensions[agent].expiresAt && extensions[agent].machine == machine {
        merged := merged.(digestSupport := extensions[agent].digestSupport);
      }
      if agent in adverts {
        var existing := adverts[agent];
        if created < existing.createdAt {
          return false;
        }
        if now <= existing.expiresAt && existing.capabilities.maxProtocolVersion > merged.maxProtocolVersion {
          return false;
        }
        if created == existing.createdAt {
          if !(existing.machine == machine && existing.capabilities == merged) {
            adverts := adverts - {agent};
          }
          return false;
        }
      }
      adverts := adverts[agent := CachedAdvert(merged, machine, expiry.value, created)];
      return true;
    }

    method LookupBinding(now: Reading, agent: Id) returns (binding: Option<(Caps, Id)>)
      modifies this
      ensures (State(), binding) == Lookup(old(State()), now, agent)
    {
      if agent !in adverts {
        return None;
      }
      var entry := adverts[agent];
      if now > entry.expiresAt {
        adverts := adverts - {agent};
        return None;
      }
      return Some((entry.capabilities, entry.machine));
    }
  }

  // ---------------------------------------------------------------- runs

  datatype Operation =
    | OpAdvert(agent: Id, machine: Id, caps: Caps, created: U64)
    | OpExtension(agent: Id, machine: Id, digest: bool, created: U64)
    | OpCard(agent: Id, machine: Id, caps: Caps, created: U64)
    | OpLookup(agent: Id)

  /** An operation and the clock it reads. */
  datatype Timed = Timed(op: Operation, now: Reading)

  /** The store after one operation. */
  function Step(st: Store, ttl: U64, t: Timed): Store {
    match t.op
    case OpAdvert(a, m, c, created) => Insert(st, ttl, t.now, a, m, c, created).0
    case OpExtension(a, m, d, created) => Extend(st, ttl, t.now, a, m, d, created).0
    case OpCard(a, m, c, created) => ImportCard(st, ttl, t.now, a, m, c, created).0
    case OpLookup(a) => Lookup(st, t.now, a).0
  }

  /** Whether the operation recorded new signed state. */
  predicate Accepts(st: Store, ttl: U64, t: Timed) {
    match t.op
    case OpAdvert(a, m, c, created) => Insert(st, ttl, t.now, a, m, c, created).1
    case OpExtension(a, m, d, created) => Extend(st, ttl, t.now, a, m, d, created).1
    case OpCard(a, m, c, created) => ImportCard(st, ttl, t.now, a, m, c, created).1
    case OpLookup(a) => false
  }

  /** The store after a run from the empty store. */
  function Run(ttl: U64, run: seq<Timed>): Store {
    if run == [] then EmptyStore
    else Step(Run(ttl, run[..|run| - 1]), ttl, run[|run| - 1])
  }

  /** Whether operation `i` of the run recorded new signed state. */
  predicate AcceptedAt(ttl: U64, run: seq<Timed>, i: nat)
    requires i < |run|
  {
    Accepts(Run(ttl, run[..i]), ttl, run[i])
  }

  /** A run one operation longer. */
  lemma RunAppend(ttl: U64, run: seq<Timed>, t: Timed)
    ensures Run(ttl, run + [t]) == Step(Run(ttl, run), ttl, t)
  {
  }

  /** The object goes through a run as the runs of the values do. */
  method Execute(ttl: U64, run: seq<Timed>) returns (cache: CapabilityCache)
    ensures fresh(cache) && cache.ttl == ttl && cache.State() == Run(ttl, run)
  {
    cache := new CapabilityCache(ttl);
    for i := 0 to |run|
      invariant fresh(cache) && cache.ttl == ttl && cache.State() == Run(ttl, run[..i])
    {
      assert run[..i + 1][..i] == run[..i];
      var now := run[i].now;
      match run[i].op {
        case OpAdvert(a, m, c, created) => var _ := cache.InsertAdvert(now, a, m, c, created);
        case OpExtension(a, m, d, created) => var _ := cache.ApplyExtension(now, a, m, d, created);
        case OpCard(a, m, c, created) => var _ := cache.InsertFromCard(now, a, m, c, created);
        case OpLookup(a) => var _ := cache.LookupBinding(now, a);
      }
    }
    assert run[..|run|] == run;
  }
}
