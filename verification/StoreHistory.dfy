/** What holds over every run of the capability store: last write wins through TTL
    eviction, and where a stored digest bit came from. */
module StoreHistory {
  import opened Bytes
  import opened Clock
  import opened AdvertCodec
  import opened CapabilityStore

  // ---------------------------------------------------------------- last write wins

  ghost predicate ClockAdvances(run: seq<Timed>) {
    forall i, j :: 0 <= i < j < |run| ==> run[i].now <= run[j].now
  }

  predicate IsRecord(op: Operation) {
    !op.OpLookup?
  }

  /** Adverts and cards share one map, extensions have their own. */
  predicate SameSlot(p: Operation, q: Operation) {
    IsRecord(p) && IsRecord(q) && p.agent == q.agent && p.OpExtension? == q.OpExtension?
  }

  /** Operation `i` is a card that conflicts with a stored one of its own timestamp and so removes it. */
  ghost predicate ConflictingCard(ttl: U64, run: seq<Timed>, i: nat)
    requires i < |run|
  {
    run[i].op.OpCard? && run[i].op.agent in Run(ttl, run[..i]).adverts
      && run[i].op.agent !in Run(ttl, run[..i + 1]).adverts
  }

  ghost predicate Orderly(ttl: U64, run: seq<Timed>) {
    ClockAdvances(run) && forall i :: 0 <= i < |run| ==> !ConflictingCard(ttl, run, i)
  }

  /** The slot of an accepted record still holds it or something newer, or too much time has passed. */
  predicate Remembered(st: Store, ttl: U64, now: Reading, t: Timed)
    requires IsRecord(t.op)
  {
    var reach := Expiry(t.op.created, t.now, ttl);
    || reach.None? || reach.value < now
    || (if t.op.OpExtension? then
          && t.op.agent in st.extensions
          && t.op.created <= st.extensions[t.op.agent].createdAt
          && Earlier(reach.value, U64_MAX as real) <= st.extensions[t.op.agent].expiresAt
        else
          && t.op.agent in st.adverts
          && t.op.created <= st.adverts[t.op.agent].createdAt
          && Earlier(reach.value, U64_MAX as real) <= st.adverts[t.op.agent].expiresAt)
  }

  lemma RememberedWhenAccepted(st: Store, ttl: U64, t: Timed)
    requires IsRecord(t.op) && Accepts(st, ttl, t)
    ensures Remembered(Step(st, ttl, t), ttl, t.now, t)
  {
  }

  /** Something dated later that arrives later lives at least as long. */
  lemma LaterLivesLonger(created: U64, now: Reading, created': U64, now': Reading, ttl: U64)
    requires created < created' && now <= now' && Expiry(created, now, ttl).Some? && Expiry(created', now', ttl).Some?
    ensures Earlier(Expiry(created, now, ttl).value, U64_MAX as real) <= Expiry(created', now', ttl).value
  {
  }

  /** What has expired by its own date is not fresh any more, nor is anything older. */
  lemma NotFreshAgain(created: U64, now: Reading, older: U64, now': Reading, ttl: U64)
    requires created <= Wall(now) && older <= created && Expiry(created, now, ttl).Some?
             && Expiry(created, now, ttl).value < now'
    ensures !Fresh(older, Wall(now'), ttl)
  {
  }

  lemma RememberedAcrossStep(st: Store, ttl: U64, now: Reading, t: Timed, next: Timed)
    requires IsRecord(t.op) && Remembered(st, ttl, now, t) && t.now <= now <= next.now
    requires next.op.OpCard? ==>
               (next.op.agent in st.adverts ==> next.op.agent in Step(st, ttl, next).adverts)
    ensures Remembered(Step(st, ttl, next), ttl, next.now, t)
  {
    if IsRecord(next.op) && t.op.created < next.op.created
       && Expiry(t.op.created, t.now, ttl).Some? && Expiry(next.op.created, next.now, ttl).Some? {
      LaterLivesLonger(t.op.created, t.now, next.op.created, next.now, ttl);
    }
  }

  /** A run cut short is orderly too, and its operations fare as in the whole. */
  lemma OrderlyPrefix(ttl: U64, run: seq<Timed>, n: nat)
    requires n <= |run| && Orderly(ttl, run)
    ensures Orderly(ttl, run[..n])
    ensures forall i :: 0 <= i < n ==> AcceptedAt(ttl, run[..n], i) == AcceptedAt(ttl, run, i)
  {
    var front := run[..n];
    forall k | 0 <= k < n
      ensures !ConflictingCard(ttl, front, k) && AcceptedAt(ttl, front, k) == AcceptedAt(ttl, run, k)
    {
      assert front[..k] == run[..k] && front[..k + 1] == run[..k + 1];
      assert !ConflictingCard(ttl, run, k);
    }
  }

  lemma NoCardRemoves(ttl: U64, run: seq<Timed>, n: nat)
    requires n < |run| && Orderly(ttl, run)
    ensures var st, next := Run(ttl, run[..n]), run[n];
            next.op.OpCard? ==> (next.op.agent in st.adverts ==> next.op.agent in Step(st, ttl, next).adverts)
  {
    assert !ConflictingCard(ttl, run, n);
    RunAppend(ttl, run[..n], run[n]);
    assert run[..n + 1] == run[..n] + [run[n]];
  }

  lemma {:induction false} RememberedInRun(ttl: U64, run: seq<Timed>, i: nat)
    requires i < |run| && Orderly(ttl, run) && AcceptedAt(ttl, run, i) && IsRecord(run[i].op)
    ensures Remembered(Run(ttl, run), ttl, run[|run| - 1].now, run[i])
    decreases |run|
  {
    var n := |run| - 1;
    var front := run[..n];
    if i == n {
      RememberedWhenAccepted(Run(ttl, front), ttl, run[n]);
    } else {
      OrderlyPrefix(ttl, run, n);
      RememberedInRun(ttl, front, i);
      NoCardRemoves(ttl, run, n);
      RememberedAcrossStep(Run(ttl, front), ttl, front[n - 1].now, run[i], run[n]);
    }
  }

  /** A record not dated ahead of its arrival is outlived by its own timestamp: whatever the
      slot accepts later is dated later, expired and evicted or not. */
  lemma LastWriteWinsSurvivesEviction(ttl: U64, run: seq<Timed>, i: nat, j: nat)
    requires i < j < |run| && Orderly(ttl, run) && SameSlot(run[i].op, run[j].op)
    requires AcceptedAt(ttl, run, i) && AcceptedAt(ttl, run, j)
    requires run[i].op.created <= Wall(run[i].now)
    ensures run[i].op.created < run[j].op.created
  {
    var front := run[..j];
    OrderlyPrefix(ttl, run, j);
    RememberedInRun(ttl, front, i);
    assert front[j - 1].now <= run[j].now;
    if run[j].op.created <= run[i].op.created {
      StillRefused(Run(ttl, front), ttl, front[j - 1].now, run[i], run[j]);
    }
  }

  /** A remembered record, or anything older, is not accepted. */
  lemma StillRefused(st: Store, ttl: U64, now: Reading, t: Timed, next: Timed)
    requires SameSlot(t.op, next.op) && Remembered(st, ttl, now, t) && now <= next.now
             && next.op.created <= t.op.created
    requires Expiry(t.op.created, t.now, ttl).Some? && t.op.created <= Wall(t.now)
    ensures !Accepts(st, ttl, next)
  {
    if Expiry(t.op.created, t.now, ttl).value < next.now {
      NotFreshAgain(t.op.created, t.now, next.op.created, next.now, ttl);
    }
  }

  /** Some orderly run that starts with this record accepts the same record again. */
  ghost predicate Reaccepted(ttl: U64, first: Timed) {
    exists run, j: nat :: ReacceptedIn(ttl, first, run, j)
  }

  ghost predicate ReacceptedIn(ttl: U64, first: Timed, run: seq<Timed>, j: nat) {
    && 0 < j < |run| && Orderly(ttl, run)
    && run[0] == first && AcceptedAt(ttl, run, 0)
    && run[j].op == first.op && AcceptedAt(ttl, run, j)
  }

  /** A moment at which the entry has expired while its date plus the TTL is still to come. */
  lemma GapAfterExpiry(ttl: U64, first: Timed) returns (later: Reading)
    requires IsRecord(first.op) && Fresh(first.op.created, Wall(first.now), ttl)
    requires first.op.created > Wall(first.now) && Wall(first.now) + ttl + 1 < U64_MAX
    ensures first.now + ttl as real < later && Fresh(first.op.created, Wall(later), ttl)
  {
    var today := Wall(first.now);
    later := (first.now + today as real + 1.0) / 2.0 + ttl as real;
    assert Wall(later) == today + ttl;
  }

  /** Replay of an accepted record is possible exactly when it was dated ahead of its arrival:
      its capped expiry then comes before its own date plus the TTL. */
  lemma ReacceptedExactly(ttl: U64, first: Timed)
    requires IsRecord(first.op) && Accepts(EmptyStore, ttl, first) && Wall(first.now) + ttl + 1 < U64_MAX
    ensures Reaccepted(ttl, first) <==> first.op.created > Wall(first.now)
  {
    if first.op.created > Wall(first.now) {
      var later := GapAfterExpiry(ttl, first);
      AcceptedTwice(ttl, first, later);
    }
    forall run, j: nat | ReacceptedIn(ttl, first, run, j) ensures first.op.created > Wall(first.now) {
      if first.op.created <= Wall(first.now) {
        LastWriteWinsSurvivesEviction(ttl, run, 0, j);
      }
    }
  }

  /** Accepted, evicted by a lookup and accepted again. */
  lemma AcceptedTwice(ttl: U64, first: Timed, later: Reading)
    requires IsRecord(first.op) && Accepts(EmptyStore, ttl, first)
    requires first.op.created > Wall(first.now) && Wall(first.now) + ttl < U64_MAX
    requires first.now + ttl as real < later && Fresh(first.op.created, Wall(later), ttl)
    ensures Reaccepted(ttl, first)
  {
    var evict, again := Timed(OpLookup(first.op.agent), later), Timed(first.op, later);
    var run := [first, evict, again];
    var st1 := Step(EmptyStore, ttl, first);
    var st2 := Step(st1, ttl, evict);
    assert run[..0] == [] && run[..1] == [] + [first] && run[..2] == [first] + [evict]
           && run[..3] == [first, evict] + [again];
    RunAppend(ttl, [], first);
    assert [] + [first] == [first];
    RunAppend(ttl, [first], evict);
    assert [first] + [evict] == [first, evict];
    RunAppend(ttl, [first, evict], again);
    assert Run(ttl, run[..1]) == st1 && Run(ttl, run[..2]) == st2;
    assert Accepts(st2, ttl, again);
    assert ReacceptedIn(ttl, first, run, 2);
  }

  // ---------------------------------------------------------------- provenance of the digest bit

  /** An accepted extension of this agent and machine carrying a true bit. */
  ghost predicate TrueExtension(ttl: U64, run: seq<Timed>, agent: Id, machine: Id) {
    exists i :: 0 <= i < |run| && AcceptedAt(ttl, run, i)
                && run[i].op.OpExtension? && run[i].op.agent == agent && run[i].op.machine == machine
                && run[i].op.digest
  }

  /** The accepted advert now stored for this agent and machine carried the bit itself. */
  ghost predicate TrueAdvert(ttl: U64, run: seq<Timed>, agent: Id, entry: CachedAdvert) {
    exists i :: 0 <= i < |run| && AcceptedAt(ttl, run, i)
                && run[i].op.OpAdvert? && run[i].op.agent == agent && run[i].op.machine == entry.machine
                && run[i].op.created == entry.createdAt && run[i].op.caps.digestSupport
  }

  lemma ExtensionSourcePersists(ttl: U64, run: seq<Timed>, t: Timed, agent: Id, machine: Id)
    ensures TrueExtension(ttl, run, agent, machine) ==> TrueExtension(ttl, run + [t], agent, machine)
  {
    if TrueExtension(ttl, run, agent, machine) {
      var i :| 0 <= i < |run| && AcceptedAt(ttl, run, i)
               && run[i].op.OpExtension? && run[i].op.agent == agent && run[i].op.machine == machine
               && run[i].op.digest;
      assert (run + [t])[..i] == run[..i] && (run + [t])[i] == run[i];
    }
  }

  lemma AdvertSourcePersists(ttl: U64, run: seq<Timed>, t: Timed, agent: Id, entry: CachedAdvert)
    ensures TrueAdvert(ttl, run, agent, entry) ==> TrueAdvert(ttl, run + [t], agent, entry)
  {
    if TrueAdvert(ttl, run, agent, entry) {
      var i :| 0 <= i < |run| && AcceptedAt(ttl, run, i)
               && run[i].op.OpAdvert? && run[i].op.agent == agent && run[i].op.machine == entry.machine
               && run[i].op.created == entry.createdAt && run[i].op.caps.digestSupport;
      assert (run + [t])[..i] == run[..i] && (run + [t])[i] == run[i];
    }
  }

  /** What one operation does to the digest bits: a bit that was not there before is the
      accepted advert's own, or stands in an extension. */
  lemma BitAfterStep(st: Store, ttl: U64, t: Timed, agent: Id)
    ensures var st' := Step(st, ttl, t);
            agent in st'.extensions && st'.extensions[agent].digestSupport ==>
              || (agent in st.extensions && st.extensions[agent] == st'.extensions[agent])
              || (Accepts(st, ttl, t) && t.op.OpExtension? && t.op.agent == agent
                  && t.op.machine == st'.extensions[agent].machine && t.op.digest)
    ensures var st' := Step(st, ttl, t);
            agent in st'.adverts && st'.adverts[agent].capabilities.digestSupport ==>
              || (agent in st.adverts && st.adverts[agent] == st'.adverts[agent])
              || (agent in st'.extensions && st'.extensions[agent].digestSupport
                  && st'.extensions[agent].machine == st'.adverts[agent].machine)
              || (Accepts(st, ttl, t) && t.op.OpAdvert? && t.op.agent == agent
                  && t.op.machine == st'.adverts[agent].machine
                  && t.op.created == st'.adverts[agent].createdAt && t.op.caps.digestSupport)
  {
  }

  /** In every run of adverts, extensions, cards and lookups, a true digest bit in the store
      comes from the stored advert itself or from an accepted extension of its agent and
      machine, never from a card. */
  lemma {:induction false} DigestBitProvenance(ttl: U64, run: seq<Timed>, agent: Id)
    ensures var st := Run(ttl, run);
            agent in st.adverts && st.adverts[agent].capabilities.digestSupport ==>
              TrueAdvert(ttl, run, agent, st.adverts[agent])
                || TrueExtension(ttl, run, agent, st.adverts[agent].machine)
    ensures var st := Run(ttl, run);
            agent in st.extensions && st.extensions[agent].digestSupport ==>
              TrueExtension(ttl, run, agent, st.extensions[agent].machine)
  {
    if run != [] {
      var n := |run| - 1;
      var front, t := run[..n], run[n];
      DigestBitProvenance(ttl, front, agent);
      assert run == front + [t];
      var st, st' := Run(ttl, front), Run(ttl, run);
      assert AcceptedAt(ttl, run, n) == Accepts(st, ttl, t);
      BitAfterStep(st, ttl, t, agent);
      if agent in st'.extensions && st'.extensions[agent].digestSupport {
        ExtensionSourcePersists(ttl, front, t, agent, st'.extensions[agent].machine);
      }
      if agent in st'.adverts && st'.adverts[agent].capabilities.digestSupport {
        ExtensionSourcePersists(ttl, front, t, agent, st'.adverts[agent].machine);
        AdvertSourcePersists(ttl, front, t, agent, st'.adverts[agent]);
      }
    }
  }

  // ---------------------------------------------------------------- cards

  /** A card never lowers a live entry's protocol version; it can only make the entry
      disappear, when it carries the very timestamp of the entry, a version at least as
      high, and different material. */
  lemma CardNeverLowers(st: Store, ttl: U64, now: Reading, agent: Id, machine: Id, caps: Caps, created: U64)
    requires agent in st.adverts && now <= st.adverts[agent].expiresAt
    ensures var live := st.adverts[agent];
            var after := ImportCard(st, ttl, now, agent, machine, caps, created).0;
            && (agent in after.adverts ==>
                  live.capabilities.maxProtocolVersion <= after.adverts[agent].capabilities.maxProtocolVersion
                  && live.createdAt <= after.adverts[agent].createdAt)
            && (created != live.createdAt ==> agent in after.adverts)
            && (agent !in after.adverts <==>
                  && Fresh(created, Wall(now), ttl) && created == live.createdAt
                  && live.capabilities.maxProtocolVersion <= caps.maxProtocolVersion
                  && (machine != live.machine || CardCaps(st, now, agent, machine, caps) != live.capabilities))
            && after.extensions == st.extensions
  {
  }

  // ---------------------------------------------------------------- what a record brings, in plain terms

  /** Dated at most five minutes ahead and less than a TTL ago. */
  predicate InTime(created: U64, today: U64, ttl: U64) {
    0 < ttl && created <= today + 300_000 && today < created + ttl
  }

  /** One TTL after the earlier of its date and its arrival, in whole milliseconds from arrival. */
  function Until(created: U64, now: Reading, ttl: U64): real {
    now + (Min(Min(created, Wall(now)) + ttl, U64_MAX) - Wall(now)) as real
  }

  /** The digest bit a live extension of this agent and machine says, or this one. */
  function LiveBit(st: Store, now: Reading, agent: Id, machine: Id, otherwise: bool): bool {
    if agent !in st.extensions then otherwise
    else if st.extensions[agent].machine != machine then otherwise
    else if st.extensions[agent].expiresAt < now then otherwise
    else st.extensions[agent].digestSupport
  }

  /** An advert is inserted if and only if its date is in time and later than the entry's, live or not. */
  lemma InsertedExactly(st: Store, ttl: U64, now: Reading, agent: Id, machine: Id, caps: Caps, created: U64)
    ensures Insert(st, ttl, now, agent, machine, caps, created).1
       <==> InTime(created, Wall(now), ttl) && (agent in st.adverts ==> st.adverts[agent].createdAt < created)
  {
  }

  /** An extension is applied if and only if its date is in time and later than a live one's. */
  lemma ExtendedExactly(st: Store, ttl: U64, now: Reading, agent: Id, machine: Id, digest: bool, created: U64)
    ensures Extend(st, ttl, now, agent, machine, digest, created).1
       <==> (&& InTime(created, Wall(now), ttl)
             && (agent in st.extensions && now <= st.extensions[agent].expiresAt ==>
                   st.extensions[agent].createdAt < created))
  {
  }

  /** An inserted advert is what a lookup returns, with its machine and the digest bit of the
      agent's live extension for that machine, exactly until one TTL after the earlier of its
      date and its arrival; nothing else changes. */
  lemma InsertedIsFound(st: Store, ttl: U64, now: Reading, later: Reading, agent: Id, machine: Id, caps: Caps,
                        created: U64)
    requires now <= later && Insert(st, ttl, now, agent, machine, caps, created).1
    ensures var after := Insert(st, ttl, now, agent, machine, caps, created).0;
            && Lookup(after, later, agent).1
               == (if later <= Until(created, now, ttl)
                   then Some((caps.(digestSupport := LiveBit(st, now, agent, machine, caps.digestSupport)), machine))
                   else None)
            && after.adverts[agent].createdAt == created
            && after.extensions == st.extensions && after.adverts - {agent} == st.adverts - {agent}
  {
  }

  /** An extension in time and newer than the live one is applied: a lookup of the agent's live
      advert for that machine says its bit from then on, and no other agent is touched. */
  lemma ExtendedIsFound(st: Store, ttl: U64, now: Reading, later: Reading, agent: Id, machine: Id, digest: bool,
                        created: U64)
    requires InTime(created, Wall(now), ttl) && now <= later
    requires agent in st.extensions && now <= st.extensions[agent].expiresAt ==>
               st.extensions[agent].createdAt < created
    ensures var (after, taken) := Extend(st, ttl, now, agent, machine, digest, created);
            && taken && LiveBit(after, now, agent, machine, !digest) == digest
            && after.extensions[agent].createdAt == created
            && after.extensions[agent].expiresAt == Until(created, now, ttl)
            && after.adverts - {agent} == st.adverts - {agent}
            && after.extensions - {agent} == st.extensions - {agent}
            && (if agent in st.adverts && now <= st.adverts[agent].expiresAt && st.adverts[agent].machine == machine
                then Lookup(after, later, agent).1
                     == if later <= st.adverts[agent].expiresAt
                        then Some((st.adverts[agent].capabilities.(digestSupport := digest), machine))
                        else None
                else after.adverts == st.adverts)
  {
  }

  /** A card is installed if and only if its date is in time and the agent has no entry, or the
      card is dated later and no live entry has a higher version. */
  lemma CardInstalledExactly(st: Store, ttl: U64, now: Reading, agent: Id, machine: Id, caps: Caps, created: U64)
    ensures ImportCard(st, ttl, now, agent, machine, caps, created).1
       <==> (&& InTime(created, Wall(now), ttl)
             && (agent in st.adverts ==>
                   && st.adverts[agent].createdAt < created
                   && (now <= st.adverts[agent].expiresAt ==>
                         st.adverts[agent].capabilities.maxProtocolVersion <= caps.maxProtocolVersion)))
  {
  }

  /** An installed card is what a lookup returns, with its machine and without its own digest
      bit, exactly until one TTL after the earlier of its date and its arrival. */
  lemma InstalledCardIsFound(st: Store, ttl: U64, now: Reading, later: Reading, agent: Id, machine: Id, caps: Caps,
                             created: U64)
    requires now <= later && ImportCard(st, ttl, now, agent, machine, caps, created).1
    ensures var after := ImportCard(st, ttl, now, agent, machine, caps, created).0;
            && Lookup(after, later, agent).1
               == (if later <= Until(created, now, ttl)
                   then Some((Caps(caps.maxProtocolVersion, caps.gossipInbox, caps.kemAlgorithm, caps.maxEnvelopeBytes,
                                   caps.kemPublicKey, LiveBit(st, now, agent, machine, false)), machine))
                   else None)
            && after.adverts[agent].createdAt == created
  {
  }

  /** A card touches its own agent's entry only, and that only when it is installed or conflicts
      with an entry of its very date. */
  lemma CardTouchesItsAgentOnly(st: Store, ttl: U64, now: Reading, agent: Id, machine: Id, caps: Caps, created: U64)
    ensures var (after, installed) := ImportCard(st, ttl, now, agent, machine, caps, created);
            && after.extensions == st.extensions && after.adverts - {agent} == st.adverts - {agent}
            && (!installed && (agent in st.adverts ==> st.adverts[agent].createdAt != created) ==> after == st)
  {
  }
}
