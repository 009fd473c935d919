/** The recent-delivery cache of `src/dm.rs`: a bounded dedupe cache with a TTL, the
    timestamp window that goes with it, and what the two together promise about replays. */
module DeliveryCache {
  import opened Bytes
  import opened Clock

  const MAX_ENVELOPE_LIFETIME_MS: U64 := 600_000
  const CLOCK_SKEW_TOLERANCE_MS: U64 := 30_000
  const DEFAULT_TTL_MS: Instant := (MAX_ENVELOPE_LIFETIME_MS + CLOCK_SKEW_TOLERANCE_MS) as real
  const DEFAULT_MAX_SIZE: nat := 10_000

  /** `DedupeKey`: sender and request, by the numbers their bytes spell. */
  datatype Key = Key(sender: nat, request: nat)

  datatype Outcome = Accepted | RejectedByPolicy(reason: string)

  datatype CachedOutcome = CachedOutcome(outcome: Outcome, protocolVersion: nat, durableBinding: Option<Bytes>,
                                         firstSeen: Reading)

  datatype Cache = Cache(order: seq<Key>, entries: map<Key, CachedOutcome>)

  // ---------------------------------------------------------------- operations

  function Without(order: seq<Key>, key: Key): seq<Key> {
    if order == [] then [] else if order[0] == key then order[1..] else [order[0]] + Without(order[1..], key)
  }

  /** `lookup`: an expired entry is evicted. */
  function Lookup(c: Cache, ttl: Instant, now: Reading, key: Key): (Cache, Option<CachedOutcome>) {
    if key !in c.entries then (c, None)
    else if now - c.entries[key].firstSeen > ttl then (Cache(Without(c.order, key), c.entries - {key}), None)
    else (c, Some(c.entries[key]))
  }

  /** Drop the oldest entries until the cache fits. */
  function Trim(c: Cache, maxSize: nat): Cache
    decreases |c.order|
  {
    if |c.entries| > maxSize && c.order != []
    then Trim(Cache(c.order[1..], c.entries - {c.order[0]}), maxSize)
    else c
  }

  /** `insert_for_protocol` and `complete_durable`: claim the key unless it is taken. */
  function Claim(c: Cache, maxSize: nat, key: Key, entry: CachedOutcome): (Cache, bool) {
    if key in c.entries then (c, false)
    else (Trim(Cache(c.order + [key], c.entries[key := entry]), maxSize), true)
  }

  datatype Window = InWindow | FromFuture | Expired | LifetimeExceedsMax

  /** `validate_timestamp_window` */
  function CheckWindow(created: U64, expires: U64, today: U64): Window {
    if created > SatAdd(today, CLOCK_SKEW_TOLERANCE_MS) then FromFuture
    else if today >= expires then Expired
    else if expires > SatAdd(created, MAX_ENVELOPE_LIFETIME_MS) then LifetimeExceedsMax
    else InWindow
  }

  class RecentDeliveryCache {
    var order: seq<Key>
    var entries: map<Key, CachedOutcome>
    const ttl: Instant
    const maxSize: nat

    function View(): Cache
      reads this
    {
      Cache(order, entries)
    }

    constructor (ttl: Instant, maxSize: nat)
      ensures View() == Cache([], map[]) && this.ttl == ttl && this.maxSize == maxSize
    {
      order, entries := [], map[];
      this.ttl, this.maxSize := ttl, maxSize;
    }

    constructor WithDefaults()
      ensures View() == Cache([], map[]) && ttl == DEFAULT_TTL_MS && maxSize == DEFAULT_MAX_SIZE
    {
      order, entries := [], map[];
      ttl, maxSize := (MAX_ENVELOPE_LIFETIME_MS + CLOCK_SKEW_TOLERANCE_MS) as real, 10_000;
    }

    method LookupKey(now: Reading, key: Key) returns (found: Option<CachedOutcome>)
      modifies this
      ensures (View(), found) == Lookup(old(View()), ttl, now, key)
    {
      if key !in entries {
        return None;
      }
      var entry := entries[key];
      if now - entry.firstSeen > ttl {
        entries := entries - {key};
        var at := 0;
        while at < |order| && order[at] != key
          invariant at <= |order| && Without(order, key) == order[..at] + Without(order[at..], key)
        {
          assert order[at..][1..] == order[at + 1..];
          at := at + 1;
        }
        if at < |order| {
          assert order[at..][1..] == order[at + 1..];
          order := order[..at] + order[at + 1..];
        } else {
          assert order[at..] == [] && order[..at] + [] == order;
        }
        return None;
      }
      return Some(entry);
    }

    /** The trim loop both claiming methods end with. */
    method TrimToSize()
      modifies this
      ensures View() == Trim(old(View()), maxSize)
    {
      while |entries| > maxSize && order != []
        invariant Trim(View(), maxSize) == Trim(old(View()), maxSize)
        decreases |order|
      {
        var oldest := order[0];
        order := order[1..];
        entries := entries - {oldest};
      }
    }

    method InsertForProtocol(now: Reading, key: Key, outcome: Outcome, protocolVersion: nat) returns (claimed: bool)
      modifies this
      ensures (View(), claimed) == Claim(old(View()), maxSize, key, CachedOutcome(outcome, protocolVersion, None, now))
    {
      if key in entries {
        return false;
      }
      entries := entries[key := CachedOutcome(outcome, protocolVersion, None, now)];
      order := order + [key];
      TrimToSize();
      return true;
    }

    method CompleteDurable(now: Reading, key: Key, outcome: Outcome, protocolVersion: nat, binding: Bytes)
      returns (completed: bool)
      modifies this
      ensures (View(), completed)
           == Claim(old(View()), maxSize, key, CachedOutcome(outcome, protocolVersion, Some(binding), now))
    {
      if key in entries {
        return false;
      }
      entries := entries[key := CachedOutcome(outcome, protocolVersion, Some(binding), now)];
      order := order + [key];
      TrimToSize();
      return true;
    }
  }

  // ---------------------------------------------------------------- runs

  datatype Envelope = Envelope(key: Key, created: U64, expires: U64)

  predicate Passes(e: Envelope, now: Reading) {
    CheckWindow(e.created, e.expires, Wall(now)) == InWindow
  }

  /** What the inbox does with the cache. A receive checks the window and looks the key up. A
      recheck is a lookup that comes later with no new window check, as the durable path makes it
      under the request's lock. The claim may come any time after, and between any two of these
      anything else may happen. */
  datatype Operation =
    | Receive(envelope: Envelope)
    | Recheck(envelope: Envelope)
    | Deliver(key: Key, entry: CachedOutcome)

  datatype Timed = Timed(op: Operation, now: Reading)

  function Step(c: Cache, ttl: Instant, maxSize: nat, t: Timed): Cache {
    match t.op
    case Receive(e) => if Passes(e, t.now) then Lookup(c, ttl, t.now, e.key).0 else c
    case Recheck(e) => Lookup(c, ttl, t.now, e.key).0
    case Deliver(key, entry) => Claim(c, maxSize, key, entry.(firstSeen := t.now)).0
  }

  function Run(ttl: Instant, maxSize: nat, run: seq<Timed>): Cache {
    if run == [] then Cache([], map[])
    else Step(Run(ttl, maxSize, run[..|run| - 1]), ttl, maxSize, run[|run| - 1])
  }

  /** The object goes through a run as the runs of the values do. */
  method Execute(ttl: Instant, maxSize: nat, run: seq<Timed>) returns (cache: RecentDeliveryCache)
    ensures fresh(cache) && cache.ttl == ttl && cache.maxSize == maxSize && cache.View() == Run(ttl, maxSize, run)
  {
    cache := new RecentDeliveryCache(ttl, maxSize);
    for i := 0 to |run|
      invariant fresh(cache) && cache.ttl == ttl && cache.maxSize == maxSize
      invariant cache.View() == Run(ttl, maxSize, run[..i])
    {
      assert run[..i + 1][..i] == run[..i];
      var now := run[i].now;
      match run[i].op {
        case Receive(e) =>
          if Passes(e, now) {
            var _ := cache.LookupKey(now, e.key);
          }
        case Recheck(e) => var _ := cache.LookupKey(now, e.key);
        case Deliver(key, entry) =>
          if entry.durableBinding.Some? {
            var _ := cache.CompleteDurable(now, key, entry.outcome, entry.protocolVersion, entry.durableBinding.value);
          } else {
            var _ := cache.InsertForProtocol(now, key, entry.outcome, entry.protocolVersion);
          }
      }
    }
    assert run[..|run|] == run;
  }

  /** What a delivery at `i` puts into the cache. */
  function ClaimOf(run: seq<Timed>, i: nat): CachedOutcome
    requires i < |run| && run[i].op.Deliver?
  {
    var entry := run[i].op.entry;
    CachedOutcome(entry.outcome, entry.protocolVersion, entry.durableBinding, run[i].now)
  }

  /** Operation `i` claimed its key. */
  predicate ClaimedAt(ttl: Instant, maxSize: nat, run: seq<Timed>, i: nat)
    requires i < |run|
  {
    run[i].op.Deliver? && run[i].op.key !in Run(ttl, maxSize, run[..i]).entries
  }

  /** A delivery is told that it claimed its key if and only if it did. */
  lemma ClaimIsAnswered(ttl: Instant, maxSize: nat, run: seq<Timed>, i: nat)
    requires i < |run| && run[i].op.Deliver?
    ensures Claim(Run(ttl, maxSize, run[..i]), maxSize, run[i].op.key, ClaimOf(run, i)).1
       <==> ClaimedAt(ttl, maxSize, run, i)
  {
  }

  /** The other keys claimed after operation `i`. */
  function OthersClaimed(ttl: Instant, maxSize: nat, run: seq<Timed>, i: nat, key: Key): set<Key> {
    var n := |run| - 1;
    if n <= i then {}
    else OthersClaimed(ttl, maxSize, run[..n], i, key)
         + (if ClaimedAt(ttl, maxSize, run, n) && run[n].op.key != key then {run[n].op.key} else {})
  }

  // ---------------------------------------------------------------- the cache is a bounded queue

  ghost predicate Distinct(s: seq<Key>) {
    forall i, j :: 0 <= i < j < |s| ==> s[i] != s[j]
  }

  ghost predicate Valid(c: Cache) {
    Distinct(c.order) && (forall k :: k in c.order <==> k in c.entries)
  }

  function Keys(s: seq<Key>): set<Key> {
    set k <- s
  }

  lemma {:induction false} DistinctCount(s: seq<Key>)
    requires Distinct(s)
    ensures |Keys(s)| == |s|
  {
    if s != [] {
      var front := s[..|s| - 1];
      DistinctCount(front);
      assert Keys(s) == Keys(front) + {s[|s| - 1]};
    }
  }

  lemma ValidCount(c: Cache)
    requires Valid(c)
    ensures |c.order| == |c.entries|
  {
    DistinctCount(c.order);
    assert Keys(c.order) == c.entries.Keys;
  }

  /** What was pushed behind a key. */
  function Behind(order: seq<Key>, key: Key): seq<Key> {
    if order == [] then [] else if order[0] == key then order[1..] else Behind(order[1..], key)
  }

  lemma {:induction false} BehindAppend(order: seq<Key>, key: Key, x: Key)
    requires key in order
    ensures Behind(order + [x], key) == Behind(order, key) + [x]
  {
    assert (order + [x])[1..] == order[1..] + [x];
    if order[0] != key {
      BehindAppend(order[1..], key, x);
    }
  }

  lemma {:induction false} WithoutFacts(order: seq<Key>, key: Key)
    requires Distinct(order)
    ensures Distinct(Without(order, key))
    ensures forall k :: k in Without(order, key) <==> k in order && k != key
  {
    if order != [] && order[0] != key {
      WithoutFacts(order[1..], key);
      assert order == [order[0]] + order[1..];
      assert order[0] !in order[1..];
      assert Without(order, key) == [order[0]] + Without(order[1..], key);
    } else if order != [] {
      assert order == [key] + order[1..];
    }
  }

  lemma {:induction false} BehindWithout(order: seq<Key>, key: Key, gone: Key)
    requires key != gone
    ensures Keys(Behind(Without(order, gone), key)) <= Keys(Behind(order, key))
  {
    if order != [] {
      var rest := order[1..];
      if order[0] == key {
        assert Without(order, gone) == [key] + Without(rest, gone);
        WithoutSubset(rest, gone);
      } else if order[0] != gone {
        assert Without(order, gone)[1..] == Without(rest, gone);
        BehindWithout(rest, key, gone);
      }
    }
  }

  lemma {:induction false} WithoutSubset(order: seq<Key>, gone: Key)
    ensures forall k :: k in Without(order, gone) ==> k in order
  {
    if order != [] && order[0] != gone {
      WithoutSubset(order[1..], gone);
    }
  }

  lemma PopKeepsValid(c: Cache)
    requires Valid(c) && c.order != []
    ensures Valid(Cache(c.order[1..], c.entries - {c.order[0]}))
  {
  }

  /** A key leaves by trimming only when at least `maxSize` others stand behind it. */
  lemma {:induction false} TrimEvictsOldest(c: Cache, maxSize: nat, key: Key)
    requires Valid(c) && key in c.entries
    ensures Valid(Trim(c, maxSize))
    ensures || maxSize <= |Keys(Behind(c.order, key))|
            || (&& key in Trim(c, maxSize).entries && Trim(c, maxSize).entries[key] == c.entries[key]
                && Behind(Trim(c, maxSize).order, key) == Behind(c.order, key))
    decreases |c.order|
  {
    if |c.entries| > maxSize && c.order != [] {
      ValidCount(c);
      PopKeepsValid(c);
      var popped := Cache(c.order[1..], c.entries - {c.order[0]});
      if c.order[0] == key {
        DistinctCount(c.order[1..]);
        TrimValid(popped, maxSize);
      } else {
        TrimEvictsOldest(popped, maxSize, key);
      }
    }
  }

  lemma {:induction false} TrimValid(c: Cache, maxSize: nat)
    requires Valid(c)
    ensures Valid(Trim(c, maxSize)) && |Trim(c, maxSize).entries| <= maxSize
    decreases |c.order|
  {
    ValidCount(c);
    if |c.entries| > maxSize && c.order != [] {
      PopKeepsValid(c);
      TrimValid(Cache(c.order[1..], c.entries - {c.order[0]}), maxSize);
    }
  }

  lemma LookupValid(c: Cache, ttl: Instant, now: Reading, key: Key)
    requires Valid(c)
    ensures Valid(Lookup(c, ttl, now, key).0) && |Lookup(c, ttl, now, key).0.entries| <= |c.entries|
  {
    WithoutFacts(c.order, key);
  }

  lemma StepValid(c: Cache, ttl: Instant, maxSize: nat, t: Timed)
    requires Valid(c) && |c.entries| <= maxSize
    ensures Valid(Step(c, ttl, maxSize, t)) && |Step(c, ttl, maxSize, t).entries| <= maxSize
  {
    match t.op
    case Receive(e) => LookupValid(c, ttl, t.now, e.key);
    case Recheck(e) => LookupValid(c, ttl, t.now, e.key);
    case Deliver(key, entry) =>
      if key !in c.entries {
        TrimValid(Cache(c.order + [key], c.entries[key := entry.(firstSeen := t.now)]), maxSize);
      }
  }

  /** In every run the queue and the map agree and the cache is no larger than its bound. */
  lemma {:induction false} AlwaysValid(ttl: Instant, maxSize: nat, run: seq<Timed>)
    ensures Valid(Run(ttl, maxSize, run)) && |Run(ttl, maxSize, run).entries| <= maxSize
  {
    if run != [] {
      AlwaysValid(ttl, maxSize, run[..|run| - 1]);
      StepValid(Run(ttl, maxSize, run[..|run| - 1]), ttl, maxSize, run[|run| - 1]);
    }
  }

  // ---------------------------------------------------------------- replay safety

  ghost predicate ClockAdvances(run: seq<Timed>) {
    forall i, j :: 0 <= i < j < |run| ==> run[i].now <= run[j].now
  }

  /** The envelope is the only one handled under its key; nothing is delivered under that key
      before the envelope has passed the window, and no recheck comes later than `wait` after
      a passing window check. */
  ghost predicate OnlyThis(run: seq<Timed>, e: Envelope, wait: Instant) {
    && (forall i :: 0 <= i < |run| && run[i].op.Receive? && run[i].op.envelope.key == e.key ==> run[i].op.envelope == e)
    && (forall i :: 0 <= i < |run| && run[i].op.Recheck? && run[i].op.envelope.key == e.key ==>
          run[i].op.envelope == e && PassedWithin(run, e, i, wait))
    && (forall i :: 0 <= i < |run| && run[i].op.Deliver? && run[i].op.key == e.key ==> PassedBefore(run, e, i))
  }

  ghost predicate PassedBefore(run: seq<Timed>, e: Envelope, i: nat)
    requires i <= |run|
  {
    exists r :: 0 <= r < i && run[r].op == Receive(e) && Passes(e, run[r].now)
  }

  ghost predicate PassedWithin(run: seq<Timed>, e: Envelope, i: nat, wait: Instant)
    requires i < |run|
  {
    exists r :: 0 <= r < i && run[r].op == Receive(e) && Passes(e, run[r].now) && run[i].now <= run[r].now + wait
  }

  /** The claim is still there with everything pushed behind it claimed since, or enough has been claimed since. */
  predicate Guarded(c: Cache, key: Key, claim: CachedOutcome, since: set<Key>, maxSize: nat) {
    || maxSize <= |since|
    || (key in c.entries && c.entries[key] == claim && Keys(Behind(c.order, key)) <= since)
  }

  lemma SubsetCount(a: set<Key>, b: set<Key>)
    requires a <= b
    ensures |a| <= |b|
  {
    if a != b {
      var x :| x in b && x !in a;
      SubsetCount(a, b - {x});
    }
  }

  lemma GuardedWhenClaimed(c: Cache, maxSize: nat, key: Key, entry: CachedOutcome)
    requires Valid(c) && key !in c.entries
    ensures Guarded(Claim(c, maxSize, key, entry).0, key, entry, {}, maxSize)
  {
    var pushed := Cache(c.order + [key], c.entries[key := entry]);
    NothingBehindLast(c.order, key);
    TrimEvictsOldest(pushed, maxSize, key);
  }

  lemma {:induction false} NothingBehindLast(order: seq<Key>, key: Key)
    requires key !in order
    ensures Behind(order + [key], key) == []
  {
    if order != [] {
      assert (order + [key])[1..] == order[1..] + [key];
      NothingBehindLast(order[1..], key);
    }
  }

  lemma GuardedAcrossClaim(c: Cache, maxSize: nat, key: Key, claim: CachedOutcome, since: set<Key>,
                           other: Key, entry: CachedOutcome)
    requires Valid(c) && Guarded(c, key, claim, since, maxSize) && other !in c.entries && other != key
    ensures Guarded(Claim(c, maxSize, other, entry).0, key, claim, since + {other}, maxSize)
  {
    SubsetCount(since, since + {other});
    if maxSize > |since| {
      var pushed := Cache(c.order + [other], c.entries[other := entry]);
      BehindAppend(c.order, key, other);
      assert Keys(Behind(pushed.order, key)) <= since + {other};
      TrimEvictsOldest(pushed, maxSize, key);
      SubsetCount(Keys(Behind(pushed.order, key)), since + {other});
    }
  }

  /** A lookup in time does not evict the claim. */
  lemma GuardedAcrossLookup(c: Cache, ttl: Instant, maxSize: nat, key: Key, claim: CachedOutcome,
                            since: set<Key>, other: Key, now: Reading)
    requires Guarded(c, key, claim, since, maxSize)
    requires other == key ==> now - claim.firstSeen <= ttl
    ensures Guarded(Lookup(c, ttl, now, other).0, key, claim, since, maxSize)
  {
    if other != key {
      BehindWithout(c.order, key, other);
    }
  }

  const REPLAY_WINDOW_MS: Instant := (MAX_ENVELOPE_LIFETIME_MS + CLOCK_SKEW_TOLERANCE_MS) as real

  /** The window in plain arithmetic: the saturating sums of the check make no difference, and
      an envelope from the future is called that before anything else is said of it. */
  lemma WindowExactly(created: U64, expires: U64, today: U64)
    ensures CheckWindow(created, expires, today)
         == if created > today + 30_000 then FromFuture
            else if expires <= today then Expired
            else if expires - created > 600_000 then LifetimeExceedsMax
            else InWindow
  {
  }

  /** How late an envelope that has passed the window can still pass it. */
  lemma WindowCloses(e: Envelope, first: Reading, now: Reading)
    requires Passes(e, first) && Passes(e, now)
    ensures now < first + REPLAY_WINDOW_MS
  {
  }

  /** Every lookup of the envelope's key after the claim at `i` comes in time. */
  lemma LookupInTime(ttl: Instant, wait: Instant, run: seq<Timed>, e: Envelope, i: nat, n: nat)
    requires REPLAY_WINDOW_MS + wait <= ttl
    requires i < n < |run| && ClockAdvances(run) && OnlyThis(run, e, wait)
    requires run[i].op.Deliver? && run[i].op.key == e.key
    requires (run[n].op == Receive(e) && Passes(e, run[n].now)) || run[n].op == Recheck(e)
    ensures run[n].now - run[i].now <= ttl
  {
    var first :| 0 <= first < i && run[first].op == Receive(e) && Passes(e, run[first].now);
    if run[n].op.Receive? {
      WindowCloses(e, run[first].now, run[n].now);
    } else {
      assert PassedWithin(run, e, n, wait);
      var r :| 0 <= r < n && run[r].op == Receive(e) && Passes(e, run[r].now) && run[n].now <= run[r].now + wait;
      WindowCloses(e, run[first].now, run[r].now);
    }
  }

  /** The operation looks the key up. */
  predicate LooksUp(t: Timed, key: Key) {
    || (t.op.Receive? && Passes(t.op.envelope, t.now) && t.op.envelope.key == key)
    || (t.op.Recheck? && t.op.envelope.key == key)
  }

  /** What claim `i` put there is still there, or enough has been claimed since. */
  predicate Held(ttl: Instant, maxSize: nat, run: seq<Timed>, i: nat, key: Key, claim: CachedOutcome) {
    Guarded(Run(ttl, maxSize, run), key, claim, OthersClaimed(ttl, maxSize, run, i, key), maxSize)
  }

  /** A run that ends with the claim. */
  lemma HeldAtFirst(ttl: Instant, maxSize: nat, run: seq<Timed>)
    requires run != [] && ClaimedAt(ttl, maxSize, run, |run| - 1)
    ensures var n := |run| - 1; Held(ttl, maxSize, run, n, run[n].op.key, ClaimOf(run, n))
  {
    var n := |run| - 1;
    AlwaysValid(ttl, maxSize, run[..n]);
    GuardedWhenClaimed(Run(ttl, maxSize, run[..n]), maxSize, run[n].op.key, ClaimOf(run, n));
  }

  lemma GuardedAcrossStep(c: Cache, ttl: Instant, maxSize: nat, key: Key, claim: CachedOutcome, since: set<Key>,
                          t: Timed)
    requires Valid(c) && Guarded(c, key, claim, since, maxSize)
    requires LooksUp(t, key) ==> t.now - claim.firstSeen <= ttl
    ensures var other := t.op.Deliver? && t.op.key !in c.entries && t.op.key != key;
            Guarded(Step(c, ttl, maxSize, t), key, claim, since + (if other then {t.op.key} else {}), maxSize)
  {
    assert since + {} == since;
    match t.op
    case Receive(e) =>
      if Passes(e, t.now) {
        GuardedAcrossLookup(c, ttl, maxSize, key, claim, since, e.key, t.now);
      }
    case Recheck(e) => GuardedAcrossLookup(c, ttl, maxSize, key, claim, since, e.key, t.now);
    case Deliver(other, entry) =>
      if other !in c.entries && other != key {
        GuardedAcrossClaim(c, maxSize, key, claim, since, other, entry.(firstSeen := t.now));
      }
  }

  /** A claim is held through one more operation, unless that looks it up too late. */
  lemma HeldLastStep(ttl: Instant, maxSize: nat, run: seq<Timed>, key: Key, claim: CachedOutcome, i: nat)
    requires i + 1 < |run| && Held(ttl, maxSize, run[..|run| - 1], i, key, claim)
    requires LooksUp(run[|run| - 1], key) ==> run[|run| - 1].now - claim.firstSeen <= ttl
    ensures Held(ttl, maxSize, run, i, key, claim)
  {
    var n := |run| - 1;
    AlwaysValid(ttl, maxSize, run[..n]);
    var since := OthersClaimed(ttl, maxSize, run[..n], i, key);
    GuardedAcrossStep(Run(ttl, maxSize, run[..n]), ttl, maxSize, key, claim, since, run[n]);
  }

  lemma HeldNext(ttl: Instant, maxSize: nat, run: seq<Timed>, key: Key, claim: CachedOutcome, i: nat, n: nat)
    requires i + 1 < n <= |run| && Held(ttl, maxSize, run[..n - 1], i, key, claim)
    requires LooksUp(run[n - 1], key) ==> run[n - 1].now - claim.firstSeen <= ttl
    ensures Held(ttl, maxSize, run[..n], i, key, claim)
  {
    assert run[..n][..n - 1] == run[..n - 1];
    HeldLastStep(ttl, maxSize, run[..n], key, claim, i);
  }

  lemma HeldFrom(ttl: Instant, maxSize: nat, run: seq<Timed>, i: nat)
    requires i < |run| && ClaimedAt(ttl, maxSize, run, i)
    ensures Held(ttl, maxSize, run[..i + 1], i, run[i].op.key, ClaimOf(run, i))
  {
    assert run[..i + 1][..i] == run[..i];
    HeldAtFirst(ttl, maxSize, run[..i + 1]);
  }

  /** Every later lookup of the key comes within the TTL. */
  ghost predicate LookedUpInTime(ttl: Instant, run: seq<Timed>, i: nat, key: Key)
    requires i < |run|
  {
    forall k :: i < k < |run| && LooksUp(run[k], key) ==> run[k].now - run[i].now <= ttl
  }

  /** A claim whose key is always looked up in time is held for the rest of the run. */
  lemma {:induction false} HeldInRun(ttl: Instant, maxSize: nat, run: seq<Timed>, i: nat, n: nat)
    requires i < n <= |run| && ClaimedAt(ttl, maxSize, run, i) && LookedUpInTime(ttl, run, i, run[i].op.key)
    ensures Held(ttl, maxSize, run[..n], i, run[i].op.key, ClaimOf(run, i))
  {
    if n == i + 1 {
      HeldFrom(ttl, maxSize, run, i);
    } else {
      HeldInRun(ttl, maxSize, run, i, n - 1);
      HeldNext(ttl, maxSize, run, run[i].op.key, ClaimOf(run, i), i, n);
    }
  }

  /** After a claim, the key stays guarded for the rest of the run. */
  lemma GuardedInRun(ttl: Instant, maxSize: nat, wait: Instant, run: seq<Timed>, e: Envelope, i: nat, n: nat)
    requires REPLAY_WINDOW_MS + wait <= ttl
    requires i < n <= |run| && ClockAdvances(run) && OnlyThis(run, e, wait)
    requires ClaimedAt(ttl, maxSize, run, i) && run[i].op.key == e.key
    ensures Held(ttl, maxSize, run[..n], i, e.key, ClaimOf(run, i))
  {
    assert LookedUpInTime(ttl, run, i, e.key) by {
      forall k | i < k < |run| && LooksUp(run[k], e.key) ensures run[k].now - run[i].now <= ttl {
        LookupInTime(ttl, wait, run, e, i, k);
      }
    }
    HeldInRun(ttl, maxSize, run, i, n);
  }

  /** No envelope is claimed twice unless at least `maxSize` other keys were claimed in between,
      whatever is rechecked up to `wait` after its window check. */
  ghost predicate ReplaySafe(ttl: Instant, maxSize: nat, wait: Instant) {
    forall run, e, i: nat, j: nat :: DoubleClaim(ttl, maxSize, wait, run, e, i, j) ==>
      maxSize <= |OthersClaimed(ttl, maxSize, run[..j], i, e.key)|
  }

  ghost predicate DoubleClaim(ttl: Instant, maxSize: nat, wait: Instant, run: seq<Timed>, e: Envelope, i: nat, j: nat) {
    && i < j < |run| && ClockAdvances(run) && OnlyThis(run, e, wait)
    && ClaimedAt(ttl, maxSize, run, i) && run[i].op.key == e.key
    && ClaimedAt(ttl, maxSize, run, j) && run[j].op.key == e.key
  }

  lemma SafeTtl(ttl: Instant, maxSize: nat, wait: Instant, run: seq<Timed>, e: Envelope, i: nat, j: nat)
    requires REPLAY_WINDOW_MS + wait <= ttl
    requires DoubleClaim(ttl, maxSize, wait, run, e, i, j)
    ensures maxSize <= |OthersClaimed(ttl, maxSize, run[..j], i, e.key)|
  {
    GuardedInRun(ttl, maxSize, wait, run, e, i, j);
  }

  // ---------------------------------------------------------------- the replay that gets through

  /** The envelope that stays in the window longest, and what a first copy leaves behind. */
  function LongLived(key: Key): Envelope {
    Envelope(key, CLOCK_SKEW_TOLERANCE_MS, CLOCK_SKEW_TOLERANCE_MS + MAX_ENVELOPE_LIFETIME_MS)
  }

  /** A first copy received at once and completed at `done`; a replay received at `again` and
      rechecked and delivered at `late`. */
  function Replay(key: Key, done: Reading, again: Reading, late: Reading): seq<Timed> {
    var e, entry := LongLived(key), CachedOutcome(Accepted, 2, Some([]), 0.0);
    [Timed(Receive(e), 0.0), Timed(Deliver(key, entry), done),
     Timed(Receive(e), again), Timed(Recheck(e), late), Timed(Deliver(key, entry), late)]
  }

  /** If the entry has expired by the recheck, the replay is claimed again, with nothing else
      claimed in between. */
  lemma ReplayClaimedAgain(ttl: Instant, maxSize: nat, wait: Instant, key: Key, done: Reading, again: Reading,
                           late: Reading)
    requires maxSize > 0 && done <= again < REPLAY_WINDOW_MS && again <= late <= again + wait && late - done > ttl
    ensures DoubleClaim(ttl, maxSize, wait, Replay(key, done, again, late), LongLived(key), 1, 4)
    ensures OthersClaimed(ttl, maxSize, Replay(key, done, again, late)[..4], 1, key) == {}
  {
    var run, e := Replay(key, done, again, late), LongLived(key);
    assert Passes(e, 0.0) && Passes(e, again);
    ReplayStates(ttl, maxSize, key, done, again, late);
    assert run[0].op == Receive(e) && run[2].op == Receive(e);
    assert PassedBefore(run, e, 1) && PassedBefore(run, e, 4);
    assert PassedWithin(run, e, 3, wait);
    NoOtherClaimed(ttl, maxSize, key, done, again, late);
  }

  lemma ReplayStates(ttl: Instant, maxSize: nat, key: Key, done: Reading, again: Reading, late: Reading)
    requires maxSize > 0 && again < REPLAY_WINDOW_MS && late - done > ttl
    ensures var run := Replay(key, done, again, late);
            && key !in Run(ttl, maxSize, run[..1]).entries && key !in Run(ttl, maxSize, run[..4]).entries
            && Run(ttl, maxSize, run[..2]) == Cache([key], map[key := CachedOutcome(Accepted, 2, Some([]), done)])
  {
    var run, e := Replay(key, done, again, late), LongLived(key);
    var entry := CachedOutcome(Accepted, 2, Some([]), done);
    var claimed := Cache([key], map[key := entry]);
    assert run[..1][..0] == [] && run[..2][..1] == run[..1] && run[..3][..2] == run[..2] && run[..4][..3] == run[..3];
    assert Run(ttl, maxSize, run[..1]) == Cache([], map[]);
    assert Run(ttl, maxSize, run[..2]) == claimed by {
      assert [] + [key] == [key] && Trim(claimed, maxSize) == claimed;
    }
    var c3 := Run(ttl, maxSize, run[..3]);
    assert c3 == claimed || key !in c3.entries;
  }

  lemma NoOtherClaimed(ttl: Instant, maxSize: nat, key: Key, done: Reading, again: Reading, late: Reading)
    ensures OthersClaimed(ttl, maxSize, Replay(key, done, again, late)[..4], 1, key) == {}
  {
    var run := Replay(key, done, again, late);
    assert run[..4][..3] == run[..3] && run[..3][..2] == run[..2];
    assert OthersClaimed(ttl, maxSize, run[..2], 1, key) == {};
    assert OthersClaimed(ttl, maxSize, run[..3], 1, key) == {};
  }

  /** With a shorter TTL there is such a replay. */
  lemma ShortTtl(ttl: Instant, maxSize: nat, wait: Instant)
    requires ttl < REPLAY_WINDOW_MS + wait && ttl < U64_MAX as real && maxSize > 0
    ensures !ReplaySafe(ttl, maxSize, wait)
  {
    var room := Earlier(REPLAY_WINDOW_MS + wait, U64_MAX as real) - ttl;
    var late: Reading := ttl + room / 2.0;
    var again: Reading := Later(late - wait, 0.0);
    ReplayClaimedAgain(ttl, maxSize, wait, Key(0, 0), 0.0, again, late);
  }

  /** The cache absorbs every replay the timestamp window lets through if and only if its TTL
      reaches the envelope lifetime plus the tolerated skew plus the longest time from a window
      check to the last lookup that goes with it. */
  lemma ReplaySafeExactly(ttl: Instant, maxSize: nat, wait: Instant)
    requires maxSize > 0 && ttl < U64_MAX as real
    ensures ReplaySafe(ttl, maxSize, wait) <==> REPLAY_WINDOW_MS + wait <= ttl
  {
    if REPLAY_WINDOW_MS + wait <= ttl {
      forall run, e, i: nat, j: nat | DoubleClaim(ttl, maxSize, wait, run, e, i, j)
        ensures maxSize <= |OthersClaimed(ttl, maxSize, run[..j], i, e.key)|
      {
        SafeTtl(ttl, maxSize, wait, run, e, i, j);
      }
    } else {
      ShortTtl(ttl, maxSize, wait);
    }
  }

  /** The default TTL leaves no room for a wait: the default cache is replay safe exactly when
      every lookup comes at the instant of its window check. */
  lemma DefaultCacheToleratesNoWait(wait: Instant)
    ensures ReplaySafe(DEFAULT_TTL_MS, DEFAULT_MAX_SIZE, wait) <==> wait == 0.0
  {
    ReplaySafeExactly(DEFAULT_TTL_MS, DEFAULT_MAX_SIZE, wait);
  }

  /** A durable message completed after 5 ms and replayed in the last millisecond of its window:
      the first lookup finds the completion, the one under the lock 7 ms later does not, and the
      message is delivered again. */
  lemma DurableReplay(key: Key)
    ensures var run := Replay(key, 5.0, 629_999.0, 630_006.0);
            && Lookup(Run(DEFAULT_TTL_MS, DEFAULT_MAX_SIZE, run[..2]), DEFAULT_TTL_MS, 629_999.0, key).1.Some?
            && DoubleClaim(DEFAULT_TTL_MS, DEFAULT_MAX_SIZE, 7.0, run, LongLived(key), 1, 4)
            && OthersClaimed(DEFAULT_TTL_MS, DEFAULT_MAX_SIZE, run[..4], 1, key) == {}
  {
    ReplayClaimedAgain(DEFAULT_TTL_MS, DEFAULT_MAX_SIZE, 7.0, key, 5.0, 629_999.0, 630_006.0);
    ReplayStates(DEFAULT_TTL_MS, DEFAULT_MAX_SIZE, key, 5.0, 629_999.0, 630_006.0);
  }
}
