/** What a lookup in the recent-delivery cache tells, over every run up to now: whatever it finds
    was delivered as found, and whatever it misses is too old or was pushed out. */
module DeliveryLookups {
  import opened Bytes
  import opened Clock
  import opened DeliveryCache

  /** Nothing in the run is later than now. */
  ghost predicate Until(run: seq<Timed>, now: Reading) {
    forall i :: 0 <= i < |run| ==> run[i].now <= now
  }

  // ---------------------------------------------------------------- what is found was claimed

  lemma {:induction false} TrimInventsNothing(c: Cache, maxSize: nat, key: Key)
    requires key in Trim(c, maxSize).entries
    ensures key in c.entries && Trim(c, maxSize).entries[key] == c.entries[key]
    decreases |c.order|
  {
    if |c.entries| > maxSize && c.order != [] {
      TrimInventsNothing(Cache(c.order[1..], c.entries - {c.order[0]}), maxSize, key);
    }
  }

  /** Every entry is what some claim of its key put there. */
  lemma {:induction false} EntryWasClaimed(ttl: Instant, maxSize: nat, run: seq<Timed>, key: Key) returns (i: nat)
    requires key in Run(ttl, maxSize, run).entries
    ensures i < |run| && ClaimedAt(ttl, maxSize, run, i) && run[i].op.key == key
    ensures Run(ttl, maxSize, run).entries[key] == ClaimOf(run, i)
  {
    var n := |run| - 1;
    var c := Run(ttl, maxSize, run[..n]);
    if run[n].op.Deliver? && run[n].op.key !in c.entries {
      TrimInventsNothing(Cache(c.order + [run[n].op.key], c.entries[run[n].op.key := ClaimOf(run, n)]), maxSize, key);
    }
    if key in c.entries {
      i := EntryWasClaimed(ttl, maxSize, run[..n], key);
      assert run[..n][..i] == run[..i];
    } else {
      i := n;
    }
  }

  /** A lookup that finds something finds what a claim of that key put there, outcome, protocol
      version, binding and time, at most a TTL ago. And it does find the claim made at most a
      TTL ago, unless at least `maxSize` other keys were claimed since. */
  lemma LookupTellsTheTruth(ttl: Instant, maxSize: nat, run: seq<Timed>, now: Reading, key: Key)
    requires Until(run, now)
    ensures var found := Lookup(Run(ttl, maxSize, run), ttl, now, key).1;
            && (found.Some? ==>
                  exists i: nat ::
                    && i < |run| && ClaimedAt(ttl, maxSize, run, i) && run[i].op.key == key
                    && found.value == CachedOutcome(run[i].op.entry.outcome, run[i].op.entry.protocolVersion,
                                                    run[i].op.entry.durableBinding, run[i].now)
                    && now <= run[i].now + ttl)
            && (forall i: nat ::
                  i < |run| && ClaimedAt(ttl, maxSize, run, i) && run[i].op.key == key && now <= run[i].now + ttl ==>
                    || found == Some(ClaimOf(run, i))
                    || maxSize <= |OthersClaimed(ttl, maxSize, run, i, key)|)
  {
    if Lookup(Run(ttl, maxSize, run), ttl, now, key).1.Some? {
      var i := EntryWasClaimed(ttl, maxSize, run, key);
    }
    forall i: nat | i < |run| && ClaimedAt(ttl, maxSize, run, i) && run[i].op.key == key && now <= run[i].now + ttl
      ensures || Lookup(Run(ttl, maxSize, run), ttl, now, key).1 == Some(ClaimOf(run, i))
              || maxSize <= |OthersClaimed(ttl, maxSize, run, i, key)|
    {
      HeldInRun(ttl, maxSize, run, i, |run|);
      assert run[..|run|] == run;
    }
  }
}
