/** The bounded diagnostic listing (`src/dm_digest_diagnostics.rs`): each store is scanned
    into at most 512 rows, and joining the two truncated row sets is as good as having
    looked at everything. Agent ids are the numbers their bytes spell; the order of a
    `BTreeSet` of ids is the order of the numbers (`ListingIsByBytes`). */
module DigestDiagnostics {
  import opened Bytes
  import opened CapabilityStore

  const MAX_PER_PEER_ROWS: nat := 512

  /** `t` is what an unbounded ordered set of `s` would list first, `n` ids at most. */
  ghost predicate IsLowest(t: set<Id>, s: set<Id>, n: nat) {
    t <= s && |t| == Min(n, |s|) && forall x <- t, y <- s :: y !in t ==> x < y
  }

  lemma {:induction false} SubsetCount(a: set<Id>, b: set<Id>)
    requires a <= b
    ensures |a| <= |b| && (|a| == |b| ==> a == b)
  {
    if a != b {
      var x :| x in b && x !in a;
      SubsetCount(a, b - {x});
    }
  }

  /** There is only one such listing, whatever the order of the scan. */
  lemma LowestUnique(t: set<Id>, u: set<Id>, s: set<Id>, n: nat)
    requires IsLowest(t, s, n) && IsLowest(u, s, n)
    ensures t == u
  {
    if t <= u {
      SubsetCount(t, u);
    } else if u <= t {
      SubsetCount(u, t);
    } else {
      assert false;
    }
  }

  lemma {:induction false} MaxExists(keys: set<Id>) returns (last: Id)
    requires keys != {}
    ensures last in keys && forall x <- keys :: x <= last
  {
    last :| last in keys;
    if keys != {last} {
      var rest := keys - {last};
      assert rest == {} ==> keys == {last};
      var other := MaxExists(rest);
      assert keys == rest + {last};
      if last < other {
        last := other;
      }
    }
  }

  /** A full listing meets a key below its last one. */
  lemma ReplaceLast(keys: set<Id>, s: set<Id>, key: Id, last: Id)
    requires IsLowest(keys, s, MAX_PER_PEER_ROWS) && |keys| == MAX_PER_PEER_ROWS
    requires key !in keys && last in keys && (forall x <- keys :: x <= last) && key < last
    ensures IsLowest(keys - {last} + {key}, s + {key}, MAX_PER_PEER_ROWS)
  {
  }

  /** A full listing meets a key above its last one. */
  lemma KeepFull(keys: set<Id>, s: set<Id>, key: Id, last: Id)
    requires IsLowest(keys, s, MAX_PER_PEER_ROWS) && |keys| == MAX_PER_PEER_ROWS
    requires (forall x <- keys :: x <= last) && last < key
    ensures IsLowest(keys, s + {key}, MAX_PER_PEER_ROWS)
  {
    SubsetCount(keys, s + {key});
  }

  lemma Grow(keys: set<Id>, s: set<Id>, key: Id)
    requires IsLowest(keys, s, MAX_PER_PEER_ROWS) && |keys| < MAX_PER_PEER_ROWS
    ensures IsLowest(keys + {key}, s + {key}, MAX_PER_PEER_ROWS)
  {
    SubsetCount(keys, s);
    assert keys == s;
    SubsetCount(keys, keys + {key});
    if key in keys {
      assert keys + {key} == keys;
    }
  }

  /** What a scan that has come across `seen` lists: without a filter the lowest of them,
      with one the wanted agent if it was among them. */
  ghost predicate Lists(keys: set<Id>, seen: set<Id>, filter: Option<Id>) {
    if filter.None? then IsLowest(keys, seen, MAX_PER_PEER_ROWS) else keys == seen * {filter.value}
  }

  /** What `select_key` makes of a listing, given the last key of a full one. */
  lemma SelectListed(keys: set<Id>, seen: set<Id>, key: Id, filter: Option<Id>, last: Id)
    requires Lists(keys, seen, filter) && !(filter.Some? && filter.value != key) && key !in keys
    requires |keys| == MAX_PER_PEER_ROWS ==> last in keys && forall x <- keys :: x <= last
    ensures Lists(if |keys| < MAX_PER_PEER_ROWS then keys + {key}
                  else if key >= last then keys else keys - {last} + {key},
                  seen + {key}, filter)
  {
    if filter.Some? {
      SubsetCount(keys, {filter.value});
    } else if |keys| < MAX_PER_PEER_ROWS {
      Grow(keys, seen, key);
    } else if key >= last {
      KeepFull(keys, seen, key, last);
    } else {
      ReplaceLast(keys, seen, key, last);
    }
  }

  /** `select_key`: whatever was scanned before, one more key makes the listing that of one more key. */
  method SelectKey(keys: set<Id>, key: Id, filter: Option<Id>) returns (r: set<Id>)
    ensures forall seen {:trigger Lists(keys, seen, filter)} :: Lists(keys, seen, filter) ==>
              Lists(r, seen + {key}, filter)
  {
    if (filter.Some? && filter.value != key) || key in keys {
      forall seen | Lists(keys, seen, filter) ensures Lists(keys, seen + {key}, filter) {
        if filter.None? || key in keys {
          assert seen + {key} == seen;
        }
      }
      return keys;
    }
    r := keys;
    var last := key;
    if |keys| == MAX_PER_PEER_ROWS {
      ghost var greatest := MaxExists(keys);
      last :| last in keys && forall x <- keys :: x <= last;
    }
    forall seen | Lists(keys, seen, filter)
      ensures Lists(if |keys| < MAX_PER_PEER_ROWS then keys + {key}
                    else if key >= last then keys else keys - {last} + {key},
                    seen + {key}, filter)
    {
      AtMostFull(keys, seen, filter);
      SelectListed(keys, seen, key, filter, last);
    }
    if |keys| == MAX_PER_PEER_ROWS {
      if key >= last {
        return;
      }
      r := r - {last};
    }
    r := r + {key};
  }

  lemma AtMostFull(keys: set<Id>, seen: set<Id>, filter: Option<Id>)
    requires Lists(keys, seen, filter)
    ensures |keys| <= MAX_PER_PEER_ROWS
  {
    if filter.Some? {
      SubsetCount(keys, {filter.value});
    }
  }

  /** Scan a set of keys, in whatever order, into a listing. */
  method Scan(start: set<Id>, keys: set<Id>, filter: Option<Id>, ghost before: set<Id>) returns (r: set<Id>)
    requires Lists(start, before, filter)
    ensures Lists(r, before + keys, filter)
  {
    r := start;
    var rest := keys;
    ghost var seen := before;
    while rest != {}
      invariant rest <= keys && seen == before + (keys - rest)
      invariant Lists(r, seen, filter)
      decreases |rest|
    {
      var key :| key in rest;
      SeeKey(seen, key, before, keys, rest);
      r := SelectKey(r, key, filter);
      seen := seen + {key};
      rest := rest - {key};
    }
    assert seen == before + keys;
  }

  // ---------------------------------------------------------------- the two stores

  /** What one store contributes: nothing at all when it is unavailable. */
  datatype Snapshot = Snapshot(totals: Option<nat>, rows: set<Id>)

  /** A snapshot of a store that retains records of exactly these agents. */
  ghost predicate Samples(snap: Snapshot, retained: set<Id>) {
    snap.totals == Some(|retained|) && IsLowest(snap.rows, retained, MAX_PER_PEER_ROWS)
  }

  /** The second loop of the capability scan: extensions, counting the agents not seen yet. */
  method ScanExtensions(start: set<Id>, adverts: set<Id>, extensions: set<Id>, filter: Option<Id>)
    returns (keys: set<Id>, distinct: nat)
    requires Lists(start, adverts, filter)
    ensures distinct == |adverts + extensions| && Lists(keys, adverts + extensions, filter)
  {
    keys, distinct := start, |adverts|;
    var rest := extensions;
    ghost var seen := adverts;
    while rest != {}
      invariant rest <= extensions && seen == adverts + (extensions - rest)
      invariant distinct == |seen| && Lists(keys, seen, filter)
      decreases |rest|
    {
      var key :| key in rest;
      SeeKey(seen, key, adverts, extensions, rest);
      if key !in adverts {
        distinct := distinct + 1;
      }
      keys := SelectKey(keys, key, filter);
      seen := seen + {key};
      rest := rest - {key};
    }
    assert seen == adverts + extensions;
  }

  /** `CapabilityStore::digest_diagnostic_snapshot`: keys and the count of distinct agents. */
  method SnapshotCapabilities(st: Store, filter: Option<Id>) returns (snap: Snapshot)
    ensures snap.totals == Some(|st.adverts.Keys + st.extensions.Keys|)
    ensures Lists(snap.rows, st.adverts.Keys + st.extensions.Keys, filter)
  {
    var keys := Scan({}, st.adverts.Keys, filter, {});
    assert {} + st.adverts.Keys == st.adverts.Keys;
    var distinct;
    keys, distinct := ScanExtensions(keys, st.adverts.Keys, st.extensions.Keys, filter);
    snap := Snapshot(Some(distinct), keys);
  }

  /** Scanning one more key adds it to the agents seen, and to their number unless the first store had it. */
  lemma SeeKey(seen: set<Id>, key: Id, before: set<Id>, keys: set<Id>, rest: set<Id>)
    requires rest <= keys && key in rest && seen == before + (keys - rest)
    ensures seen + {key} == before + (keys - (rest - {key}))
    ensures |seen + {key}| == |seen| + (if key in before then 0 else 1)
  {
    if key in before {
      assert seen + {key} == seen;
    }
  }

  /** `PeerRelay::digest_diagnostic_snapshot` over the agents seen with a v2 baseline. */
  method SnapshotRelay(seen: set<Id>, filter: Option<Id>) returns (snap: Snapshot)
    ensures snap.totals == Some(|seen|) && Lists(snap.rows, seen, filter)
  {
    var keys := Scan({}, seen, filter, {});
    assert {} + seen == seen;
    snap := Snapshot(Some(|seen|), keys);
  }

  /** Some agent counted by the store is not listed. */
  predicate Missing(snap: Snapshot, keys: set<Id>) {
    snap.totals.Some? && snap.totals.value > |keys * snap.rows|
  }

  /** `join_snapshots`: which agents are listed and whether the listing is marked truncated. */
  method JoinSnapshots(capability: Snapshot, baseline: Snapshot, agent: Option<Id>)
    returns (keys: set<Id>, truncated: bool)
    ensures agent.None? ==> IsLowest(keys, capability.rows + baseline.rows, MAX_PER_PEER_ROWS)
    ensures agent.None? ==> truncated == (Missing(capability, keys) || Missing(baseline, keys))
    ensures agent.Some? ==> keys == {agent.value} && !truncated
  {
    keys := Scan({}, capability.rows, agent, {});
    assert {} + capability.rows == capability.rows;
    keys := Scan(keys, baseline.rows, agent, capability.rows);
    if agent.Some? {
      keys := keys + {agent.value};
    }
    truncated := agent.None? && (Missing(capability, keys) || Missing(baseline, keys));
  }

  // ---------------------------------------------------------------- the join is exact

  /** The lowest of two truncated listings are the lowest of everything. */
  lemma LowestOfLowest(t1: set<Id>, s1: set<Id>, t2: set<Id>, s2: set<Id>, k: set<Id>, n: nat)
    requires IsLowest(t1, s1, n) && IsLowest(t2, s2, n) && IsLowest(k, t1 + t2, n)
    ensures IsLowest(k, s1 + s2, n)
  {
    SubsetCount(t1, t1 + t2);
    SubsetCount(t2, t1 + t2);
    SubsetCount(t1 + t2, s1 + s2);
    SubsetCount(t1, s1);
    SubsetCount(t2, s2);
    forall x <- k, y <- s1 + s2 | y !in k ensures x < y {
      if y !in t1 + t2 {
        if y in s1 {
          BelowDropped(t1, s1, t1 + t2, k, n, x, y);
        } else {
          BelowDropped(t2, s2, t1 + t2, k, n, x, y);
        }
      }
    }
  }

  /** An id its own store's listing dropped is above everything the join lists. */
  lemma BelowDropped(t: set<Id>, s: set<Id>, both: set<Id>, k: set<Id>, n: nat, x: Id, y: Id)
    requires IsLowest(t, s, n) && t <= both && IsLowest(k, both, n)
    requires x in k && y in s && y !in t
    ensures x < y
  {
    SubsetCount(t, s);
    assert |t| == n;
    if x >= y {
      assert t <= k;
      SubsetCount(t, k);
    }
  }

  /** The truncation test counts ids, and the counts agree exactly when every id is listed. */
  lemma NotMissingExactly(snap: Snapshot, retained: set<Id>, keys: set<Id>)
    requires Samples(snap, retained) && |keys| <= MAX_PER_PEER_ROWS
    ensures !Missing(snap, keys) <==> retained <= keys
  {
    SubsetCount(keys * snap.rows, snap.rows);
    SubsetCount(snap.rows, retained);
    if retained <= keys {
      SubsetCount(retained, keys);
      assert keys * snap.rows == retained;
    }
  }

  /** The whole diagnostic over a capability store and a relay: it lists exactly the 512
      lowest agent ids of everything retained in either, and says so truthfully. */
  method Diagnose(st: Store, seen: set<Id>) returns (keys: set<Id>, truncated: bool)
    ensures IsLowest(keys, st.adverts.Keys + st.extensions.Keys + seen, 512)
    ensures truncated <==> !(st.adverts.Keys + st.extensions.Keys + seen <= keys)
  {
    var capability := SnapshotCapabilities(st, None);
    var baseline := SnapshotRelay(seen, None);
    keys, truncated := JoinSnapshots(capability, baseline, None);
    ghost var retained := st.adverts.Keys + st.extensions.Keys;
    LowestOfLowest(capability.rows, retained, baseline.rows, seen, keys, MAX_PER_PEER_ROWS);
    NotMissingExactly(capability, retained, keys);
    NotMissingExactly(baseline, seen, keys);
  }

  // ---------------------------------------------------------------- ids as byte arrays

  /** The ids of these 32-byte arrays. */
  function Numbers(s: set<Bytes>): set<Id> {
    set x <- s :: FromBigEndian(x)
  }

  ghost predicate AgentIds(s: set<Bytes>) {
    forall x <- s :: |x| == 32
  }

  /** `t` is what a `BTreeSet` of the arrays would list first, `n` at most. */
  ghost predicate ListedFirst(t: set<Bytes>, s: set<Bytes>, n: nat)
    requires AgentIds(s)
  {
    t <= s && |t| == Min(n, |s|) && forall x <- t, y <- s :: y !in t ==> Precedes(x, y)
  }

  lemma {:induction false} NumbersCount(s: set<Bytes>)
    requires AgentIds(s)
    ensures |Numbers(s)| == |s|
  {
    if s != {} {
      var x :| x in s;
      NumbersCount(s - {x});
      forall y <- s - {x} ensures FromBigEndian(y) != FromBigEndian(x) {
        if FromBigEndian(y) == FromBigEndian(x) {
          FromBigEndianInjective(y, x);
        }
      }
      assert Numbers(s) == Numbers(s - {x}) + {FromBigEndian(x)};
    }
  }

  lemma NumbersMember(x: Bytes, s: set<Bytes>)
    requires AgentIds(s) && |x| == 32
    ensures FromBigEndian(x) in Numbers(s) <==> x in s
  {
    if FromBigEndian(x) in Numbers(s) {
      var y :| y in s && FromBigEndian(y) == FromBigEndian(x);
      FromBigEndianInjective(x, y);
    }
  }

  /** Listing the numbers is listing the byte arrays in their own order. */
  lemma ListingIsByBytes(t: set<Bytes>, s: set<Bytes>, n: nat)
    requires AgentIds(s) && t <= s
    ensures ListedFirst(t, s, n) <==> IsLowest(Numbers(t), Numbers(s), n)
  {
    NumbersCount(t);
    NumbersCount(s);
    forall x <- t, y <- s
      ensures (y !in t ==> Precedes(x, y)) <==>
              (FromBigEndian(y) !in Numbers(t) ==> FromBigEndian(x) < FromBigEndian(y))
    {
      NumbersMember(y, t);
      BigEndianOrder(x, y);
    }
  }
}
