/** The announce-blob cache of `src/announce_blob.rs`: a map, a vector of access records and
    a counter, against the recency list they are meant to implement. */
module BlobCache {
  import opened Bytes

  const BLOB_CACHE_MAX_ENTRIES: nat := 256

  type Digest = nat

  /** `CachedBlob`, by its digest and what it carries. */
  datatype Blob = Blob(digest: Digest, payload: Bytes)

  datatype LruEntry = LruEntry(digest: Digest, counter: nat)

  datatype Cache = Cache(blobs: map<Digest, Blob>, lru: seq<LruEntry>, counter: nat)

  const EmptyCache := Cache(map[], [], 0)

  // ---------------------------------------------------------------- operations

  /** `touch_lru`: stamp the record of the digest, or add one. */
  function Stamp(lru: seq<LruEntry>, d: Digest, counter: nat): seq<LruEntry> {
    if lru == [] then [LruEntry(d, counter)]
    else if lru[0].digest == d then [LruEntry(d, counter)] + lru[1..]
    else [lru[0]] + Stamp(lru[1..], d, counter)
  }

  function Touch(c: Cache, d: Digest): Cache {
    c.(lru := Stamp(c.lru, d, c.counter), counter := c.counter + 1)
  }

  /** `lru.retain(...)`: records of blobs that are there. */
  function Retain(lru: seq<LruEntry>, blobs: map<Digest, Blob>): seq<LruEntry> {
    if lru == [] then []
    else if lru[0].digest in blobs then [lru[0]] + Retain(lru[1..], blobs)
    else Retain(lru[1..], blobs)
  }

  function InsertSorted(e: LruEntry, s: seq<LruEntry>): seq<LruEntry> {
    if s == [] || e.counter <= s[0].counter then [e] + s else [s[0]] + InsertSorted(e, s[1..])
  }

  /** `lru.sort_by_key(...)` */
  function SortByCounter(lru: seq<LruEntry>): seq<LruEntry> {
    if lru == [] then [] else InsertSorted(lru[0], SortByCounter(lru[1..]))
  }

  /** Drop the blobs of the first records until the map fits. */
  function Evict(blobs: map<Digest, Blob>, lru: seq<LruEntry>): (map<Digest, Blob>, seq<LruEntry>)
    decreases |lru|
  {
    if |blobs| > BLOB_CACHE_MAX_ENTRIES && lru != []
    then Evict(blobs - {lru[0].digest}, lru[1..])
    else (blobs, lru)
  }

  /** `get` */
  function Get(c: Cache, d: Digest): (Cache, Option<Blob>) {
    if d in c.blobs then (Touch(c, d), Some(c.blobs[d])) else (c, None)
  }

  /** `insert_verified` */
  function Insert(c: Cache, b: Blob): Cache {
    var blobs := c.blobs[b.digest := b];
    if |blobs| > BLOB_CACHE_MAX_ENTRIES then
      var (kept, lru) := Evict(blobs, SortByCounter(Retain(c.lru, blobs)));
      Touch(Cache(kept, lru, c.counter), b.digest)
    else
      Touch(c.(blobs := blobs), b.digest)
  }

  /** `load_from_disk`: at most 256 blobs, and no access records. */
  function Load(disk: seq<Blob>): Cache {
    Cache(LoadBlobs(if |disk| <= BLOB_CACHE_MAX_ENTRIES then disk else disk[..BLOB_CACHE_MAX_ENTRIES]), [], 0)
  }

  function LoadBlobs(disk: seq<Blob>): map<Digest, Blob> {
    if disk == [] then map[] else LoadBlobs(disk[..|disk| - 1])[disk[|disk| - 1].digest := disk[|disk| - 1]]
  }

  /** Stamping by position: at the first record of the digest, or past the end. */
  lemma {:induction false} StampAt(lru: seq<LruEntry>, d: Digest, counter: nat, at: nat)
    requires at <= |lru| && (forall i :: 0 <= i < at ==> lru[i].digest != d) && (at < |lru| ==> lru[at].digest == d)
    ensures Stamp(lru, d, counter)
         == if at < |lru| then lru[at := LruEntry(d, counter)] else lru + [LruEntry(d, counter)]
  {
    if at > 0 {
      StampAt(lru[1..], d, counter, at - 1);
    }
  }

  class AnnounceBlobCache {
    var blobs: map<Digest, Blob>
    var lru: seq<LruEntry>
    var accessCounter: nat

    function View(): Cache
      reads this
    {
      Cache(blobs, lru, accessCounter)
    }

    constructor (disk: seq<Blob>)
      ensures View() == Load(disk)
    {
      blobs, lru, accessCounter := map[], [], 0;
      new;
      var taken := if |disk| <= BLOB_CACHE_MAX_ENTRIES then disk else disk[..BLOB_CACHE_MAX_ENTRIES];
      for i := 0 to |taken|
        invariant blobs == LoadBlobs(taken[..i]) && lru == [] && accessCounter == 0
      {
        assert taken[..i + 1][..i] == taken[..i];
        blobs := blobs[taken[i].digest := taken[i]];
      }
      assert taken[..|taken|] == taken;
    }

    method TouchLru(d: Digest)
      modifies this`lru, this`accessCounter
      ensures View() == Touch(old(View()), d)
    {
      var counter := accessCounter;
      accessCounter := accessCounter + 1;
      var at := 0;
      while at < |lru| && lru[at].digest != d
        invariant at <= |lru| && forall i :: 0 <= i < at ==> lru[i].digest != d
      {
        at := at + 1;
      }
      StampAt(lru, d, counter, at);
      if at < |lru| {
        lru := lru[at := LruEntry(d, counter)];
      } else {
        lru := lru + [LruEntry(d, counter)];
      }
    }

    method GetBlob(d: Digest) returns (hit: Option<Blob>)
      modifies this`lru, this`accessCounter
      ensures (View(), hit) == Get(old(View()), d)
    {
      if d in blobs {
        hit := Some(blobs[d]);
        TouchLru(d);
      } else {
        hit := None;
      }
    }

    method InsertVerified(b: Blob)
      modifies this
      ensures View() == Insert(old(View()), b)
    {
      blobs := blobs[b.digest := b];
      if |blobs| > BLOB_CACHE_MAX_ENTRIES {
        lru := SortByCounter(Retain(lru, blobs));
        ghost var target := Evict(blobs, lru);
        while |blobs| > BLOB_CACHE_MAX_ENTRIES && lru != []
          invariant Evict(blobs, lru) == target && accessCounter == old(accessCounter)
          decreases |lru|
        {
          var evicted := lru[0];
          lru := lru[1..];
          blobs := blobs - {evicted.digest};
        }
      }
      TouchLru(b.digest);
    }
  }

  // ---------------------------------------------------------------- runs

  datatype Action = GetIt(digest: Digest) | InsertIt(blob: Blob)

  function Step(c: Cache, a: Action): Cache {
    match a
    case GetIt(d) => Get(c, d).0
    case InsertIt(b) => Insert(c, b)
  }

  function Run(start: Cache, run: seq<Action>): Cache {
    if run == [] then start else Step(Run(start, run[..|run| - 1]), run[|run| - 1])
  }

  /** The object goes through a run as the runs of the values do. */
  method Execute(disk: seq<Blob>, run: seq<Action>) returns (cache: AnnounceBlobCache)
    ensures fresh(cache) && cache.View() == Run(Load(disk), run)
  {
    cache := new AnnounceBlobCache(disk);
    for i := 0 to |run|
      invariant fresh(cache) && cache.View() == Run(Load(disk), run[..i])
    {
      assert run[..i + 1][..i] == run[..i];
      match run[i] {
        case GetIt(d) => var _ := cache.GetBlob(d);
        case InsertIt(b) => cache.InsertVerified(b);
      }
    }
    assert run[..|run|] == run;
  }

  // ---------------------------------------------------------------- records

  /** No digest has two records. */
  ghost predicate Distinct(lru: seq<LruEntry>) {
    forall i, j :: 0 <= i < j < |lru| ==> lru[i].digest != lru[j].digest
  }

  function Recorded(lru: seq<LruEntry>): set<Digest> {
    set e <- lru :: e.digest
  }

  ghost predicate SameRecords(s: seq<LruEntry>, t: seq<LruEntry>) {
    forall e :: e in s <==> e in t
  }

  ghost predicate Ascending(s: seq<LruEntry>) {
    forall i, j :: 0 <= i < j < |s| ==> s[i].counter <= s[j].counter
  }

  /** A record in front of others. */
  lemma ConsFacts(e: LruEntry, s: seq<LruEntry>)
    requires Distinct(s) && e.digest !in Recorded(s)
    ensures Distinct([e] + s) && Recorded([e] + s) == {e.digest} + Recorded(s)
    ensures forall x :: x in [e] + s <==> x == e || x in s
  {
  }

  lemma UnconsFacts(s: seq<LruEntry>)
    requires Distinct(s) && s != []
    ensures s == [s[0]] + s[1..] && Distinct(s[1..]) && s[0].digest !in Recorded(s[1..])
    ensures Recorded(s) == {s[0].digest} + Recorded(s[1..])
    ensures forall x :: x in s <==> x == s[0] || x in s[1..]
  {
  }

  lemma {:induction false} InsertSortedRecords(e: LruEntry, s: seq<LruEntry>)
    requires Distinct(s) && e.digest !in Recorded(s)
    ensures var r := InsertSorted(e, s);
            && Distinct(r) && |r| == |s| + 1 && Recorded(r) == Recorded(s) + {e.digest}
            && forall x :: x in r <==> x == e || x in s
  {
    if s != [] && e.counter > s[0].counter {
      UnconsFacts(s);
      InsertSortedRecords(e, s[1..]);
      ConsFacts(s[0], InsertSorted(e, s[1..]));
    } else {
      ConsFacts(e, s);
    }
  }

  lemma {:induction false} InsertSortedAscending(e: LruEntry, s: seq<LruEntry>)
    requires Ascending(s)
    ensures Ascending(InsertSorted(e, s))
    ensures forall x <- InsertSorted(e, s) :: x == e || x in s
  {
    if s != [] && e.counter > s[0].counter {
      InsertSortedAscending(e, s[1..]);
      assert forall x <- InsertSorted(e, s[1..]) :: s[0].counter <= x.counter;
    } else {
      assert forall x <- s :: e.counter <= x.counter;
    }
  }

  lemma {:induction false} SortFacts(lru: seq<LruEntry>)
    requires Distinct(lru)
    ensures var r := SortByCounter(lru);
            Ascending(r) && Distinct(r) && |r| == |lru| && SameRecords(r, lru) && Recorded(r) == Recorded(lru)
  {
    if lru != [] {
      UnconsFacts(lru);
      SortFacts(lru[1..]);
      InsertSortedRecords(lru[0], SortByCounter(lru[1..]));
      InsertSortedAscending(lru[0], SortByCounter(lru[1..]));
    }
  }

  lemma {:induction false} RetainFacts(lru: seq<LruEntry>, blobs: map<Digest, Blob>)
    requires Distinct(lru)
    ensures var r := Retain(lru, blobs);
            && Distinct(r) && Recorded(r) == Recorded(lru) * blobs.Keys
            && (Recorded(lru) <= blobs.Keys ==> r == lru) && (forall x <- r :: x in lru)
  {
    if lru != [] {
      UnconsFacts(lru);
      RetainFacts(lru[1..], blobs);
      if lru[0].digest in blobs {
        ConsFacts(lru[0], Retain(lru[1..], blobs));
      }
    }
  }

  lemma {:induction false} StampFacts(lru: seq<LruEntry>, d: Digest, counter: nat)
    requires Distinct(lru)
    ensures var r := Stamp(lru, d, counter);
            && Distinct(r) && Recorded(r) == Recorded(lru) + {d}
            && forall x :: x in r <==> x == LruEntry(d, counter) || (x in lru && x.digest != d)
  {
    if lru == [] {
      ConsFacts(LruEntry(d, counter), []);
      assert [LruEntry(d, counter)] + [] == [LruEntry(d, counter)];
    } else {
      UnconsFacts(lru);
      if lru[0].digest != d {
        StampFacts(lru[1..], d, counter);
        ConsFacts(lru[0], Stamp(lru[1..], d, counter));
      } else {
        ConsFacts(LruEntry(d, counter), lru[1..]);
        forall x | x in lru[1..] ensures x.digest != d {
          assert x.digest in Recorded(lru[1..]);
        }
      }
    }
  }

  /** How many blobs the eviction loop drops: as many as are over, or as many as have a record. */
  function Dropped(blobs: map<Digest, Blob>, lru: seq<LruEntry>): (k: nat)
    ensures k <= |lru|
  {
    Min(Max(|blobs| - BLOB_CACHE_MAX_ENTRIES, 0), |lru|)
  }

  /** The blobs of the first `k` records and these records are gone, nothing else. */
  ghost predicate Evicted(blobs: map<Digest, Blob>, lru: seq<LruEntry>, kept: map<Digest, Blob>, left: seq<LruEntry>,
                          k: nat)
    requires k <= |lru|
  {
    && left == lru[k..] && Distinct(left) && Recorded(left) <= kept.Keys
    && |kept| == |blobs| - k && kept.Keys == blobs.Keys - Recorded(lru[..k])
  }

  lemma Remove(blobs: map<Digest, Blob>, d: Digest)
    requires d in blobs
    ensures (blobs - {d}).Keys == blobs.Keys - {d} && |blobs - {d}| == |blobs| - 1
  {
  }

  lemma FirstRecorded(lru: seq<LruEntry>, k: nat)
    requires k < |lru|
    ensures Recorded(lru[..k + 1]) == {lru[0].digest} + Recorded(lru[1..][..k])
    ensures lru[1..][k..] == lru[k + 1..]
  {
  }

  lemma EvictedOneMore(blobs: map<Digest, Blob>, lru: seq<LruEntry>, kept: map<Digest, Blob>, left: seq<LruEntry>,
                       k: nat, fewer: map<Digest, Blob>, rest: seq<LruEntry>)
    requires k < |lru| && rest == lru[1..] && fewer.Keys == blobs.Keys - {lru[0].digest} && |fewer| == |blobs| - 1
    requires Evicted(fewer, rest, kept, left, k)
    ensures Evicted(blobs, lru, kept, left, k + 1)
  {
    var gone, first := lru[0].digest, Recorded(rest[..k]);
    FirstRecorded(lru, k);
    assert blobs.Keys - {gone} - first == blobs.Keys - ({gone} + first);
  }

  lemma {:induction false} EvictFacts(blobs: map<Digest, Blob>, lru: seq<LruEntry>)
    requires Distinct(lru) && Recorded(lru) <= blobs.Keys
    ensures Evicted(blobs, lru, Evict(blobs, lru).0, Evict(blobs, lru).1, Dropped(blobs, lru))
    decreases |lru|
  {
    if |blobs| > BLOB_CACHE_MAX_ENTRIES && lru != [] {
      var rest, blobs' := lru[1..], blobs - {lru[0].digest};
      EvictOneStep(blobs, lru);
      EvictFacts(blobs', rest);
      Remove(blobs, lru[0].digest);
      EvictedOneMore(blobs, lru, Evict(blobs', rest).0, Evict(blobs', rest).1, Dropped(blobs', rest), blobs', rest);
    } else {
      EvictedNone(blobs, lru);
    }
  }

  lemma EvictOneStep(blobs: map<Digest, Blob>, lru: seq<LruEntry>)
    requires Distinct(lru) && Recorded(lru) <= blobs.Keys && |blobs| > BLOB_CACHE_MAX_ENTRIES && lru != []
    ensures var rest, blobs' := lru[1..], blobs - {lru[0].digest};
            && lru[0].digest in blobs && Distinct(rest) && Recorded(rest) <= blobs'.Keys
            && Dropped(blobs, lru) == Dropped(blobs', rest) + 1
  {
  }

  lemma EvictedNone(blobs: map<Digest, Blob>, lru: seq<LruEntry>)
    requires Distinct(lru) && Recorded(lru) <= blobs.Keys
    ensures Evicted(blobs, lru, blobs, lru, 0)
  {
  }

  // ---------------------------------------------------------------- the bound

  /** After eviction and touch. */
  lemma InsertOverCap(c: Cache, b: Blob) returns (lru: seq<LruEntry>, k: nat)
    requires Distinct(c.lru) && |c.blobs[b.digest := b]| > BLOB_CACHE_MAX_ENTRIES
    ensures var blobs := c.blobs[b.digest := b];
            var r := Insert(c, b);
            && Distinct(lru) && Ascending(lru) && SameRecords(lru, Retain(c.lru, blobs))
            && Recorded(lru) == Recorded(c.lru) * blobs.Keys
            && k == Dropped(blobs, lru)
            && |r.blobs| == |blobs| - k && r.blobs.Keys == blobs.Keys - Recorded(lru[..k])
            && Recorded(lru[k..]) <= r.blobs.Keys
            && Distinct(r.lru) && Recorded(r.lru) == Recorded(lru[k..]) + {b.digest}
            && r.lru == Stamp(lru[k..], b.digest, c.counter)
  {
    var blobs := c.blobs[b.digest := b];
    RetainFacts(c.lru, blobs);
    SortFacts(Retain(c.lru, blobs));
    lru := SortByCounter(Retain(c.lru, blobs));
    k := Dropped(blobs, lru);
    EvictFacts(blobs, lru);
    StampFacts(lru[k..], b.digest, c.counter);
  }

  /** At most one blob over the cap, and then one that can be evicted. */
  ghost predicate OneOver(c: Cache) {
    && Distinct(c.lru) && |c.blobs| <= BLOB_CACHE_MAX_ENTRIES + 1
    && (|c.blobs| == BLOB_CACHE_MAX_ENTRIES + 1 ==> Recorded(c.lru) * c.blobs.Keys != {})
  }

  lemma InsertSize(c: Cache, b: Blob)
    ensures |c.blobs[b.digest := b]| == |c.blobs| + (if b.digest in c.blobs then 0 else 1)
    ensures c.blobs[b.digest := b].Keys == c.blobs.Keys + {b.digest}
  {
  }

  lemma {:induction false} RecordedCount(lru: seq<LruEntry>)
    requires Distinct(lru)
    ensures |Recorded(lru)| == |lru|
  {
    if lru != [] {
      UnconsFacts(lru);
      RecordedCount(lru[1..]);
    }
  }

  lemma OneOverInsert(c: Cache, b: Blob)
    requires OneOver(c)
    ensures OneOver(Insert(c, b))
  {
    var blobs, r := c.blobs[b.digest := b], Insert(c, b);
    InsertSize(c, b);
    if |blobs| <= BLOB_CACHE_MAX_ENTRIES {
      StampFacts(c.lru, b.digest, c.counter);
    } else {
      var lru, k := InsertOverCap(c, b);
      RecordedCount(lru);
      if |blobs| == BLOB_CACHE_MAX_ENTRIES + 2 {
        SomeRecorded(c, b, lru);
      }
      if |r.blobs| == BLOB_CACHE_MAX_ENTRIES + 1 {
        JustInserted(c, b, lru, k);
      }
    }
  }

  /** One over the cap and one more: there is a record of another blob. */
  lemma SomeRecorded(c: Cache, b: Blob, lru: seq<LruEntry>)
    requires Recorded(c.lru) * c.blobs.Keys != {} && b.digest !in c.blobs
    requires Recorded(lru) == Recorded(c.lru) * c.blobs[b.digest := b].Keys
    ensures exists d :: d in Recorded(lru) && d != b.digest
    ensures lru != []
  {
    var d :| d in Recorded(c.lru) * c.blobs.Keys;
    assert d in Recorded(lru);
  }

  /** When the loop runs out of records with one blob too many, the new blob is still there. */
  lemma JustInserted(c: Cache, b: Blob, lru: seq<LruEntry>, k: nat)
    requires OneOver(c) && Distinct(lru) && k == Dropped(c.blobs[b.digest := b], lru) && |Recorded(lru)| == |lru|
    requires Recorded(lru) == Recorded(c.lru) * c.blobs[b.digest := b].Keys
    requires Insert(c, b).blobs.Keys == c.blobs[b.digest := b].Keys - Recorded(lru[..k])
    requires |c.blobs[b.digest := b]| == k + BLOB_CACHE_MAX_ENTRIES + 1
    ensures b.digest in Insert(c, b).blobs
  {
    InsertSize(c, b);
    assert k == |lru| && lru[..k] == lru;
    if lru == [] {
      assert Recorded(lru) == {};
    } else {
      assert b.digest !in c.blobs;
      SomeRecorded(c, b, lru);
      var d :| d in Recorded(lru) && d != b.digest;
      assert |lru| == 1;
      assert Recorded(lru) == {d} by { OneElement(Recorded(lru), d); }
    }
  }

  lemma OneElement(s: set<Digest>, d: Digest)
    requires |s| == 1 && d in s
    ensures s == {d}
  {
    assert |s - {d}| == 0;
    assert s == (s - {d}) + {d};
  }

  // ---------------------------------------------------------------- the cap over runs

  lemma OneOverGet(c: Cache, d: Digest)
    requires OneOver(c)
    ensures OneOver(Get(c, d).0)
  {
    StampFacts(c.lru, d, c.counter);
  }

  lemma {:induction false} LoadFits(disk: seq<Blob>)
    ensures |LoadBlobs(disk)| <= |disk|
  {
    if disk != [] {
      var rest := disk[..|disk| - 1];
      LoadFits(rest);
      InsertSize(Cache(LoadBlobs(rest), [], 0), disk[|disk| - 1]);
    }
  }

  lemma {:induction false} LoadedExactly(disk: seq<Blob>, d: Digest)
    ensures d in LoadBlobs(disk) <==> exists i :: 0 <= i < |disk| && disk[i].digest == d
    ensures d in LoadBlobs(disk) ==>
              exists i ::
                && 0 <= i < |disk| && disk[i] == LoadBlobs(disk)[d] && disk[i].digest == d
                && forall j :: i < j < |disk| ==> disk[j].digest != d
  {
    if disk != [] {
      var n := |disk| - 1;
      LoadedExactly(disk[..n], d);
      if disk[n].digest != d && d in LoadBlobs(disk[..n]) {
        var i :| && 0 <= i < n && disk[..n][i] == LoadBlobs(disk[..n])[d] && disk[..n][i].digest == d
                 && forall j :: i < j < n ==> disk[..n][j].digest != d;
        assert forall j :: i < j < n ==> disk[j].digest == disk[..n][j].digest;
      }
      if i :| 0 <= i < n && disk[i].digest == d {
        assert disk[..n][i].digest == d;
      }
    }
  }

  /** A fresh process finds exactly the first 256 blobs on disk, the last one under each digest,
      and remembers no access. */
  lemma StartsFromDisk(disk: seq<Blob>, d: Digest)
    ensures var c, files := Load(disk), disk[..Min(|disk|, 256)];
            && c.lru == [] && c.counter == 0
            && (d in c.blobs <==> exists i :: 0 <= i < |files| && files[i].digest == d)
            && (d in c.blobs ==>
                  exists i ::
                    && 0 <= i < |files| && files[i] == c.blobs[d] && files[i].digest == d
                    && forall j :: i < j < |files| ==> files[j].digest != d)
  {
    var files := disk[..Min(|disk|, 256)];
    assert |disk| <= 256 ==> files == disk;
    LoadedExactly(files, d);
  }

  /** Whatever was on disk, the map never holds more than one blob over the cap. */
  lemma {:induction false} NeverTwoOver(disk: seq<Blob>, run: seq<Action>)
    ensures OneOver(Run(Load(disk), run))
    ensures |Run(Load(disk), run).blobs| <= BLOB_CACHE_MAX_ENTRIES + 1
  {
    if run == [] {
      LoadFits(if |disk| <= BLOB_CACHE_MAX_ENTRIES then disk else disk[..BLOB_CACHE_MAX_ENTRIES]);
    } else {
      var rest, a := run[..|run| - 1], run[|run| - 1];
      NeverTwoOver(disk, rest);
      match a
      case GetIt(d) => OneOverGet(Run(Load(disk), rest), d);
      case InsertIt(b) => OneOverInsert(Run(Load(disk), rest), b);
    }
  }

  /** Within the cap, with a record to evict when the map is full. */
  ghost predicate Capped(c: Cache) {
    && Distinct(c.lru) && Recorded(c.lru) <= c.blobs.Keys && |c.blobs| <= BLOB_CACHE_MAX_ENTRIES
    && (|c.blobs| == BLOB_CACHE_MAX_ENTRIES ==> c.lru != [])
  }

  lemma CappedInsert(c: Cache, b: Blob)
    requires Capped(c)
    ensures Capped(Insert(c, b))
  {
    InsertSize(c, b);
    if |c.blobs[b.digest := b]| <= BLOB_CACHE_MAX_ENTRIES {
      StampFacts(c.lru, b.digest, c.counter);
      assert b.digest in Recorded(Insert(c, b).lru);
    } else {
      var lru, k := InsertOverCap(c, b);
      RecordedCount(lru);
      RecordedCount(c.lru);
      assert Recorded(lru) == Recorded(c.lru);
      assert Recorded(lru[..k]) <= Recorded(lru);
      assert b.digest in Recorded(Insert(c, b).lru);
    }
  }

  lemma {:induction false} AlwaysCapped(c: Cache, run: seq<Action>)
    requires Capped(c)
    ensures Capped(Run(c, run))
  {
    if run != [] {
      var rest, a := run[..|run| - 1], run[|run| - 1];
      AlwaysCapped(c, rest);
      var mid := Run(c, rest);
      match a
      case GetIt(d) =>
        if d in mid.blobs {
          StampFacts(mid.lru, d, mid.counter);
          assert d in Recorded(Get(mid, d).0.lru);
        }
      case InsertIt(b) => CappedInsert(mid, b);
    }
  }

  /** Among more digests than are used, one is not. */
  lemma {:induction false} Unused(used: set<Digest>, n: nat) returns (d: Digest)
    requires |used| < n
    ensures d < n && d !in used
    decreases n
  {
    if n - 1 in used {
      d := Unused(used - {n - 1}, n - 1);
    } else {
      d := n - 1;
    }
  }

  /** A full load and one new blob: nothing has a record, so nothing is evicted. */
  lemma FullLoadOverflows(disk: seq<Blob>, b: Blob)
    requires |Load(disk).blobs| == BLOB_CACHE_MAX_ENTRIES && b.digest !in Load(disk).blobs
    ensures |Run(Load(disk), [InsertIt(b)]).blobs| == BLOB_CACHE_MAX_ENTRIES + 1
  {
  }

  /** The cap of 256 holds over every run exactly when the disk did not fill the cache. */
  lemma CapHoldsExactly(disk: seq<Blob>)
    ensures (forall run :: |Run(Load(disk), run).blobs| <= BLOB_CACHE_MAX_ENTRIES)
       <==> |Load(disk).blobs| < BLOB_CACHE_MAX_ENTRIES
  {
    var c := Load(disk);
    LoadFits(if |disk| <= BLOB_CACHE_MAX_ENTRIES then disk else disk[..BLOB_CACHE_MAX_ENTRIES]);
    if |c.blobs| < BLOB_CACHE_MAX_ENTRIES {
      forall run ensures |Run(c, run).blobs| <= BLOB_CACHE_MAX_ENTRIES {
        AlwaysCapped(c, run);
      }
    } else {
      var d := Unused(c.blobs.Keys, BLOB_CACHE_MAX_ENTRIES + 1);
      FullLoadOverflows(disk, Blob(d, []));
    }
  }

  // ---------------------------------------------------------------- the recency list

  /** The simple form: digests from least to most recently touched, and what they stand for. */
  datatype Recency = Recency(order: seq<Digest>, contents: map<Digest, Blob>)

  function IndexOf(order: seq<Digest>, d: Digest): (i: nat)
    requires d in order
    ensures i < |order| && order[i] == d
  {
    if order[0] == d then 0 else 1 + IndexOf(order[1..], d)
  }

  function Without(order: seq<Digest>, d: Digest): seq<Digest> {
    if d in order then order[..IndexOf(order, d)] + order[IndexOf(order, d) + 1..] else order
  }

  function Recent(r: Recency, a: Action): Recency {
    match a
    case GetIt(d) => if d in r.order then r.(order := Without(r.order, d) + [d]) else r
    case InsertIt(b) =>
      var d := b.digest;
      if d !in r.order && |r.order| == BLOB_CACHE_MAX_ENTRIES
      then Recency(r.order[1..] + [d], (r.contents - {r.order[0]})[d := b])
      else Recency(Without(r.order, d) + [d], r.contents[d := b])
  }

  function RecentRun(run: seq<Action>): Recency {
    if run == [] then Recency([], map[]) else Recent(RecentRun(run[..|run| - 1]), run[|run| - 1])
  }

  function Digests(s: seq<LruEntry>): seq<Digest> {
    seq(|s|, i requires 0 <= i < |s| => s[i].digest)
  }

  /** The records in the order of their counters, all below the next counter. */
  ghost predicate Stamped(lru: seq<LruEntry>, counter: nat, o: seq<LruEntry>) {
    SameRecords(o, lru) && Distinct(lru) && Rising(o) && forall e <- o :: e.counter < counter
  }

  /** Distinct digests, strictly increasing counters. */
  ghost predicate Rising(o: seq<LruEntry>) {
    Distinct(o) && forall i, j :: 0 <= i < j < |o| ==> o[i].counter < o[j].counter
  }

  lemma StampedRecords(lru: seq<LruEntry>, counter: nat, o: seq<LruEntry>)
    requires Stamped(lru, counter, o)
    ensures Recorded(o) == Recorded(lru) && |o| == |lru|
    ensures Recorded(o) == set d <- Digests(o)
  {
    RecordedCount(o);
    RecordedCount(lru);
    forall d ensures d in Digests(o) <==> d in Recorded(o) {
      DigestsOf(o, d);
    }
  }

  lemma DropAt(o: seq<LruEntry>, i: nat)
    requires Rising(o) && i < |o|
    ensures var p := o[..i] + o[i + 1..];
            Rising(p) && forall x :: x in p <==> x in o && x.digest != o[i].digest
  {
  }

  lemma DigestsOf(o: seq<LruEntry>, d: Digest)
    ensures d in Digests(o) <==> d in Recorded(o)
  {
    if d in Recorded(o) {
      var i :| 0 <= i < |o| && o[i].digest == d;
      assert Digests(o)[i] == d;
    }
  }

  lemma DigestsAround(o: seq<LruEntry>, i: nat)
    requires i < |o|
    ensures Digests(o[..i] + o[i + 1..]) == Digests(o)[..i] + Digests(o)[i + 1..]
  {
  }

  lemma DropRecord(o: seq<LruEntry>, d: Digest) returns (p: seq<LruEntry>)
    requires Rising(o)
    ensures Rising(p) && (forall x :: x in p <==> x in o && x.digest != d)
    ensures Digests(p) == Without(Digests(o), d)
  {
    DigestsOf(o, d);
    if d in Digests(o) {
      var i := IndexOf(Digests(o), d);
      DropAt(o, i);
      p := o[..i] + o[i + 1..];
      DigestsAround(o, i);
    } else {
      p := o;
      forall x | x in o ensures x.digest != d {
        assert x.digest in Recorded(o);
      }
    }
  }

  lemma AddRecord(p: seq<LruEntry>, e: LruEntry)
    requires Rising(p) && forall x <- p :: x.counter < e.counter && x.digest != e.digest
    ensures Rising(p + [e]) && Digests(p + [e]) == Digests(p) + [e.digest]
    ensures forall x :: x in p + [e] <==> x in p || x == e
  {
  }

  /** A touch moves the digest to the end, or adds it there. */
  lemma TouchStamped(lru: seq<LruEntry>, counter: nat, o: seq<LruEntry>, d: Digest) returns (o': seq<LruEntry>)
    requires Stamped(lru, counter, o)
    ensures Stamped(Stamp(lru, d, counter), counter + 1, o')
    ensures Digests(o') == Without(Digests(o), d) + [d]
  {
    StampFacts(lru, d, counter);
    var p := DropRecord(o, d);
    AddRecord(p, LruEntry(d, counter));
    o' := p + [LruEntry(d, counter)];
  }

  /** Sorting the records and dropping the first drops the least recent. */
  lemma EvictStamped(lru: seq<LruEntry>, counter: nat, o: seq<LruEntry>)
    requires Stamped(lru, counter, o) && o != []
    ensures var s := SortByCounter(lru);
            |s| == |o| && s[0] == o[0] && Stamped(s[1..], counter, o[1..])
  {
    SortFacts(lru);
    StampedRecords(lru, counter, o);
    var s := SortByCounter(lru);
    assert s[0] in o && o[0] in s;
    UnconsFacts(s);
    UnconsFacts(o);
    assert s[0] == o[0];
  }

  ghost predicate Refines(c: Cache, r: Recency, o: seq<LruEntry>) {
    && Stamped(c.lru, c.counter, o) && r.order == Digests(o)
    && c.blobs == r.contents && c.blobs.Keys == Recorded(o) && |c.blobs| <= BLOB_CACHE_MAX_ENTRIES
  }

  lemma TouchRecords(lru: seq<LruEntry>, counter: nat, o: seq<LruEntry>, d: Digest) returns (o': seq<LruEntry>)
    requires Stamped(lru, counter, o)
    ensures Stamped(Stamp(lru, d, counter), counter + 1, o')
    ensures Digests(o') == Without(Digests(o), d) + [d] && Recorded(o') == Recorded(o) + {d}
  {
    o' := TouchStamped(lru, counter, o, d);
    StampFacts(lru, d, counter);
    StampedRecords(lru, counter, o);
    StampedRecords(Stamp(lru, d, counter), counter + 1, o');
  }

  lemma RefinesGet(c: Cache, r: Recency, o: seq<LruEntry>, d: Digest) returns (o': seq<LruEntry>)
    requires Refines(c, r, o)
    ensures Refines(Step(c, GetIt(d)), Recent(r, GetIt(d)), o')
  {
    DigestsOf(o, d);
    if d in c.blobs {
      o' := TouchRecords(c.lru, c.counter, o, d);
      assert Recorded(o) + {d} == Recorded(o);
    } else {
      o' := o;
    }
  }

  lemma RefinesInsert(c: Cache, r: Recency, o: seq<LruEntry>, b: Blob) returns (o': seq<LruEntry>)
    requires Refines(c, r, o)
    ensures Refines(Step(c, InsertIt(b)), Recent(r, InsertIt(b)), o')
  {
    DigestsOf(o, b.digest);
    RecordedCount(o);
    InsertSize(c, b);
    if |c.blobs[b.digest := b]| <= BLOB_CACHE_MAX_ENTRIES {
      o' := TouchRecords(c.lru, c.counter, o, b.digest);
    } else {
      o' := RefinesEvict(c, r, o, b);
    }
  }

  /** One eviction from a full cache. */
  lemma EvictsOne(c: Cache, b: Blob, gone: Digest)
    requires |c.blobs| == BLOB_CACHE_MAX_ENTRIES && b.digest !in c.blobs && gone in c.blobs
    requires SortByCounter(c.lru) != [] && gone == SortByCounter(c.lru)[0].digest
             && Retain(c.lru, c.blobs[b.digest := b]) == c.lru
    ensures Insert(c, b) == Cache((c.blobs - {gone})[b.digest := b],
                                  Stamp(SortByCounter(c.lru)[1..], b.digest, c.counter), c.counter + 1)
    ensures (c.blobs - {gone})[b.digest := b].Keys == c.blobs.Keys - {gone} + {b.digest}
    ensures |Insert(c, b).blobs| == BLOB_CACHE_MAX_ENTRIES
  {
    var blobs, s := c.blobs[b.digest := b], SortByCounter(c.lru);
    InsertSize(c, b);
    Remove(blobs, gone);
    Remove(c.blobs, gone);
    assert Evict(blobs, s) == Evict(blobs - {gone}, s[1..]) == (blobs - {gone}, s[1..]);
    assert blobs - {gone} == (c.blobs - {gone})[b.digest := b];
  }

  /** A full cache and a new blob: the head of the recency list goes. */
  lemma RefinesEvict(c: Cache, r: Recency, o: seq<LruEntry>, b: Blob) returns (o': seq<LruEntry>)
    requires Refines(c, r, o) && |c.blobs| == BLOB_CACHE_MAX_ENTRIES == |o| && b.digest !in c.blobs
             && b.digest !in r.order
    ensures Refines(Insert(c, b), Recent(r, InsertIt(b)), o')
  {
    RetainsAll(c, o, b);
    o' := EvictAndTouch(c.lru, c.counter, o, b.digest);
    EvictsOne(c, b, r.order[0]);
  }

  lemma EvictAndTouch(lru: seq<LruEntry>, counter: nat, o: seq<LruEntry>, d: Digest) returns (o': seq<LruEntry>)
    requires Stamped(lru, counter, o) && o != [] && d !in Recorded(o)
    ensures var s := SortByCounter(lru);
            && s != [] && s[0].digest == Digests(o)[0] && s[0].digest in Recorded(o)
            && Stamped(Stamp(s[1..], d, counter), counter + 1, o')
            && Digests(o') == Digests(o)[1..] + [d]
            && Recorded(o') == Recorded(o) - {s[0].digest} + {d}
  {
    EvictStamped(lru, counter, o);
    UnconsFacts(o);
    DigestsTail(o, d);
    o' := TouchRecords(SortByCounter(lru)[1..], counter, o[1..], d);
    var rest := Recorded(o[1..]);
    assert rest == Recorded(o) - {o[0].digest};
  }

  lemma DigestsTail(o: seq<LruEntry>, d: Digest)
    requires o != [] && d !in Recorded(o)
    ensures Digests(o[1..]) == Digests(o)[1..] == Without(Digests(o[1..]), d) && Digests(o)[0] == o[0].digest
  {
  }

  lemma RetainsAll(c: Cache, o: seq<LruEntry>, b: Blob)
    requires Stamped(c.lru, c.counter, o) && c.blobs.Keys == Recorded(o)
    ensures Retain(c.lru, c.blobs[b.digest := b]) == c.lru
  {
    StampedRecords(c.lru, c.counter, o);
    RetainFacts(c.lru, c.blobs[b.digest := b]);
  }

  lemma {:induction false} RefinesRun(run: seq<Action>) returns (o: seq<LruEntry>)
    ensures Refines(Run(EmptyCache, run), RecentRun(run), o)
  {
    if run == [] {
      o := [];
    } else {
      var rest, a := run[..|run| - 1], run[|run| - 1];
      o := RefinesRun(rest);
      match a
      case GetIt(d) => o := RefinesGet(Run(EmptyCache, rest), RecentRun(rest), o, d);
      case InsertIt(b) => o := RefinesInsert(Run(EmptyCache, rest), RecentRun(rest), o, b);
    }
  }

  // ---------------------------------------------------------------- which blob goes, after any load

  function DigestOf(a: Action): Digest {
    if a.GetIt? then a.digest else a.blob.digest
  }

  /** Whether an action touches its digest: every insert does, and every get that hits. */
  predicate Touches(c: Cache, a: Action) {
    a.InsertIt? || a.digest in c.blobs
  }

  /** When the digest was last touched, -1 if it never was. */
  function LastTouched(start: Cache, run: seq<Action>, d: Digest): (t: int)
    ensures -1 <= t < |run|
  {
    if run == [] then -1
    else
      var rest, a := run[..|run| - 1], run[|run| - 1];
      if DigestOf(a) == d && Touches(Run(start, rest), a) then |run| - 1 else LastTouched(start, rest, d)
  }

  /** The counters of the records are in the order of the last touches. */
  ghost predicate Aligned(c: Cache, start: Cache, run: seq<Action>) {
    && Distinct(c.lru)
    && (forall e <- c.lru :: e.counter < c.counter && LastTouched(start, run, e.digest) >= 0)
    && (forall e <- c.lru, f <- c.lru :: e != f ==> e.counter != f.counter)
    && (forall e <- c.lru, f <- c.lru :: e.counter < f.counter ==>
          LastTouched(start, run, e.digest) < LastTouched(start, run, f.digest))
  }

  /** The records after a touch: the one of the digest is new, the others are old ones. */
  ghost predicate Restamped(lru: seq<LruEntry>, after: seq<LruEntry>, d: Digest, counter: nat) {
    Distinct(after) && forall x <- after :: x == LruEntry(d, counter) || (x in lru && x.digest != d)
  }

  lemma AlignedTouch(c: Cache, c': Cache, start: Cache, run: seq<Action>)
    requires run != [] && c == Run(start, run[..|run| - 1]) && Touches(c, run[|run| - 1])
    requires Aligned(c, start, run[..|run| - 1]) && c'.counter == c.counter + 1
    requires Restamped(c.lru, c'.lru, DigestOf(run[|run| - 1]), c.counter)
    ensures Aligned(c', start, run)
  {
    var rest, d := run[..|run| - 1], DigestOf(run[|run| - 1]);
    forall e <- c'.lru
      ensures LastTouched(start, run, e.digest)
           == if e == LruEntry(d, c.counter) then |rest| else LastTouched(start, rest, e.digest)
    {
    }
  }

  lemma InsertRestamps(c: Cache, b: Blob)
    requires Distinct(c.lru)
    ensures Restamped(c.lru, Insert(c, b).lru, b.digest, c.counter) && Insert(c, b).counter == c.counter + 1
  {
    var blobs := c.blobs[b.digest := b];
    if |blobs| > BLOB_CACHE_MAX_ENTRIES {
      var lru, k := InsertOverCap(c, b);
      RetainFacts(c.lru, blobs);
      StampFacts(lru[k..], b.digest, c.counter);
    } else {
      StampFacts(c.lru, b.digest, c.counter);
    }
  }

  lemma {:induction false} AlwaysAligned(disk: seq<Blob>, run: seq<Action>)
    ensures Aligned(Run(Load(disk), run), Load(disk), run)
  {
    if run != [] {
      var rest, a := run[..|run| - 1], run[|run| - 1];
      AlwaysAligned(disk, rest);
      var c := Run(Load(disk), rest);
      if a.InsertIt? {
        InsertRestamps(c, a.blob);
        AlignedTouch(c, Insert(c, a.blob), Load(disk), run);
      } else if a.digest in c.blobs {
        StampFacts(c.lru, a.digest, c.counter);
        AlignedTouch(c, Touch(c, a.digest), Load(disk), run);
      } else {
        NotTouched(Load(disk), run);
      }
    }
  }

  lemma NotTouched(start: Cache, run: seq<Action>)
    requires run != [] && !Touches(Run(start, run[..|run| - 1]), run[|run| - 1])
    requires Aligned(Run(start, run[..|run| - 1]), start, run[..|run| - 1])
    ensures Aligned(Run(start, run), start, run)
  {
    forall d ensures LastTouched(start, run, d) == LastTouched(start, run[..|run| - 1], d) {
    }
  }

  lemma {:induction false} EvictKeepsContents(blobs: map<Digest, Blob>, lru: seq<LruEntry>)
    ensures var kept := Evict(blobs, lru).0; forall d <- kept :: d in blobs && kept[d] == blobs[d]
    decreases |lru|
  {
    if |blobs| > BLOB_CACHE_MAX_ENTRIES && lru != [] {
      EvictKeepsContents(blobs - {lru[0].digest}, lru[1..]);
    }
  }

  /** The blobs that go are those of the first records, in the order of the counters. */
  lemma FirstRecordsGo(lru: seq<LruEntry>, k: nat, c: Cache, start: Cache, run: seq<Action>, g: Digest, x: Digest)
    requires Distinct(lru) && Ascending(lru) && k <= |lru| && (forall e <- lru :: e in c.lru) && Aligned(c, start, run)
    requires g in Recorded(lru[..k]) && x in Recorded(lru) && x !in Recorded(lru[..k])
    ensures LastTouched(start, run, g) < LastTouched(start, run, x)
  {
    var i :| 0 <= i < k && lru[..k][i].digest == g;
    var j :| 0 <= j < |lru| && lru[j].digest == x;
    if j >= k {
      var e, f := lru[i], lru[j];
      assert e in lru && f in lru && e != f && e.counter <= f.counter;
    }
  }

  lemma TakenAway(keys: set<Digest>, first: set<Digest>)
    requires first <= keys
    ensures keys - (keys - first) == first
  {
  }

  lemma RecordedPrefix(lru: seq<LruEntry>, k: nat)
    requires Distinct(lru) && k <= |lru|
    ensures Recorded(lru[..k]) <= Recorded(lru) && |Recorded(lru[..k])| == k && |Recorded(lru)| == |lru|
  {
    RecordedCount(lru);
    RecordedCount(lru[..k]);
  }

  /** Whatever is loaded, the blobs an insert evicts are the least recently touched ones, as many
      as are over the cap or as were ever touched; blobs never touched since they were loaded do
      not go. The blob just inserted counts by its earlier touch, if a record of that is left. */
  ghost predicate LeastRecentGo(keys: set<Digest>, touched: set<Digest>, gone: set<Digest>, start: Cache,
                                run: seq<Action>) {
    && gone <= touched && |gone| == Min(Max(|keys| - BLOB_CACHE_MAX_ENTRIES, 0), |touched|)
    && forall g <- gone, x <- touched - gone :: LastTouched(start, run, g) < LastTouched(start, run, x)
  }

  lemma EvictsLeastRecent(disk: seq<Blob>, run: seq<Action>, b: Blob)
    ensures var c := Run(Load(disk), run);
            var keys := c.blobs.Keys + {b.digest};
            LeastRecentGo(keys, Recorded(c.lru) * keys, keys - Insert(c, b).blobs.Keys, Load(disk), run)
  {
    var c := Run(Load(disk), run);
    AlwaysAligned(disk, run);
    InsertSize(c, b);
    if |c.blobs[b.digest := b]| > BLOB_CACHE_MAX_ENTRIES {
      EvictsOverCap(c, b, Load(disk), run);
    } else {
      assert c.blobs.Keys + {b.digest} - Insert(c, b).blobs.Keys == {};
    }
  }

  lemma EvictsOverCap(c: Cache, b: Blob, start: Cache, run: seq<Action>)
    requires Aligned(c, start, run) && |c.blobs[b.digest := b]| > BLOB_CACHE_MAX_ENTRIES
    ensures var keys := c.blobs.Keys + {b.digest};
            LeastRecentGo(keys, Recorded(c.lru) * keys, keys - Insert(c, b).blobs.Keys, start, run)
  {
    var keys := c.blobs.Keys + {b.digest};
    InsertSize(c, b);
    var lru, k := InsertOverCap(c, b);
    RecordedPrefix(lru, k);
    TakenAway(keys, Recorded(lru[..k]));
    assert forall e <- lru :: e in c.lru by { RetainFacts(c.lru, c.blobs[b.digest := b]); }
    FirstOnesGo(lru, k, keys, c, start, run);
  }

  lemma FirstOnesGo(lru: seq<LruEntry>, k: nat, keys: set<Digest>, c: Cache, start: Cache, run: seq<Action>)
    requires Distinct(lru) && Ascending(lru) && (forall e <- lru :: e in c.lru) && Aligned(c, start, run)
    requires |keys| > BLOB_CACHE_MAX_ENTRIES && k == Min(|keys| - BLOB_CACHE_MAX_ENTRIES, |lru|)
    ensures LeastRecentGo(keys, Recorded(lru), Recorded(lru[..k]), start, run)
  {
    RecordedPrefix(lru, k);
    forall g <- Recorded(lru[..k]), x <- Recorded(lru) - Recorded(lru[..k])
      ensures LastTouched(start, run, g) < LastTouched(start, run, x)
    {
      FirstRecordsGo(lru, k, c, start, run, g, x);
    }
  }

  /** A loaded blob that was never touched is still there, whatever was inserted since. */
  lemma {:induction false} UntouchedStays(disk: seq<Blob>, run: seq<Action>, d: Digest)
    requires d in Load(disk).blobs && LastTouched(Load(disk), run, d) == -1
    ensures d in Run(Load(disk), run).blobs && Run(Load(disk), run).blobs[d] == Load(disk).blobs[d]
    ensures d !in Recorded(Run(Load(disk), run).lru)
  {
    if run != [] {
      var rest, a := run[..|run| - 1], run[|run| - 1];
      UntouchedStays(disk, rest, d);
      var c := Run(Load(disk), rest);
      AlwaysAligned(disk, rest);
      if a.InsertIt? {
        InsertSpares(c, a.blob, d);
      } else if a.digest in c.blobs {
        StampFacts(c.lru, a.digest, c.counter);
      }
    }
  }

  lemma InsertSpares(c: Cache, b: Blob, d: Digest)
    requires Distinct(c.lru) && d in c.blobs && d != b.digest && d !in Recorded(c.lru)
    ensures d in Insert(c, b).blobs && Insert(c, b).blobs[d] == c.blobs[d] && d !in Recorded(Insert(c, b).lru)
  {
    var blobs := c.blobs[b.digest := b];
    InsertRestamps(c, b);
    if |blobs| > BLOB_CACHE_MAX_ENTRIES {
      var lru, k := InsertOverCap(c, b);
      assert d !in Recorded(lru[..k]) by {
        assert Recorded(lru[..k]) <= Recorded(lru);
      }
      EvictKeepsContents(blobs, SortByCounter(Retain(c.lru, blobs)));
    }
  }

  // ---------------------------------------------------------------- the recency list is one

  ghost predicate ByLastTouch(order: seq<Digest>, start: Cache, run: seq<Action>) {
    forall i, j :: 0 <= i < j < |order| ==> LastTouched(start, run, order[i]) < LastTouched(start, run, order[j])
  }

  lemma OrderIsLastTouch(run: seq<Action>)
    ensures ByLastTouch(RecentRun(run).order, EmptyCache, run)
  {
    var o := RefinesRun(run);
    assert Load([]) == EmptyCache;
    AlwaysAligned([], run);
    forall i, j | 0 <= i < j < |o|
      ensures LastTouched(EmptyCache, run, Digests(o)[i]) < LastTouched(EmptyCache, run, Digests(o)[j])
    {
      assert o[i] in o && o[j] in o && o[i].counter < o[j].counter;
    }
  }

  /** From an empty cache, every run of gets and inserts holds what the recency list holds, in
      the order of the last touches: the records are the keys, at most 256, and the head of the
      list, which the next eviction takes, is the least recently touched. */
  lemma CacheIsRecencyList(run: seq<Action>)
    ensures var c, r := Run(EmptyCache, run), RecentRun(run);
            && c.blobs == r.contents && |c.blobs| <= BLOB_CACHE_MAX_ENTRIES
            && Distinct(c.lru) && Recorded(c.lru) == c.blobs.Keys && |c.lru| == |c.blobs| == |r.order|
            && (set d <- r.order) == c.blobs.Keys
            && ByLastTouch(r.order, EmptyCache, run)
  {
    var o := RefinesRun(run);
    StampedRecords(Run(EmptyCache, run).lru, Run(EmptyCache, run).counter, o);
    RecordedCount(o);
    OrderIsLastTouch(run);
  }

  // ---------------------------------------------------------------- what a get returns

  /** The blob inserted last under the digest. */
  function LastInserted(run: seq<Action>, d: Digest): Option<Blob> {
    if run == [] then None
    else
      var a := run[|run| - 1];
      if a.InsertIt? && a.blob.digest == d then Some(a.blob) else LastInserted(run[..|run| - 1], d)
  }

  lemma {:induction false} EvictKeepsContent(blobs: map<Digest, Blob>, lru: seq<LruEntry>, d: Digest)
    requires d in Evict(blobs, lru).0
    ensures d in blobs && Evict(blobs, lru).0[d] == blobs[d]
    decreases |lru|
  {
    if |blobs| > BLOB_CACHE_MAX_ENTRIES && lru != [] {
      EvictKeepsContent(blobs - {lru[0].digest}, lru[1..], d);
    }
  }

  lemma InsertKeepsContent(c: Cache, b: Blob, d: Digest)
    requires d in Insert(c, b).blobs
    ensures d == b.digest || d in c.blobs
    ensures Insert(c, b).blobs[d] == if d == b.digest then b else c.blobs[d]
  {
    var blobs := c.blobs[b.digest := b];
    if |blobs| > BLOB_CACHE_MAX_ENTRIES {
      EvictKeepsContent(blobs, SortByCounter(Retain(c.lru, blobs)), d);
    }
  }

  /** After any load and run a get answers exactly for the digests that are there, with the blob
      inserted last under the digest, or the loaded one if none was. */
  lemma {:induction false} GetReturnsLastInserted(disk: seq<Blob>, run: seq<Action>, d: Digest)
    ensures var c, last := Run(Load(disk), run), LastInserted(run, d);
            && (Get(c, d).1.Some? <==> d in c.blobs)
            && (Get(c, d).1.Some? && last.None? ==> d in Load(disk).blobs)
            && (Get(c, d).1.Some? ==> Get(c, d).1.value == if last.Some? then last.value else Load(disk).blobs[d])
  {
    if run != [] {
      var rest, a := run[..|run| - 1], run[|run| - 1];
      GetReturnsLastInserted(disk, rest, d);
      if a.InsertIt? && d in Run(Load(disk), run).blobs {
        InsertKeepsContent(Run(Load(disk), rest), a.blob, d);
      }
    }
  }
}
