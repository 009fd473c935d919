/** Adverts and digest extensions merge in either arrival order: exactly when every
    order and every duplication of the same signed records leaves the same view. */
module OrderIndependence {
  import opened Bytes
  import opened Clock
  import opened AdvertCodec
  import opened CapabilityStore

  // ---------------------------------------------------------------- the records

  predicate IsAdvertOf(r: Operation, agent: Id) {
    r.OpAdvert? && r.agent == agent
  }

  predicate IsExtensionOf(r: Operation, agent: Id) {
    r.OpExtension? && r.agent == agent
  }

  /** Signed records none of which is refused for its date, or expires, between `t0` and `t1`. */
  ghost predicate Settled(recs: set<Operation>, ttl: U64, t0: Reading, t1: Reading) {
    && 0 < ttl && t0 <= t1 <= t0 + ttl as real
    && forall r <- recs :: (r.OpAdvert? || r.OpExtension?)
                           && r.created <= SatAdd(Wall(t0), MAX_FUTURE_SKEW_MS) && SatSub(Wall(t1), r.created) < ttl
  }

  /** A signer dates no two different records of one kind alike. */
  ghost predicate OneContent(recs: set<Operation>) {
    forall r <- recs, s <- recs ::
      && (r.OpAdvert? && s.OpAdvert? && r.agent == s.agent && r.created == s.created ==> r == s)
      && (r.OpExtension? && s.OpExtension? && r.agent == s.agent && r.created == s.created ==> r == s)
  }

  ghost predicate LatestAdvert(recs: set<Operation>, w: Operation) {
    w in recs && w.OpAdvert? && forall r <- recs :: IsAdvertOf(r, w.agent) ==> r.created <= w.created
  }

  ghost predicate LatestExtension(recs: set<Operation>, l: Operation) {
    l in recs && l.OpExtension? && forall r <- recs :: IsExtensionOf(r, l.agent) ==> r.created <= l.created
  }

  /** The latest extension names the latest advert's machine, or no extension that does
      contradicts that advert's own digest bit. */
  ghost predicate Reconcilable(recs: set<Operation>, w: Operation, l: Operation)
    requires w.OpAdvert? && l.OpExtension?
  {
    || l.machine == w.machine
    || forall x <- recs :: IsExtensionOf(x, w.agent) && x.machine == w.machine ==> x.digest == w.caps.digestSupport
  }

  /** The condition under which the arrival order does not matter. */
  ghost predicate OrderFree(recs: set<Operation>) {
    forall w <- recs, l <- recs ::
      LatestAdvert(recs, w) && LatestExtension(recs, l) && w.agent == l.agent ==> Reconcilable(recs, w, l)
  }

  /** A run that delivers these records, each at least once, in the window. */
  ghost predicate Delivers(run: seq<Timed>, recs: set<Operation>, t0: Reading, t1: Reading) {
    && (forall t <- run :: t.op in recs && t0 <= t.now <= t1)
    && (forall r <- recs :: exists t <- run :: t.op == r)
  }

  /** What a sender can learn about an agent: timestamp, machine, capabilities with the merged bit. */
  function View(st: Store, agent: Id): Option<(U64, Id, Caps)> {
    if agent in st.adverts
    then Some((st.adverts[agent].createdAt, st.adverts[agent].machine, st.adverts[agent].capabilities))
    else None
  }

  // ---------------------------------------------------------------- the store follows the records seen

  predicate AdvertMatches(entry: CachedAdvert, r: Operation)
    requires r.OpAdvert?
  {
    entry.machine == r.machine && entry.capabilities == r.caps.(digestSupport := entry.capabilities.digestSupport)
  }

  predicate ExtensionMatches(entry: CachedExtension, r: Operation)
    requires r.OpExtension?
  {
    entry.machine == r.machine && entry.digestSupport == r.digest
  }

  /** What a store that has seen these records holds for agent `a`. */
  ghost predicate AdvertFollows(st: Store, seen: set<Operation>, a: Id, t1: Reading) {
    && (forall r <- seen :: IsAdvertOf(r, a) ==>
          && a in st.adverts
          && r.created <= st.adverts[a].createdAt
          && (r.created == st.adverts[a].createdAt ==> AdvertMatches(st.adverts[a], r)))
    && (a in st.adverts ==>
          t1 <= st.adverts[a].expiresAt
          && exists r <- seen :: IsAdvertOf(r, a) && r.created == st.adverts[a].createdAt)
  }

  ghost predicate ExtensionFollows(st: Store, seen: set<Operation>, a: Id, t1: Reading) {
    && (forall r <- seen :: IsExtensionOf(r, a) ==>
          && a in st.extensions
          && r.created <= st.extensions[a].createdAt
          && (r.created == st.extensions[a].createdAt ==> ExtensionMatches(st.extensions[a], r)))
    && (a in st.extensions ==>
          t1 <= st.extensions[a].expiresAt
          && exists r <- seen :: IsExtensionOf(r, a) && r.created == st.extensions[a].createdAt)
  }

  ghost predicate OwnBit(entry: CachedAdvert, seen: set<Operation>, a: Id) {
    exists w <- seen :: IsAdvertOf(w, a) && w.created == entry.createdAt
                        && w.caps.digestSupport == entry.capabilities.digestSupport
  }

  ghost predicate BitFromExtension(entry: CachedAdvert, seen: set<Operation>, a: Id) {
    exists x <- seen :: IsExtensionOf(x, a) && x.machine == entry.machine
                        && x.digest == entry.capabilities.digestSupport
  }

  /** Where the stored digest bit comes from. */
  ghost predicate BitFollows(st: Store, seen: set<Operation>, a: Id) {
    a in st.adverts ==>
      if a in st.extensions && st.extensions[a].machine == st.adverts[a].machine
      then st.adverts[a].capabilities.digestSupport == st.extensions[a].digestSupport
      else OwnBit(st.adverts[a], seen, a) || BitFromExtension(st.adverts[a], seen, a)
  }

  ghost predicate Follows(st: Store, seen: set<Operation>, a: Id, t1: Reading) {
    AdvertFollows(st, seen, a, t1) && ExtensionFollows(st, seen, a, t1) && BitFollows(st, seen, a)
  }

  lemma SettledExpiry(recs: set<Operation>, ttl: U64, t0: Reading, t1: Reading, r: Operation, now: Reading)
    requires Settled(recs, ttl, t0, t1) && r in recs && t0 <= now <= t1
    ensures Expiry(r.created, now, ttl).Some? && t1 <= Expiry(r.created, now, ttl).value
  {
  }

  /** Records of other kinds or other agents, and records already superseded, leave what is followed. */
  lemma SeeMore(st: Store, st': Store, seen: set<Operation>, r: Operation, a: Id, t1: Reading)
    requires Follows(st, seen, a, t1) && View(st', a) == View(st, a)
    requires a in st.adverts ==> a in st'.adverts && st'.adverts[a] == st.adverts[a]
    requires (a in st'.extensions <==> a in st.extensions)
             && (a in st.extensions ==> st'.extensions[a] == st.extensions[a])
    requires IsAdvertOf(r, a) ==> a in st.adverts && r.created <= st.adverts[a].createdAt
                                  && (r.created == st.adverts[a].createdAt ==> AdvertMatches(st.adverts[a], r))
    requires IsExtensionOf(r, a) ==> a in st.extensions && r.created <= st.extensions[a].createdAt
                                     && (r.created == st.extensions[a].createdAt ==>
                                         ExtensionMatches(st.extensions[a], r))
    ensures Follows(st', seen + {r}, a, t1)
  {
  }

  lemma AdvertStep(st: Store, seen: set<Operation>, recs: set<Operation>, ttl: U64, t0: Reading, t1: Reading, t: Timed,
                   a: Id)
    requires Settled(recs, ttl, t0, t1) && OneContent(recs) && seen <= recs
    requires t.op in recs && t.op.OpAdvert? && t0 <= t.now <= t1
    requires Follows(st, seen, a, t1)
    ensures Follows(Step(st, ttl, t), seen + {t.op}, a, t1)
  {
    SettledExpiry(recs, ttl, t0, t1, t.op, t.now);
    var st' := Step(st, ttl, t);
    var r := t.op;
    if r.agent != a {
      SeeMore(st, st', seen, r, a, t1);
    } else if a in st.adverts && r.created <= st.adverts[a].createdAt {
      var w :| w in seen && IsAdvertOf(w, a) && w.created == st.adverts[a].createdAt;
      assert r.created == w.created ==> r == w;
      SeeMore(st, st', seen, r, a, t1);
    } else {
      assert r in seen + {r} && AdvertMatches(st'.adverts[a], r);
      assert ExtensionFollows(st', seen + {r}, a, t1);
    }
  }

  lemma ExtensionStep(st: Store, seen: set<Operation>, recs: set<Operation>, ttl: U64, t0: Reading, t1: Reading,
                      t: Timed, a: Id)
    requires Settled(recs, ttl, t0, t1) && OneContent(recs) && seen <= recs
    requires t.op in recs && t.op.OpExtension? && t0 <= t.now <= t1
    requires Follows(st, seen, a, t1)
    ensures Follows(Step(st, ttl, t), seen + {t.op}, a, t1)
  {
    SettledExpiry(recs, ttl, t0, t1, t.op, t.now);
    var st' := Step(st, ttl, t);
    var r := t.op;
    if r.agent != a {
      SeeMore(st, st', seen, r, a, t1);
    } else if a in st.extensions && r.created <= st.extensions[a].createdAt {
      var l :| l in seen && IsExtensionOf(l, a) && l.created == st.extensions[a].createdAt;
      assert r.created == l.created ==> r == l;
      SeeMore(st, st', seen, r, a, t1);
    } else {
      assert r in seen + {r} && ExtensionMatches(st'.extensions[a], r);
      ExtensionAcceptedBit(st, st', seen, r, a, t1);
    }
  }

  /** A newly stored extension either sets the bit of the stored advert or leaves it, and
      then the bit keeps an explanation among the records. */
  lemma ExtensionAcceptedBit(st: Store, st': Store, seen: set<Operation>, r: Operation, a: Id, t1: Reading)
    requires Follows(st, seen, a, t1) && IsExtensionOf(r, a)
    requires a in st'.extensions && ExtensionMatches(st'.extensions[a], r)
    requires a in st.adverts <==> a in st'.adverts
    requires a in st.adverts ==>
               var entry := st.adverts[a];
               st'.adverts[a] == if entry.machine == r.machine
                                 then entry.(capabilities := entry.capabilities.(digestSupport := r.digest))
                                 else entry
    ensures AdvertFollows(st', seen + {r}, a, t1) && BitFollows(st', seen + {r}, a)
  {
  }

  function Seen(run: seq<Timed>): set<Operation> {
    set t <- run :: t.op
  }

  lemma {:induction false} RunFollows(recs: set<Operation>, ttl: U64, t0: Reading, t1: Reading, run: seq<Timed>, a: Id)
    requires Settled(recs, ttl, t0, t1) && OneContent(recs)
    requires forall t <- run :: t.op in recs && t0 <= t.now <= t1
    ensures Follows(Run(ttl, run), Seen(run), a, t1)
  {
    if run != [] {
      var front, t := run[..|run| - 1], run[|run| - 1];
      RunFollows(recs, ttl, t0, t1, front, a);
      assert run == front + [t];
      assert Seen(run) == Seen(front) + {t.op};
      if t.op.OpAdvert? {
        AdvertStep(Run(ttl, front), Seen(front), recs, ttl, t0, t1, t, a);
      } else {
        ExtensionStep(Run(ttl, front), Seen(front), recs, ttl, t0, t1, t, a);
      }
    }
  }

  lemma DeliverySeesAll(run: seq<Timed>, recs: set<Operation>, t0: Reading, t1: Reading)
    requires Delivers(run, recs, t0, t1)
    ensures Seen(run) == recs
  {
  }

  // ---------------------------------------------------------------- sufficiency

  /** The digest bit all deliveries end in: the latest extension's when it names the
      advert's machine, the advert's own otherwise. */
  ghost predicate SettledBit(recs: set<Operation>, w: Operation, bit: bool)
    requires w.OpAdvert?
  {
    if exists l <- recs :: LatestExtension(recs, l) && l.agent == w.agent && l.machine == w.machine
    then exists l <- recs :: LatestExtension(recs, l) && l.agent == w.agent && l.digest == bit
    else bit == w.caps.digestSupport
  }

  lemma SettledBitUnique(recs: set<Operation>, w: Operation, b: bool, c: bool)
    requires OneContent(recs) && w.OpAdvert? && SettledBit(recs, w, b) && SettledBit(recs, w, c)
    ensures b == c
  {
  }

  lemma StoreIsSettled(st: Store, recs: set<Operation>, t1: Reading, w: Operation)
    requires OneContent(recs) && OrderFree(recs) && LatestAdvert(recs, w) && Follows(st, recs, w.agent, t1)
    ensures w.agent in st.adverts && st.adverts[w.agent].createdAt == w.created
    ensures AdvertMatches(st.adverts[w.agent], w)
    ensures SettledBit(recs, w, st.adverts[w.agent].capabilities.digestSupport)
  {
    var a := w.agent;
    assert IsAdvertOf(w, a);
    var r :| r in recs && IsAdvertOf(r, a) && r.created == st.adverts[a].createdAt;
    assert r == w;
    if a in st.extensions {
      var l :| l in recs && IsExtensionOf(l, a) && l.created == st.extensions[a].createdAt;
      assert LatestExtension(recs, l) && ExtensionMatches(st.extensions[a], l);
      assert Reconcilable(recs, w, l);
      if l.machine != w.machine {
        forall m <- recs | LatestExtension(recs, m) && m.agent == a ensures m == l {
          assert IsExtensionOf(m, a);
        }
      }
    }
  }

  lemma SufficientForOrder(recs: set<Operation>, ttl: U64, t0: Reading, t1: Reading, run1: seq<Timed>, run2: seq<Timed>,
                           agent: Id)
    requires Settled(recs, ttl, t0, t1) && OneContent(recs) && OrderFree(recs)
    requires Delivers(run1, recs, t0, t1) && Delivers(run2, recs, t0, t1)
    ensures View(Run(ttl, run1), agent) == View(Run(ttl, run2), agent)
  {
    var st1, st2 := Run(ttl, run1), Run(ttl, run2);
    RunFollows(recs, ttl, t0, t1, run1, agent);
    RunFollows(recs, ttl, t0, t1, run2, agent);
    DeliverySeesAll(run1, recs, t0, t1);
    DeliverySeesAll(run2, recs, t0, t1);
    if agent in st1.adverts {
      var w :| w in recs && IsAdvertOf(w, agent) && w.created == st1.adverts[agent].createdAt;
      assert LatestAdvert(recs, w);
      StoreIsSettled(st1, recs, t1, w);
      StoreIsSettled(st2, recs, t1, w);
      SettledBitUnique(recs, w, st1.adverts[agent].capabilities.digestSupport,
                       st2.adverts[agent].capabilities.digestSupport);
    }
  }

  // ---------------------------------------------------------------- necessity

  /** The latest extension is stored, and `bit` is what the latest advert's digest bit is or will be. */
  predicate Frozen(st: Store, t1: Reading, w: Operation, l: Operation, bit: bool)
    requires w.OpAdvert? && l.OpExtension?
  {
    var a := w.agent;
    && a in st.extensions && st.extensions[a].createdAt == l.created
    && ExtensionMatches(st.extensions[a], l) && t1 <= st.extensions[a].expiresAt
    && (a in st.adverts ==> st.adverts[a].createdAt <= w.created)
    && (if a in st.adverts && st.adverts[a].createdAt == w.created
        then st.adverts[a].capabilities.digestSupport == bit
        else bit == w.caps.digestSupport)
  }

  /** Once the latest extension of an agent is stored, no record of the set changes the
      extension or the bit of the latest advert any more. */
  lemma FrozenStep(st: Store, recs: set<Operation>, ttl: U64, t0: Reading, t1: Reading, w: Operation, l: Operation,
                   t: Timed, bit: bool)
    requires Settled(recs, ttl, t0, t1) && OneContent(recs) && t.op in recs && t0 <= t.now <= t1
    requires LatestAdvert(recs, w) && LatestExtension(recs, l) && w.agent == l.agent && w.machine != l.machine
    requires Frozen(st, t1, w, l, bit)
    ensures Frozen(Step(st, ttl, t), t1, w, l, bit)
  {
    SettledExpiry(recs, ttl, t0, t1, t.op, t.now);
    assert t.op.agent == w.agent && t.op.OpAdvert? ==> IsAdvertOf(t.op, w.agent);
    assert t.op.agent == w.agent && t.op.OpExtension? ==> IsExtensionOf(t.op, l.agent);
  }

  lemma {:induction false} FrozenRun(recs: set<Operation>, ttl: U64, t0: Reading, t1: Reading, w: Operation,
                                     l: Operation, prefix: seq<Timed>, rest: seq<Timed>, bit: bool)
    requires Settled(recs, ttl, t0, t1) && OneContent(recs)
    requires forall t <- rest :: t.op in recs && t0 <= t.now <= t1
    requires LatestAdvert(recs, w) && LatestExtension(recs, l) && w.agent == l.agent && w.machine != l.machine
    requires Frozen(Run(ttl, prefix), t1, w, l, bit)
    ensures Frozen(Run(ttl, prefix + rest), t1, w, l, bit)
  {
    if rest == [] {
      assert prefix + rest == prefix;
    } else {
      var front, t := rest[..|rest| - 1], rest[|rest| - 1];
      FrozenRun(recs, ttl, t0, t1, w, l, prefix, front, bit);
      assert prefix + rest == (prefix + front) + [t];
      RunAppend(ttl, prefix + front, t);
      FrozenStep(Run(ttl, prefix + front), recs, ttl, t0, t1, w, l, t, bit);
    }
  }

  /** A delivery that begins with a prefix which freezes the bit ends with that bit. */
  lemma FrozenDelivery(recs: set<Operation>, ttl: U64, t0: Reading, t1: Reading, w: Operation, l: Operation,
                       prefix: seq<Timed>, all: seq<Timed>, bit: bool)
    requires Settled(recs, ttl, t0, t1) && OneContent(recs) && Delivers(all, recs, t0, t0)
    requires LatestAdvert(recs, w) && LatestExtension(recs, l) && w.agent == l.agent && w.machine != l.machine
    requires forall t <- prefix :: t.op in recs && t.now == t0
    requires Frozen(Run(ttl, prefix), t1, w, l, bit)
    ensures var st := Run(ttl, prefix + all);
            w.agent in st.adverts && st.adverts[w.agent].capabilities.digestSupport == bit
  {
    FrozenRun(recs, ttl, t0, t1, w, l, prefix, all, bit);
    DeliversLonger(prefix, all, recs, t0, t1);
    DeliverySeesAll(prefix + all, recs, t0, t1);
    RunFollows(recs, ttl, t0, t1, prefix + all, w.agent);
    assert IsAdvertOf(w, w.agent);
  }

  /** Every finite set of records can be delivered at one instant. */
  lemma {:induction false} SomeDelivery(recs: set<Operation>, now: Reading) returns (run: seq<Timed>)
    ensures Delivers(run, recs, now, now)
  {
    if recs == {} {
      run := [];
    } else {
      var r :| r in recs;
      var front := SomeDelivery(recs - {r}, now);
      run := front + [Timed(r, now)];
      assert run[|front|].op == r;
      forall s <- recs ensures exists t <- run :: t.op == s {
        if s != r {
          assert s in recs - {r};
          var t :| t in front && t.op == s;
          assert t in run;
        } else {
          assert Timed(r, now) in run;
        }
      }
    }
  }

  /** The latest extension first: the latest advert will keep its own bit. */
  lemma ExtensionFirst(recs: set<Operation>, ttl: U64, t0: Reading, t1: Reading, w: Operation, l: Operation)
    requires Settled(recs, ttl, t0, t1) && w in recs && w.OpAdvert? && l in recs && l.OpExtension?
    requires w.agent == l.agent
    ensures Frozen(Run(ttl, [Timed(l, t0)]), t1, w, l, w.caps.digestSupport)
  {
  }

  /** An advert stored with this bit, ahead of every other of its agent. */
  predicate Leads(st: Store, t1: Reading, w: Operation, bit: bool)
    requires w.OpAdvert?
  {
    && w.agent in st.adverts && st.adverts[w.agent].createdAt == w.created && st.adverts[w.agent].machine == w.machine
    && st.adverts[w.agent].capabilities.digestSupport == bit && t1 <= st.adverts[w.agent].expiresAt
  }

  lemma AdvertLeads(recs: set<Operation>, ttl: U64, t0: Reading, t1: Reading, w: Operation)
    requires Settled(recs, ttl, t0, t1) && w in recs && w.OpAdvert?
    ensures Leads(Step(EmptyStore, ttl, Timed(w, t0)), t1, w, w.caps.digestSupport)
    ensures Step(EmptyStore, ttl, Timed(w, t0)).extensions == map[]
  {
    SettledExpiry(recs, ttl, t0, t1, w, t0);
  }

  lemma ExtensionOverLead(st: Store, recs: set<Operation>, ttl: U64, t0: Reading, t1: Reading, w: Operation,
                          x: Operation, bit: bool)
    requires Settled(recs, ttl, t0, t1) && x in recs && IsExtensionOf(x, w.agent) && w.OpAdvert?
             && Leads(st, t1, w, bit)
    requires w.agent in st.extensions ==> st.extensions[w.agent].createdAt < x.created
    ensures var after := Step(st, ttl, Timed(x, t0));
            && Leads(after, t1, w, if x.machine == w.machine then x.digest else bit)
            && w.agent in after.extensions && after.extensions[w.agent].createdAt == x.created
            && ExtensionMatches(after.extensions[w.agent], x) && t1 <= after.extensions[w.agent].expiresAt
  {
    SettledExpiry(recs, ttl, t0, t1, x, t0);
  }

  /** The latest advert, then an extension of its machine, then the latest extension: the
      middle one's bit stays. */
  lemma AdvertFirst(recs: set<Operation>, ttl: U64, t0: Reading, t1: Reading, w: Operation, x: Operation, l: Operation)
    requires Settled(recs, ttl, t0, t1) && OneContent(recs)
    requires LatestAdvert(recs, w) && LatestExtension(recs, l) && w.agent == l.agent && w.machine != l.machine
    requires x in recs && IsExtensionOf(x, w.agent) && x.machine == w.machine
    ensures Frozen(Run(ttl, [Timed(w, t0), Timed(x, t0), Timed(l, t0)]), t1, w, l, x.digest)
  {
    var tw, tx, tl := Timed(w, t0), Timed(x, t0), Timed(l, t0);
    assert x.created < l.created by { assert x.created == l.created ==> x == l; }
    RunOfThree(ttl, tw, tx, tl);
    var st1 := Step(EmptyStore, ttl, tw);
    AdvertLeads(recs, ttl, t0, t1, w);
    ExtensionOverLead(st1, recs, ttl, t0, t1, w, x, w.caps.digestSupport);
    ExtensionOverLead(Step(st1, ttl, tx), recs, ttl, t0, t1, w, l, x.digest);
  }

  lemma RunOfThree(ttl: U64, a: Timed, b: Timed, c: Timed)
    ensures Run(ttl, [a, b, c]) == Step(Step(Step(EmptyStore, ttl, a), ttl, b), ttl, c)
  {
    RunAppend(ttl, [], a);
    RunAppend(ttl, [a], b);
    RunAppend(ttl, [a, b], c);
    assert [] + [a] == [a] && [a] + [b] == [a, b] && [a, b] + [c] == [a, b, c];
  }

  /** Records that are not order free have two deliveries that end in different digest bits. */
  lemma NecessaryForOrder(recs: set<Operation>, ttl: U64, t0: Reading, t1: Reading)
    returns (run1: seq<Timed>, run2: seq<Timed>, agent: Id)
    requires Settled(recs, ttl, t0, t1) && OneContent(recs) && !OrderFree(recs)
    ensures Delivers(run1, recs, t0, t1) && Delivers(run2, recs, t0, t1)
    ensures View(Run(ttl, run1), agent) != View(Run(ttl, run2), agent)
  {
    var w, l :| w in recs && l in recs && LatestAdvert(recs, w) && LatestExtension(recs, l)
                && w.agent == l.agent && !Reconcilable(recs, w, l);
    var x :| x in recs && IsExtensionOf(x, w.agent) && x.machine == w.machine && x.digest != w.caps.digestSupport;
    var all := SomeDelivery(recs, t0);
    var p1, p2 := [Timed(l, t0)], [Timed(w, t0), Timed(x, t0), Timed(l, t0)];
    run1, run2, agent := p1 + all, p2 + all, w.agent;
    ExtensionFirst(recs, ttl, t0, t1, w, l);
    FrozenDelivery(recs, ttl, t0, t1, w, l, p1, all, w.caps.digestSupport);
    AdvertFirst(recs, ttl, t0, t1, w, x, l);
    FrozenDelivery(recs, ttl, t0, t1, w, l, p2, all, x.digest);
    DeliversLonger(p1, all, recs, t0, t1);
    DeliversLonger(p2, all, recs, t0, t1);
  }

  lemma DeliversLonger(prefix: seq<Timed>, all: seq<Timed>, recs: set<Operation>, t0: Reading, t1: Reading)
    requires t0 <= t1 && Delivers(all, recs, t0, t0)
    requires forall t <- prefix :: t.op in recs && t.now == t0
    ensures Delivers(prefix + all, recs, t0, t1)
  {
  }

  // ---------------------------------------------------------------- the theorem

  /** All deliveries of the records agree on every agent. */
  ghost predicate AllOrdersAgree(recs: set<Operation>, ttl: U64, t0: Reading, t1: Reading) {
    forall run1, run2, agent ::
      Delivers(run1, recs, t0, t1) && Delivers(run2, recs, t0, t1) ==>
        View(Run(ttl, run1), agent) == View(Run(ttl, run2), agent)
  }

  /** Arrival order and duplication do not matter if and only if the records are order free. */
  lemma OrderIndependentExactly(recs: set<Operation>, ttl: U64, t0: Reading, t1: Reading)
    requires Settled(recs, ttl, t0, t1) && OneContent(recs)
    ensures AllOrdersAgree(recs, ttl, t0, t1) <==> OrderFree(recs)
  {
    if OrderFree(recs) {
      forall run1, run2, agent | Delivers(run1, recs, t0, t1) && Delivers(run2, recs, t0, t1)
        ensures View(Run(ttl, run1), agent) == View(Run(ttl, run2), agent)
      {
        SufficientForOrder(recs, ttl, t0, t1, run1, run2, agent);
      }
    } else {
      var run1, run2, agent := NecessaryForOrder(recs, ttl, t0, t1);
    }
  }

  /** Extensions of each agent that all name one machine are always order free. */
  lemma OneMachineIsOrderFree(recs: set<Operation>)
    requires forall x <- recs, y <- recs :: x.OpExtension? && y.OpExtension? && x.agent == y.agent ==>
             x.machine == y.machine
    ensures OrderFree(recs)
  {
  }
}
