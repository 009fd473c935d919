/** A consumer's capability store fed by a publisher: once it has heard from the agent, a
    lookup never comes back empty, as long as delivery takes no longer than the TTL allows. */
module EndToEnd {
  import opened Bytes
  import opened Clock
  import opened AdvertCodec
  import CS = CapabilityStore
  import SH = StoreHistory
  import P = Publisher
  import T = PublisherTiming

  // ---------------------------------------------------------------- a store fed with timely adverts

  predicate AdvertFrom(op: CS.Operation, agent: CS.Id) {
    op.OpAdvert? && op.agent == agent
  }

  /** The agent's adverts are genuine and arrive within the delay, counted from an instant of
      the millisecond they are dated; no card of it is imported. */
  ghost predicate Timely(ops: seq<CS.Timed>, agent: CS.Id, first: Reading, delay: Instant) {
    forall i :: 0 <= i < |ops| ==>
      && !(ops[i].op.OpCard? && ops[i].op.agent == agent)
      && (AdvertFrom(ops[i].op, agent) ==>
            && Wall(first) <= ops[i].op.created
            && ops[i].op.created as real <= ops[i].now < ops[i].op.created as real + 1.0 + delay)
  }

  /** The agent was heard announcing at most `gap` apart, up to the last operation. */
  ghost predicate Announced(ops: seq<CS.Timed>, times: seq<Reading>, gap: Instant) {
    && times != []
    && (forall m, n :: 0 <= m < n < |times| && n == m + 1 ==> times[n] <= times[m] + gap)
    && (forall i :: 0 <= i < |ops| ==> ops[i].now <= times[|times| - 1] + gap)
  }

  /** Every steady advert has arrived when the delay is over. */
  ghost predicate AllDelivered(ops: seq<CS.Timed>, agent: CS.Id, times: seq<Reading>, delay: Instant) {
    forall n, i :: 0 <= n < |times| && 0 <= i < |ops| && times[n] + delay < ops[i].now ==>
      Delivered(ops, agent, Wall(times[n]), i)
  }

  /** The agent's adverts reach this store. Anything else may happen too: other agents,
      extensions, lookups, reordering, duplicates. */
  ghost predicate Fed(ops: seq<CS.Timed>, agent: CS.Id, times: seq<Reading>, gap: Instant, delay: Instant) {
    && SH.ClockAdvances(ops) && Announced(ops, times, gap)
    && Timely(ops, agent, times[0], delay) && AllDelivered(ops, agent, times, delay)
  }

  ghost predicate Delivered(ops: seq<CS.Timed>, agent: CS.Id, created: U64, i: nat)
    requires i <= |ops|
  {
    exists j :: 0 <= j < i && AdvertFrom(ops[j].op, agent) && ops[j].op.created == created
  }

  ghost predicate Heard(ops: seq<CS.Timed>, agent: CS.Id, i: nat)
    requires i <= |ops|
  {
    exists j :: 0 <= j < i && AdvertFrom(ops[j].op, agent)
  }

  /** The entry lives for a TTL from its date, or to the end of the clock. */
  predicate LivesOut(entry: CS.CachedAdvert, ttl: U64) {
    Earlier((entry.createdAt + ttl) as real, U64_MAX as real) <= entry.expiresAt
  }

  /** After `i` operations the store holds the newest advert delivered so far. */
  ghost predicate Current(st: CS.Store, ttl: U64, ops: seq<CS.Timed>, agent: CS.Id, i: nat)
    requires i <= |ops|
  {
    if !Heard(ops, agent, i) then agent !in st.adverts else
      && agent in st.adverts && LivesOut(st.adverts[agent], ttl)
      && forall j :: 0 <= j < i && AdvertFrom(ops[j].op, agent) ==> ops[j].op.created <= st.adverts[agent].createdAt
  }

  /** Walking the announcements backwards from one that may still be under way: whatever is
      dated at least as late as everything delivered is at most gap, delay and the rest of its
      millisecond old. */
  lemma {:induction false} NotOutlived(ops: seq<CS.Timed>, agent: CS.Id, times: seq<Reading>, gap: Instant,
                                       delay: Instant, i: nat, n: nat, newest: nat)
    requires Fed(ops, agent, times, gap, delay) && i < |ops| && n < |times|
    requires n + 1 < |times| ==> ops[i].now <= times[n + 1] + delay
    requires forall j :: 0 <= j < i && AdvertFrom(ops[j].op, agent) ==> ops[j].op.created <= newest
    requires Wall(times[0]) <= newest
    ensures ops[i].now < newest as real + 1.0 + gap + delay
  {
    if times[n] + delay < ops[i].now {
      assert Delivered(ops, agent, Wall(times[n]), i);
    } else if n > 0 {
      NotOutlived(ops, agent, times, gap, delay, i, n - 1, newest);
    }
  }

  /** A newer advert replaces what is stored, an older one does not. */
  lemma CurrentAdvert(ops: seq<CS.Timed>, agent: CS.Id, first: Reading, delay: Instant, ttl: U64, st: CS.Store, i: nat)
    requires Timely(ops, agent, first, delay) && delay + 1.0 <= ttl as real && i < |ops| && AdvertFrom(ops[i].op, agent)
    requires Current(st, ttl, ops, agent, i)
    ensures Current(CS.Step(st, ttl, ops[i]), ttl, ops, agent, i + 1)
  {
    var op, now := ops[i].op, ops[i].now;
    assert CS.Fresh(op.created, Wall(now), ttl);
    assert CS.Expiry(op.created, now, ttl).value
        == now + (Min(op.created + ttl, U64_MAX) - Wall(now)) as real;
  }

  /** Everything else leaves date and expiry of the agent's entry, unless a lookup finds it expired. */
  lemma CurrentOther(ops: seq<CS.Timed>, agent: CS.Id, first: Reading, delay: Instant, ttl: U64, st: CS.Store, i: nat)
    requires Timely(ops, agent, first, delay) && i < |ops| && !AdvertFrom(ops[i].op, agent)
    requires Current(st, ttl, ops, agent, i)
    requires ops[i].op == CS.OpLookup(agent) && agent in st.adverts ==> ops[i].now <= st.adverts[agent].expiresAt
    ensures Current(CS.Step(st, ttl, ops[i]), ttl, ops, agent, i + 1)
  {
    var st' := CS.Step(st, ttl, ops[i]);
    assert Heard(ops, agent, i + 1) == Heard(ops, agent, i);
    assert agent in st'.adverts <==> agent in st.adverts;
    assert agent in st.adverts ==>
             && st'.adverts[agent].createdAt == st.adverts[agent].createdAt
             && st'.adverts[agent].expiresAt == st.adverts[agent].expiresAt;
  }

  /** A lookup after the first delivery finds the entry alive. */
  lemma StillAlive(ops: seq<CS.Timed>, agent: CS.Id, times: seq<Reading>, gap: Instant, delay: Instant, ttl: U64,
                   st: CS.Store, i: nat)
    requires Fed(ops, agent, times, gap, delay) && gap + delay + 1.0 <= ttl as real && i < |ops|
    requires Current(st, ttl, ops, agent, i) && Heard(ops, agent, i)
    ensures agent in st.adverts && ops[i].now <= st.adverts[agent].expiresAt
  {
    var j :| 0 <= j < i && AdvertFrom(ops[j].op, agent);
    NotOutlived(ops, agent, times, gap, delay, i, |times| - 1, st.adverts[agent].createdAt);
  }

  lemma CurrentStep(ops: seq<CS.Timed>, agent: CS.Id, times: seq<Reading>, gap: Instant, delay: Instant, ttl: U64,
                    st: CS.Store, i: nat)
    requires Fed(ops, agent, times, gap, delay) && gap + delay + 1.0 <= ttl as real && i < |ops|
    requires Current(st, ttl, ops, agent, i)
    ensures Current(CS.Step(st, ttl, ops[i]), ttl, ops, agent, i + 1)
  {
    if AdvertFrom(ops[i].op, agent) {
      CurrentAdvert(ops, agent, times[0], delay, ttl, st, i);
    } else {
      if Heard(ops, agent, i) {
        StillAlive(ops, agent, times, gap, delay, ttl, st, i);
      }
      CurrentOther(ops, agent, times[0], delay, ttl, st, i);
    }
  }

  lemma RunOneMore(ttl: U64, ops: seq<CS.Timed>, i: nat)
    requires 0 < i <= |ops|
    ensures CS.Run(ttl, ops[..i]) == CS.Step(CS.Run(ttl, ops[..i - 1]), ttl, ops[i - 1])
  {
    assert ops[..i] == ops[..i - 1] + [ops[i - 1]];
    CS.RunAppend(ttl, ops[..i - 1], ops[i - 1]);
  }

  lemma {:induction false} AlwaysCurrent(ops: seq<CS.Timed>, agent: CS.Id, times: seq<Reading>, gap: Instant,
                                         delay: Instant, ttl: U64, i: nat)
    requires Fed(ops, agent, times, gap, delay) && gap + delay + 1.0 <= ttl as real && i <= |ops|
    ensures Current(CS.Run(ttl, ops[..i]), ttl, ops, agent, i)
  {
    if i > 0 {
      AlwaysCurrent(ops, agent, times, gap, delay, ttl, i - 1);
      CurrentStep(ops, agent, times, gap, delay, ttl, CS.Run(ttl, ops[..i - 1]), i - 1);
      RunOneMore(ttl, ops, i);
    }
  }

  /** A store whose TTL covers the announcement gap, the delivery delay and the millisecond that
      dating cuts off never loses an agent it has heard from. */
  lemma FedStoreNeverStale(ops: seq<CS.Timed>, agent: CS.Id, times: seq<Reading>, gap: Instant, delay: Instant,
                           ttl: U64, i: nat)
    requires Fed(ops, agent, times, gap, delay) && gap + delay + 1.0 <= ttl as real
    requires i < |ops| && Heard(ops, agent, i)
    ensures CS.Lookup(CS.Run(ttl, ops[..i]), ops[i].now, agent).1.Some?
  {
    AlwaysCurrent(ops, agent, times, gap, delay, ttl, i);
    StillAlive(ops, agent, times, gap, delay, ttl, CS.Run(ttl, ops[..i]), i);
  }

  // ---------------------------------------------------------------- fed by the publisher

  /** The default deployment: on demand, republishing every `ADVERT_PUBLISH_INTERVAL_SECS`. */
  const OnDemand := P.Config(600_000.0, false)

  /** The advert was built by the publisher at `built` and arrives within the delay. */
  predicate Carries(t: CS.Timed, built: Instant, delay: Instant)
    requires !t.op.OpLookup?
  {
    built < U64_MAX as real && t.op.created == Wall(built) && built <= t.now <= built + delay
  }

  /** The consumer's operations up to the publisher's present. `epoch` is when the publisher was
      spawned. Every advert of the agent that arrives was built by the publisher and arrives
      within the delay; every steady publish does arrive. */
  ghost predicate ListensTo(ops: seq<CS.Timed>, agent: CS.Id, s: P.State, epoch: Instant, delay: Instant) {
    && SH.ClockAdvances(ops)
    && (forall i :: 0 <= i < |ops| ==>
          ops[i].now <= epoch + s.now && !(ops[i].op.OpCard? && ops[i].op.agent == agent))
    && (forall i :: 0 <= i < |ops| && AdvertFrom(ops[i].op, agent) ==>
          exists e <- s.log :: e.Built? && Carries(ops[i], epoch + e.at, delay))
    && (forall x <- s.announced, i :: 0 <= i < |ops| && epoch + x.at + delay < ops[i].now ==>
          epoch + x.built < U64_MAX as real && Delivered(ops, agent, Wall(epoch + x.built), i))
  }

  /** The clock at the steady publishes; at the first one before it is out. */
  ghost function Dates(s: P.State, epoch: Instant): (times: seq<Reading>)
    requires epoch + s.now < U64_MAX as real && epoch + P.FIRST_PUBLISH_DELAY_MS < U64_MAX as real
    requires forall x <- s.announced :: x.at <= s.now
    ensures s.announced == [] ==> times == [epoch + P.FIRST_PUBLISH_DELAY_MS]
    ensures s.announced != [] ==>
              |times| == |s.announced| && forall n :: 0 <= n < |times| ==> times[n] == epoch + s.announced[n].at
  {
    if s.announced == [] then [epoch + P.FIRST_PUBLISH_DELAY_MS]
    else seq(|s.announced|, n requires 0 <= n < |s.announced| => epoch + s.announced[n].at)
  }

  /** What is known of a promptly scheduled publisher, by its announcements. */
  ghost predicate Announces(s: P.State, gap: Instant) {
    && T.GapsBounded(s.announced, gap)
    && (forall x <- s.announced :: x.built == x.at <= s.now)
    && (forall e <- s.log :: e.Built? ==> P.FIRST_PUBLISH_DELAY_MS <= e.at)
    && (if s.announced == [] then s.now <= P.FIRST_PUBLISH_DELAY_MS
        else s.announced[0].at == P.FIRST_PUBLISH_DELAY_MS && s.now <= s.announced[|s.announced| - 1].at + gap)
  }

  lemma ListenerTimely(ops: seq<CS.Timed>, agent: CS.Id, s: P.State, epoch: Instant, gap: Instant, delay: Instant)
    requires epoch + s.now < U64_MAX as real && epoch + P.FIRST_PUBLISH_DELAY_MS < U64_MAX as real
    requires Announces(s, gap) && ListensTo(ops, agent, s, epoch, delay)
    ensures Timely(ops, agent, epoch + P.FIRST_PUBLISH_DELAY_MS, delay)
  {
    forall i | 0 <= i < |ops| && AdvertFrom(ops[i].op, agent)
      ensures Wall(epoch + P.FIRST_PUBLISH_DELAY_MS) <= ops[i].op.created
      ensures ops[i].op.created as real <= ops[i].now < ops[i].op.created as real + 1.0 + delay
    {
      var e :| e in s.log && e.Built? && Carries(ops[i], epoch + e.at, delay);
    }
  }

  lemma ListenerDelivered(ops: seq<CS.Timed>, agent: CS.Id, s: P.State, epoch: Instant, gap: Instant, delay: Instant)
    requires epoch + s.now < U64_MAX as real && epoch + P.FIRST_PUBLISH_DELAY_MS < U64_MAX as real
    requires Announces(s, gap) && ListensTo(ops, agent, s, epoch, delay)
    ensures AllDelivered(ops, agent, Dates(s, epoch), delay)
  {
    var times := Dates(s, epoch);
    forall n, i | 0 <= n < |times| && 0 <= i < |ops| && times[n] + delay < ops[i].now
      ensures Delivered(ops, agent, Wall(times[n]), i)
    {
      var x := s.announced[n];
      assert x in s.announced && times[n] == epoch + x.at == epoch + x.built;
    }
  }

  lemma ListenerAnnounced(ops: seq<CS.Timed>, s: P.State, epoch: Instant, gap: Instant)
    requires epoch + s.now < U64_MAX as real && epoch + P.FIRST_PUBLISH_DELAY_MS < U64_MAX as real
    requires Announces(s, gap) && forall i :: 0 <= i < |ops| ==> ops[i].now <= epoch + s.now
    ensures Announced(ops, Dates(s, epoch), gap)
  {
  }

  lemma ListenerIsFed(ops: seq<CS.Timed>, agent: CS.Id, s: P.State, epoch: Instant, gap: Instant, delay: Instant)
    requires epoch + s.now < U64_MAX as real && epoch + P.FIRST_PUBLISH_DELAY_MS < U64_MAX as real
    requires Announces(s, gap) && ListensTo(ops, agent, s, epoch, delay)
    ensures Fed(ops, agent, Dates(s, epoch), gap, delay)
  {
    ListenerTimely(ops, agent, s, epoch, gap, delay);
    ListenerDelivered(ops, agent, s, epoch, gap, delay);
    ListenerAnnounced(ops, s, epoch, gap);
  }

  /** End to end: an on-demand or periodic publisher whose gap fits, with the delivery delay and
      a millisecond, into the consumer's TTL is never lost to a consumer that has heard from it. */
  lemma PublisherNeverLost(cfg: P.Config, schedule: seq<P.Action>, ops: seq<CS.Timed>, agent: CS.Id, epoch: Instant,
                           delay: Instant, ttl: U64, i: nat)
    requires T.MaxGap(cfg) + delay + 1.0 <= ttl as real
    requires var s := P.Run(P.Prompt, cfg, true, schedule);
             epoch + s.now < U64_MAX as real && ListensTo(ops, agent, s, epoch, delay)
    requires i < |ops| && Heard(ops, agent, i)
    ensures CS.Lookup(CS.Run(ttl, ops[..i]), ops[i].now, agent).1.Some?
  {
    var s := P.Run(P.Prompt, cfg, true, schedule);
    T.SteadyAdvertStaysFresh(cfg, schedule);
    T.StartsLate(P.Prompt, cfg, true, schedule);
    var j :| 0 <= j < i && AdvertFrom(ops[j].op, agent);
    var e :| e in s.log && e.Built? && Carries(ops[j], epoch + e.at, delay);
    ListenerIsFed(ops, agent, s, epoch, T.MaxGap(cfg), delay);
    FedStoreNeverStale(ops, agent, Dates(s, epoch), T.MaxGap(cfg), delay, ttl, i);
  }

  // ---------------------------------------------------------------- the shipped constants

  /** With the constants of the source, an interval of 600 s on demand and a TTL of 900 s: in
      every schedule of the publisher and every run of a consumer it reaches within the delay,
      a lookup after the first delivery finds the publisher. */
  ghost predicate NeverEmpty(delay: Instant) {
    forall schedule, ops: seq<CS.Timed>, agent, epoch: Instant, i: nat ::
      Listening(schedule, ops, agent, epoch, delay, i) ==>
      CS.Lookup(CS.Run(CS.ADVERT_CACHE_TTL_MS, ops[..i]), ops[i].now, agent).1.Some?
  }

  ghost predicate Listening(schedule: seq<P.Action>, ops: seq<CS.Timed>, agent: CS.Id, epoch: Instant, delay: Instant,
                            i: nat) {
    var s := P.Run(P.Prompt, OnDemand, true, schedule);
    && epoch + s.now < U64_MAX as real && ListensTo(ops, agent, s, epoch, delay)
    && i < |ops| && Heard(ops, agent, i)
  }

  /** The publisher after a request just before its next steady publish is due: the answering
      cycle is too early to publish, and the floor of a tenth of the interval defers the next. */
  function Deferred(early: Instant): P.State
    requires 0.0 < early < 1.0
  {
    var at := 600_250.0 - early;
    P.State(P.Waiting(at + 60_000.0), |P.STARTUP_BURST_MS|, Some(at), false, true, false, Some(250.0),
            at, 0, true, true, false, true,
            [P.Built(250.0), P.Requested(at), P.Built(at), P.Responded(at)], [P.Announcement(250.0, 250.0)])
  }

  /** The publisher when that request has come in. */
  function Asked(early: Instant): P.State
    requires 0.0 < early < 1.0
  {
    var s, at := P.Announced(OnDemand), 600_250.0 - early;
    s.(now := at, queue := 1, log := s.log + [P.Requested(at)])
  }

  lemma AskedRun(p: seq<P.Action>, early: Instant) returns (q: seq<P.Action>)
    requires 0.0 < early < 1.0 && P.Run(P.Prompt, OnDemand, true, p) == P.Announced(OnDemand)
    ensures P.Run(P.Prompt, OnDemand, true, q) == Asked(early)
  {
    var s0, wait := P.Announced(OnDemand), 600_000.0 - early;
    var s1 := s0.(now := 600_250.0 - early);
    P.GoTo(P.Prompt, OnDemand, p, s0, P.Tick(wait), s1);
    P.GoTo(P.Prompt, OnDemand, p + [P.Tick(wait)], s1, P.Request, Asked(early));
    q := p + [P.Tick(wait)] + [P.Request];
  }

  lemma DeferredRun(p: seq<P.Action>, early: Instant) returns (q: seq<P.Action>)
    requires 0.0 < early < 1.0 && P.Run(P.Prompt, OnDemand, true, p) == P.Announced(OnDemand)
    ensures P.Run(P.Prompt, OnDemand, true, q) == Deferred(early)
  {
    var s := Asked(early);
    var s' := s.(queue := 0, responsePending := true, steadyCycle := false, phase := P.CycleTop);
    q := AskedRun(p, early);
    FirstRequestTaken(s);
    P.GoTo(P.Prompt, OnDemand, q, s, P.Receive, s');
    q := AnsweredRun(q + [P.Receive], early, s');
  }

  /** With no response yet, a request starts a cycle at once. */
  lemma FirstRequestTaken(s: P.State)
    requires s.phase.Waiting? && s.queue == 1 && s.requestsOpen && s.lastTargeted.None?
    ensures P.Permitted(P.Prompt, s, P.Receive)
    ensures P.Next(OnDemand, s, P.Receive)
         == s.(queue := 0, responsePending := true, steadyCycle := false, phase := P.CycleTop)
  {
  }

  lemma AnsweredRun(p: seq<P.Action>, early: Instant, s: P.State) returns (q: seq<P.Action>)
    requires 0.0 < early < 1.0 && P.Run(P.Prompt, OnDemand, true, p) == s
    requires s == Asked(early).(queue := 0, responsePending := true, steadyCycle := false, phase := P.CycleTop)
    ensures P.Run(P.Prompt, OnDemand, true, q) == Deferred(early)
  {
    var s1 := s.(phase := P.PublishingDigest(s.now), log := s.log + [P.Built(s.now)]);
    var s2 := s1.(phase := P.PublishingTargeted(s.now));
    P.GoTo(P.Prompt, OnDemand, p, s, P.Begin(true), s1);
    P.GoTo(P.Prompt, OnDemand, p + [P.Begin(true)], s1, P.DigestDone, s2);
    assert s2.log + [P.Responded(s.now)] == Deferred(early).log;
    P.GoTo(P.Prompt, OnDemand, p + [P.Begin(true)] + [P.DigestDone], s2, P.TargetedDone(true), Deferred(early));
    q := p + [P.Begin(true)] + [P.DigestDone] + [P.TargetedDone(true)];
  }

  /** The second steady publish comes almost 660 s after the first; 240 s later the first one's
      TTL is over. */
  ghost predicate Late(s: P.State, early: Instant)
    requires early < 1.0
  {
    && s.now == 900_250.0 - early && P.Built(250.0) in s.log
    && s.announced == [P.Announcement(250.0, 250.0), P.Announcement(660_250.0 - early, 660_250.0 - early)]
  }

  lemma LateRun(p: seq<P.Action>, early: Instant) returns (q: seq<P.Action>)
    requires 0.0 < early < 1.0 && P.Run(P.Prompt, OnDemand, true, p) == Deferred(early)
    ensures Late(P.Run(P.Prompt, OnDemand, true, q), early)
  {
    var s0 := Deferred(early);
    var s1 := s0.(now := 660_250.0 - early);
    var s2 := s1.(steadyCycle := true, phase := P.CycleTop);
    P.GoTo(P.Prompt, OnDemand, p, s0, P.Tick(60_000.0), s1);
    P.GoTo(P.Prompt, OnDemand, p + [P.Tick(60_000.0)], s1, P.TimerBeat, s2);
    q := LastCycle(p + [P.Tick(60_000.0)] + [P.TimerBeat], early, s2);
  }

  lemma LastCycle(p: seq<P.Action>, early: Instant, s: P.State) returns (q: seq<P.Action>)
    requires 0.0 < early < 1.0 && P.Run(P.Prompt, OnDemand, true, p) == s
    requires s == Deferred(early).(now := 660_250.0 - early, steadyCycle := true, phase := P.CycleTop)
    ensures Late(P.Run(P.Prompt, OnDemand, true, q), early)
  {
    var s1 := s.(phase := P.PublishingDigest(s.now), log := s.log + [P.Built(s.now)]);
    var s2 := s1.(phase := P.PublishingSteady(s.now));
    P.GoTo(P.Prompt, OnDemand, p, s, P.Begin(true), s1);
    P.GoTo(P.Prompt, OnDemand, p + [P.Begin(true)], s1, P.DigestDone, s2);
    q := LastSteady(p + [P.Begin(true)] + [P.DigestDone], early, s2);
  }

  lemma LastSteady(p: seq<P.Action>, early: Instant, s: P.State) returns (q: seq<P.Action>)
    requires 0.0 < early < 1.0 && P.Run(P.Prompt, OnDemand, true, p) == s
    requires var at := 660_250.0 - early;
             s == Deferred(early).(now := at, steadyCycle := true, phase := P.PublishingSteady(at),
                                   log := Deferred(early).log + [P.Built(at)])
    ensures Late(P.Run(P.Prompt, OnDemand, true, q), early)
  {
    var s' := s.(phase := P.Waiting(s.now + 600_000.0), lastSteady := Some(s.now),
                 announced := s.announced + [P.Announcement(s.now, s.now)]);
    P.GoTo(P.Prompt, OnDemand, p, s, P.SteadyDone(true), s');
    P.GoTo(P.Prompt, OnDemand, p + [P.SteadyDone(true)], s', P.Tick(240_000.0), s'.(now := 900_250.0 - early));
    q := p + [P.SteadyDone(true)] + [P.Tick(240_000.0)];
  }

  /** A consumer that got the first advert a moment after it was built, and looks it up when the
      second is still on its way. */
  function LateOps(eta: Instant): seq<CS.Timed>
    requires eta <= 1.0
  {
    [CS.Timed(CS.OpAdvert(0, 0, Caps(1, true, [], 0, [], false), 250), 251.0),
     CS.Timed(CS.OpLookup(0), 900_250.0 + eta / 4.0)]
  }

  /** The second advert has until after the lookup to arrive. */
  lemma SecondUnderWay(s: P.State, delay: Instant, eta: Instant)
    requires 0.0 < eta <= 1.0 && 239_999.0 + eta <= delay && Late(s, eta / 4.0)
    ensures var epoch, ops := 1.0 - eta / 4.0, LateOps(eta);
            forall x <- s.announced, i :: 0 <= i < |ops| && epoch + x.at + delay < ops[i].now ==>
              epoch + x.built < U64_MAX as real && Delivered(ops, 0, Wall(epoch + x.built), i)
  {
    var epoch, ops := 1.0 - eta / 4.0, LateOps(eta);
    forall x <- s.announced, i | 0 <= i < |ops| && epoch + x.at + delay < ops[i].now
      ensures epoch + x.built < U64_MAX as real && Delivered(ops, 0, Wall(epoch + x.built), i)
    {
      assert x == s.announced[0] && i == 1;
      assert Wall(epoch + 250.0) == 250 && AdvertFrom(ops[0].op, 0);
    }
  }

  lemma LateOpsListen(s: P.State, delay: Instant, eta: Instant)
    requires 0.0 < eta <= 1.0 && 239_999.0 + eta <= delay && Late(s, eta / 4.0)
    ensures ListensTo(LateOps(eta), 0, s, 1.0 - eta / 4.0, delay) && Heard(LateOps(eta), 0, 1)
  {
    var ops := LateOps(eta);
    SecondUnderWay(s, delay, eta);
    assert Wall(1.0 - eta / 4.0 + 250.0) == 250;
    assert Carries(ops[0], 1.0 - eta / 4.0 + P.Built(250.0).at, delay);
    assert AdvertFrom(ops[0].op, 0);
  }

  lemma LostForAMoment(schedule: seq<P.Action>, delay: Instant, eta: Instant)
    requires 0.0 < eta <= 1.0 && 239_999.0 + eta <= delay
    requires Late(P.Run(P.Prompt, OnDemand, true, schedule), eta / 4.0)
    ensures !NeverEmpty(delay)
  {
    LateOpsListen(P.Run(P.Prompt, OnDemand, true, schedule), delay, eta);
    assert Listening(schedule, LateOps(eta), 0, 1.0 - eta / 4.0, delay, 1);
    ExpiredAfterTtl(LateOps(eta));
  }

  lemma ExpiredAfterTtl(ops: seq<CS.Timed>)
    requires |ops| == 2 && ops[0].op.OpAdvert? && ops[0].op.created == 250 && ops[0].now == 251.0
             && ops[1].now > 900_250.0
    ensures CS.Lookup(CS.Run(CS.ADVERT_CACHE_TTL_MS, ops[..1]), ops[1].now, ops[0].op.agent).1.None?
  {
    RunOneMore(CS.ADVERT_CACHE_TTL_MS, ops, 1);
    assert ops[..0] == [] && Wall(251.0) == 251;
  }

  /** The delivery delay the shipped constants tolerate, exactly: 240 s, which with the largest
      gap of 660 s uses up the TTL of 900 s, less the millisecond that dating cuts off. */
  lemma LookupNeverEmptyExactly(delay: Instant)
    ensures NeverEmpty(delay) <==> delay <= 239_999.0
  {
    if delay <= 239_999.0 {
      forall schedule, ops: seq<CS.Timed>, agent, epoch: Instant, i: nat
        | Listening(schedule, ops, agent, epoch, delay, i)
        ensures CS.Lookup(CS.Run(CS.ADVERT_CACHE_TTL_MS, ops[..i]), ops[i].now, agent).1.Some?
      {
        PublisherNeverLost(OnDemand, schedule, ops, agent, epoch, delay, CS.ADVERT_CACHE_TTL_MS, i);
      }
    } else {
      var eta: Instant := Earlier(delay - 239_999.0, 1.0);
      var p := P.FirstAnnouncement(P.Prompt, OnDemand);
      p := DeferredRun(p, eta / 4.0);
      p := LateRun(p, eta / 4.0);
      LostForAMoment(p, delay, eta);
    }
  }
}
