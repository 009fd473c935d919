/** The promptly scheduled publisher is never stuck: from wherever it is, its own steps take
    it to any later time, so the timing guarantees are about runs that go on. */
module PublisherProgress {
  import opened Bytes
  import opened Clock
  import opened Publisher
  import opened PublisherTiming

  /** The least time a publisher sleeps between two cycles if nobody disturbs it. */
  function Beat(cfg: Config): Instant {
    Earlier(STARTUP_BURST_MS[0], cfg.interval / 10.0)
  }

  /** The schedule goes on from `p` to `q`, and no time is lost. */
  ghost predicate GoesOn(cfg: Config, p: seq<Action>, q: seq<Action>) {
    p <= q && Run(Prompt, cfg, true, p).now <= Run(Prompt, cfg, true, q).now
  }

  lemma Take(cfg: Config, p: seq<Action>, a: Action)
    requires Permitted(Prompt, Run(Prompt, cfg, true, p), a)
    ensures Run(Prompt, cfg, true, p + [a]) == Next(cfg, Run(Prompt, cfg, true, p), a)
    ensures GoesOn(cfg, p, p + [a])
  {
    RunAppend(Prompt, cfg, true, p, a);
  }

  /** Asleep with a whole beat to go, and every request so far taken. */
  predicate Rested(cfg: Config, s: State) {
    s.phase.Waiting? && s.now + Beat(cfg) <= s.phase.deadline && s.queue == 0
  }

  lemma ScheduleRests(cfg: Config, s: State)
    requires s.queue == 0
    ensures Rested(cfg, Schedule(cfg, s))
  {
  }

  /** The cycle ends, at rest if no new request came in. */
  ghost predicate Ends(cfg: Config, p: seq<Action>, q: seq<Action>) {
    var s, r := Run(Prompt, cfg, true, p), Run(Prompt, cfg, true, q);
    GoesOn(cfg, p, q) && r.phase.Waiting? && r.capsChanged == s.capsChanged && (s.queue == 0 ==> Rested(cfg, r))
  }

  lemma EndSteady(cfg: Config, p: seq<Action>) returns (q: seq<Action>)
    requires Run(Prompt, cfg, true, p).phase.PublishingSteady?
    ensures Ends(cfg, p, q)
  {
    Take(cfg, p, SteadyDone(true));
    q := p + [SteadyDone(true)];
  }

  /** What the publishes before the steady one lead to. */
  lemma EndCheck(cfg: Config, p: seq<Action>, a: Action, before: State, built: Instant) returns (q: seq<Action>)
    requires var s := Run(Prompt, cfg, true, p);
             && Permitted(Prompt, s, a) && before.now == s.now && before.queue == s.queue
             && before.capsChanged == s.capsChanged
             && Next(cfg, s, a) == SteadyCheck(cfg, before, built)
    ensures Ends(cfg, p, q)
  {
    Take(cfg, p, a);
    q := p + [a];
    if Run(Prompt, cfg, true, q).phase.PublishingSteady? {
      q := EndSteady(cfg, q);
    } else {
      ScheduleRests(cfg, before.(queue := 0));
    }
  }

  lemma EndTargeted(cfg: Config, p: seq<Action>) returns (q: seq<Action>)
    requires Run(Prompt, cfg, true, p).phase.PublishingTargeted?
    ensures Ends(cfg, p, q)
  {
    var s := Run(Prompt, cfg, true, p);
    TargetedIsResponding(cfg, s);
    q := EndCheck(cfg, p, TargetedDone(true), Responding(s), s.phase.built);
  }

  lemma EndDigest(cfg: Config, p: seq<Action>) returns (q: seq<Action>)
    requires Run(Prompt, cfg, true, p).phase.PublishingDigest?
    ensures Ends(cfg, p, q)
  {
    var s := Run(Prompt, cfg, true, p);
    if s.responsePending {
      Take(cfg, p, DigestDone);
      q := EndTargeted(cfg, p + [DigestDone]);
    } else {
      q := EndCheck(cfg, p, DigestDone, s, s.phase.built);
    }
  }

  lemma RunCycle(cfg: Config, p: seq<Action>) returns (q: seq<Action>)
    requires Run(Prompt, cfg, true, p).phase.CycleTop?
    ensures var s, r := Run(Prompt, cfg, true, p), Run(Prompt, cfg, true, q);
            GoesOn(cfg, p, q) && Rested(cfg, r) && r.capsChanged == s.capsChanged
  {
    FreshAlways(cfg, p);
    Take(cfg, p, Begin(true));
    q := EndDigest(cfg, p + [Begin(true)]);
  }

  /** A waiting publisher takes its requests one by one, or its timer runs out. */
  lemma {:induction false} WaitingToTop(cfg: Config, p: seq<Action>) returns (q: seq<Action>)
    requires Run(Prompt, cfg, true, p).phase.Waiting?
    ensures GoesOn(cfg, p, q) && Run(Prompt, cfg, true, q).phase.CycleTop?
    decreases Run(Prompt, cfg, true, p).queue, Run(Prompt, cfg, true, p).requestsOpen
  {
    var s := Run(Prompt, cfg, true, p);
    if CapsReady(s) {
      Take(cfg, p, CapsSeen);
      q := p + [CapsSeen];
    } else if RequestReady(s) {
      TakeRequest(cfg, p);
      q := p + [Receive];
      if !Run(Prompt, cfg, true, q).phase.CycleTop? {
        q := WaitingToTop(cfg, q);
      }
    } else {
      q := SleepToBeat(cfg, p);
    }
  }

  /** A request read, or the end of requests seen, brings the publisher closer to the top. */
  lemma TakeRequest(cfg: Config, p: seq<Action>)
    requires var s := Run(Prompt, cfg, true, p); s.phase.Waiting? && RequestReady(s)
    ensures var s, r := Run(Prompt, cfg, true, p), Run(Prompt, cfg, true, p + [Receive]);
            && GoesOn(cfg, p, p + [Receive])
            && (r.phase.CycleTop? || r.phase.Waiting?)
            && (r.queue < s.queue || (r.queue == s.queue && s.requestsOpen && !r.requestsOpen))
  {
    Take(cfg, p, Receive);
  }

  lemma SleepToBeat(cfg: Config, p: seq<Action>) returns (q: seq<Action>)
    requires var s := Run(Prompt, cfg, true, p); s.phase.Waiting? && !CapsReady(s) && !RequestReady(s)
    ensures GoesOn(cfg, p, q) && Run(Prompt, cfg, true, q).phase.CycleTop?
  {
    var s := Run(Prompt, cfg, true, p);
    FreshAlways(cfg, p);
    Take(cfg, p, Tick(s.phase.deadline - s.now));
    q := p + [Tick(s.phase.deadline - s.now)];
    Take(cfg, q, TimerBeat);
    q := q + [TimerBeat];
  }

  /** From anywhere to the top of the loop. */
  lemma ToTop(cfg: Config, p: seq<Action>) returns (q: seq<Action>)
    ensures GoesOn(cfg, p, q) && Run(Prompt, cfg, true, q).phase.CycleTop?
  {
    var s := Run(Prompt, cfg, true, p);
    FreshAlways(cfg, p);
    q := p;
    if s.phase.Starting? {
      Take(cfg, q, Tick(s.phase.deadline - s.now));
      q := q + [Tick(s.phase.deadline - s.now)];
      Take(cfg, q, Wake);
      q := q + [Wake];
    } else if !s.phase.CycleTop? {
      q := ToWaiting(cfg, q);
      q := WaitingToTop(cfg, q);
    }
  }

  lemma ToWaiting(cfg: Config, p: seq<Action>) returns (q: seq<Action>)
    requires var s := Run(Prompt, cfg, true, p); Publishing(s.phase) || s.phase.Waiting?
    ensures GoesOn(cfg, p, q) && Run(Prompt, cfg, true, q).phase.Waiting?
  {
    match Run(Prompt, cfg, true, p).phase
    case PublishingDigest(_) => q := EndDigest(cfg, p);
    case PublishingTargeted(_) => q := EndTargeted(cfg, p);
    case PublishingSteady(_) => q := EndSteady(cfg, p);
    case Waiting(_) => q := p;
  }

  /** A beat passes. */
  lemma OneBeat(cfg: Config, p: seq<Action>) returns (q: seq<Action>)
    ensures p <= q && Run(Prompt, cfg, true, p).now + Beat(cfg) <= Run(Prompt, cfg, true, q).now
  {
    q := ToTop(cfg, p);
    q := RunCycle(cfg, q);
    if Run(Prompt, cfg, true, q).capsChanged {
      Take(cfg, q, CapsSeen);
      q := q + [CapsSeen];
      q := RunCycle(cfg, q);
    }
    q := SleepOn(cfg, q);
  }

  lemma SleepOn(cfg: Config, p: seq<Action>) returns (q: seq<Action>)
    requires var s := Run(Prompt, cfg, true, p); Rested(cfg, s) && !s.capsChanged
    ensures p <= q && Run(Prompt, cfg, true, p).now + Beat(cfg) <= Run(Prompt, cfg, true, q).now
  {
    FreshAlways(cfg, p);
    q := p;
    if RequestReady(Run(Prompt, cfg, true, q)) {
      Take(cfg, q, Receive);
      q := q + [Receive];
    }
    Take(cfg, q, Tick(Beat(cfg)));
    q := q + [Tick(Beat(cfg))];
  }

  lemma {:induction false} ManyBeats(cfg: Config, p: seq<Action>, n: nat) returns (q: seq<Action>)
    ensures p <= q && Run(Prompt, cfg, true, p).now + n as real * Beat(cfg) <= Run(Prompt, cfg, true, q).now
  {
    q := p;
    if n > 0 {
      q := ManyBeats(cfg, p, n - 1);
      q := OneBeat(cfg, q);
      assert n as real * Beat(cfg) == (n - 1) as real * Beat(cfg) + Beat(cfg);
    }
  }

  /** Every schedule, whatever requests and changes it has seen, can go on past any given time. */
  lemma TimeGoesOn(cfg: Config, p: seq<Action>, time: Instant) returns (q: seq<Action>)
    requires cfg.interval > 0.0
    ensures p <= q && time <= Run(Prompt, cfg, true, q).now
  {
    var beat := Beat(cfg);
    var n: nat := (time / beat).Floor + 1;
    assert time <= n as real * beat by {
      assert time / beat <= n as real;
      assert time / beat * beat == time;
    }
    q := ManyBeats(cfg, p, n);
  }
}
