/** The advert publisher task of `src/dm_capability_service.rs` as a timed state machine.
    Every `await` of the publisher is a phase; between two steps of the publisher the rest of the
    world may let time pass, ask for an advert or change the capabilities. Times are in
    milliseconds since the publisher was spawned. */
module Publisher {
  import opened Bytes
  import opened Clock

  const FIRST_PUBLISH_DELAY_MS: Instant := 250.0
  const MIN_TARGETED_RESPONSE_INTERVAL_MS: Instant := 1_000.0
  const STARTUP_BURST_MS: seq<Instant> := [5_000.0, 10_000.0, 20_000.0, 45_000.0]
  const REQUEST_QUEUE_DEPTH: nat := 16

  /** The publish interval and whether the fleet-wide steady beat is on. */
  datatype Config = Config(interval: Instant, periodic: bool)

  /** Where the publisher is. `built` is when the advert of this cycle was signed. */
  datatype Phase =
    | Starting(deadline: Instant)
    | CycleTop
    | PublishingDigest(built: Instant)
    | PublishingTargeted(built: Instant)
    | PublishingSteady(built: Instant)
    | Waiting(deadline: Instant)
    | NotReady(deadline: Instant)

  /** What others can observe, in order. */
  datatype Event =
    | Requested(at: Instant)
    | Built(at: Instant)
    | Responded(at: Instant)

  /** A successful publish on the steady topic. */
  datatype Announcement = Announcement(built: Instant, at: Instant)

  datatype State = State(
    // the publisher's variables
    phase: Phase,
    burstIdx: nat,
    lastTargeted: Option<Instant>,
    responsePending: bool,
    requestsOpen: bool,
    steadyCycle: bool,
    lastSteady: Option<Instant>,
    // its surroundings
    now: Instant,
    queue: nat,
    requestersAlive: bool,
    publishable: bool,
    capsChanged: bool,
    capsAlive: bool,
    // what it has done
    log: seq<Event>,
    announced: seq<Announcement>)

  datatype Action =
    // surroundings
    | Tick(ms: Instant)
    | Request
    | SetCaps(ready: bool)
    | DropCapsSender
    | DropRequesters
    // the publisher
    | Wake
    | Begin(buildOk: bool)
    | DigestDone
    | TargetedDone(ok: bool)
    | SteadyDone(ok: bool)
    | TimerBeat
    | CapsSeen
    | Receive

  function Initial(cfg: Config, publishable: bool): State {
    State(Starting(FIRST_PUBLISH_DELAY_MS), if cfg.periodic then 0 else |STARTUP_BURST_MS|,
          None, false, true, true, None,
          0.0, 0, true, publishable, false, true, [], [])
  }

  // ---------------------------------------------------------------- the publisher's steps

  /** Time since an earlier reading of the clock. */
  function Elapsed(s: State, since: Instant): Instant {
    if s.now >= since then s.now - since else 0.0
  }

  /** `next_delay` */
  function NextDelay(cfg: Config, s: State): Instant {
    if s.burstIdx < |STARTUP_BURST_MS| then STARTUP_BURST_MS[s.burstIdx]
    else if cfg.periodic then cfg.interval
    else
      var remaining := match s.lastSteady
                       case None => cfg.interval
                       case Some(last) => Later(cfg.interval - Elapsed(s, last), 0.0);
      Later(remaining, cfg.interval / 10.0)
  }

  /** Nothing was published on the steady topic and no time passed. */
  predicate SameAnnouncements(s: State, r: State) {
    r.now == s.now && r.lastSteady == s.lastSteady && r.announced == s.announced
  }

  /** Arm the wake-up timer at the end of a cycle. */
  function Schedule(cfg: Config, s: State): (r: State)
    ensures r.phase.Waiting? && r == s.(phase := r.phase, burstIdx := r.burstIdx)
  {
    s.(phase := Waiting(s.now + NextDelay(cfg, s)),
       burstIdx := if s.burstIdx < |STARTUP_BURST_MS| then s.burstIdx + 1 else s.burstIdx)
  }

  /** `steady_fallback_due` */
  predicate FallbackDue(cfg: Config, s: State) {
    s.lastSteady.None? || Elapsed(s, s.lastSteady.value) >= cfg.interval
  }

  /** After the requesters were answered: publish on the steady topic, or go to sleep. */
  function SteadyCheck(cfg: Config, s: State, built: Instant): (r: State)
    ensures r.phase.Waiting? || r.phase == PublishingSteady(built)
    ensures r.phase.PublishingSteady? <==> (cfg.periodic && s.steadyCycle) || FallbackDue(cfg, s)
    ensures r == s.(phase := r.phase, burstIdx := r.burstIdx)
  {
    if (cfg.periodic && s.steadyCycle) || FallbackDue(cfg, s)
    then s.(phase := PublishingSteady(built))
    else Schedule(cfg, s)
  }

  /** Top of the loop: drain the queue, look at the capabilities, build and sign. */
  function BeginCycle(cfg: Config, s: State, buildOk: bool): (r: State)
    ensures SameAnnouncements(s, r) && !r.phase.Starting?
    ensures r.phase.PublishingSteady? ==> (cfg.periodic && s.steadyCycle) || FallbackDue(cfg, r)
  {
    BuildAdvert(cfg, s.(queue := 0, responsePending := s.responsePending || s.queue > 0), buildOk)
  }

  /** Look at the capabilities; build and sign, or wait for better ones. */
  function BuildAdvert(cfg: Config, s: State, buildOk: bool): (r: State)
    ensures SameAnnouncements(s, r) && !r.phase.Starting? && !r.phase.PublishingSteady?
  {
    if !s.publishable then s.(phase := NotReady(s.now + cfg.interval))
    else if !buildOk then Schedule(cfg, s)
    else s.(phase := PublishingDigest(s.now), log := s.log + [Built(s.now)])
  }

  function FinishDigest(cfg: Config, s: State, built: Instant): (r: State)
    ensures SameAnnouncements(s, r) && !r.phase.Starting?
    ensures r.phase.PublishingSteady? ==> (cfg.periodic && s.steadyCycle) || FallbackDue(cfg, r)
  {
    if s.responsePending then s.(phase := PublishingTargeted(built)) else SteadyCheck(cfg, s, built)
  }

  function FinishTargeted(cfg: Config, s: State, built: Instant, ok: bool): (r: State)
    ensures SameAnnouncements(s, r) && !r.phase.Starting?
    ensures r.phase.PublishingSteady? ==> (cfg.periodic && s.steadyCycle) || FallbackDue(cfg, r)
  {
    var answered := s.(lastTargeted := Some(s.now), responsePending := false, log := s.log + [Responded(s.now)]);
    SteadyCheck(cfg, if ok then answered else s, built)
  }

  function FinishSteady(cfg: Config, s: State, built: Instant, ok: bool): (r: State)
    ensures r.phase.Waiting? && r.now == s.now && r.log == s.log
  {
    if ok
    then Schedule(cfg, s.(lastSteady := Some(s.now), announced := s.announced + [Announcement(built, s.now)]))
    else Schedule(cfg, s)
  }

  /** A request read while waiting: answer at once, or bring the wake-up forward. */
  function ReceiveWaiting(s: State, deadline: Instant): (r: State)
    ensures r == s.(phase := r.phase, queue := r.queue, responsePending := r.responsePending,
                    requestsOpen := r.requestsOpen, steadyCycle := r.steadyCycle)
    ensures r.phase == s.phase || r.phase.CycleTop?
            || (r.phase.Waiting? && s.now < r.phase.deadline && r.phase.deadline <= deadline)
            || (r.phase.Waiting? && r.phase.deadline == deadline)
  {
    if s.queue == 0 then s.(requestsOpen := false)
    else
      var earliest := if s.lastTargeted.None? then s.now else s.lastTargeted.value + MIN_TARGETED_RESPONSE_INTERVAL_MS;
      var taken := s.(queue := s.queue - 1, responsePending := true);
      if earliest <= s.now then taken.(steadyCycle := false, phase := CycleTop)
      else taken.(phase := Waiting(Earlier(earliest, deadline)))
  }

  /** A request, or the end of requests, read while the capabilities are not ready. */
  function ReceiveNotReady(s: State): State {
    if s.queue == 0 then s.(requestsOpen := false, phase := CycleTop)
    else s.(queue := s.queue - 1, responsePending := true, phase := CycleTop)
  }

  /** `changed()` resolved: with the new capabilities, or because their sender is gone. */
  function SeeCaps(s: State): State {
    var updated := s.capsChanged;
    s.(capsChanged := false,
       burstIdx := if updated then 0 else s.burstIdx,
       steadyCycle := s.steadyCycle || updated || s.phase.Waiting?,
       phase := CycleTop)
  }

  predicate RequestReady(s: State) {
    s.requestsOpen && (s.queue > 0 || !s.requestersAlive)
  }

  predicate CapsReady(s: State) {
    s.capsChanged || !s.capsAlive
  }

  /** Which of the publisher's steps can be taken. */
  predicate Enabled(s: State, a: Action) {
    match a
    case Wake => s.phase.Starting? && s.phase.deadline <= s.now
    case Begin(_) => s.phase.CycleTop?
    case DigestDone => s.phase.PublishingDigest?
    case TargetedDone(_) => s.phase.PublishingTargeted?
    case SteadyDone(_) => s.phase.PublishingSteady?
    case TimerBeat => (s.phase.Waiting? || s.phase.NotReady?) && s.phase.deadline <= s.now
    case CapsSeen => (s.phase.Waiting? || s.phase.NotReady?) && CapsReady(s)
    case Receive => (s.phase.Waiting? || s.phase.NotReady?) && RequestReady(s)
    case Tick(_) => true
    case Request => s.requestersAlive
    case SetCaps(_) => s.capsAlive
    case DropCapsSender => true
    case DropRequesters => true
  }

  /** What a step adds to the log. */
  function Logged(s: State, a: Action): seq<Event> {
    match a
    case Request => [Requested(s.now)]
    case Begin(ok) => if ok && s.publishable then [Built(s.now)] else []
    case TargetedDone(ok) => if ok then [Responded(s.now)] else []
    case _ => []
  }

  /** What the surroundings do to the clock and the channels. */
  function Disturb(s: State, a: Action): State {
    match a
    case Tick(ms) => s.(now := s.now + ms)
    case Request => s.(queue := Min(s.queue + 1, REQUEST_QUEUE_DEPTH), log := s.log + [Requested(s.now)])
    case SetCaps(ready) => s.(publishable := ready, capsChanged := true)
    case DropCapsSender => s.(capsAlive := false)
    case DropRequesters => s.(requestersAlive := false)
    case _ => s
  }

  function Next(cfg: Config, s: State, a: Action): (r: State)
    requires Enabled(s, a)
    ensures r.log == s.log + Logged(s, a)
  {
    match a
    case Wake => s.(phase := CycleTop)
    case Begin(buildOk) => BeginCycle(cfg, s, buildOk)
    case DigestDone => FinishDigest(cfg, s, s.phase.built)
    case TargetedDone(ok) => FinishTargeted(cfg, s, s.phase.built, ok)
    case SteadyDone(ok) => FinishSteady(cfg, s, s.phase.built, ok)
    case TimerBeat => s.(steadyCycle := s.steadyCycle || s.phase.Waiting?, phase := CycleTop)
    case CapsSeen => SeeCaps(s)
    case Receive => if s.phase.Waiting? then ReceiveWaiting(s, s.phase.deadline) else ReceiveNotReady(s)
    case _ => Disturb(s, a)
  }

  // ---------------------------------------------------------------- schedules

  /** Two kinds of surroundings: any at all, or one in which the publisher is scheduled promptly,
      publishes succeed at once and the capabilities stay publishable. */
  datatype World = Anything | Prompt

  /** The publisher sleeps and nothing it waits for is due before `ms` more have passed. */
  predicate Asleep(s: State, ms: Instant) {
    && (s.phase.Starting? || s.phase.Waiting?)
    && s.now + ms <= s.phase.deadline
    && (s.phase.Waiting? ==> !RequestReady(s) && !CapsReady(s))
  }

  predicate Permitted(w: World, s: State, a: Action) {
    && Enabled(s, a)
    && (w == Prompt ==>
          match a
          case Tick(ms) => Asleep(s, ms)
          case Begin(ok) => ok
          case TargetedDone(ok) => ok
          case SteadyDone(ok) => ok
          case SetCaps(ready) => ready
          case DropCapsSender => false
          case _ => true)
  }

  /** One step of the schedule; what is not permitted does not happen. */
  function Step(w: World, cfg: Config, s: State, a: Action): State {
    if Permitted(w, s, a) then Next(cfg, s, a) else s
  }

  /** The state a schedule leads to. */
  function Run(w: World, cfg: Config, publishable: bool, schedule: seq<Action>): State {
    if schedule == [] then Initial(cfg, publishable)
    else Step(w, cfg, Run(w, cfg, publishable, schedule[..|schedule| - 1]), schedule[|schedule| - 1])
  }

  // ---------------------------------------------------------------- steady-topic rate bound

  /** Successful steady publishes lie at least `interval` apart. */
  ghost predicate Spaced(announced: seq<Announcement>, interval: Instant) {
    forall i, j :: 0 <= i < j < |announced| ==> announced[i].at + interval <= announced[j].at
  }

  ghost predicate LastSteadyRecorded(s: State) {
    if s.announced == [] then s.lastSteady.None?
    else s.lastSteady == Some(s.announced[|s.announced| - 1].at) && s.lastSteady.value <= s.now
  }

  ghost predicate RateInvariant(cfg: Config, s: State) {
    && LastSteadyRecorded(s)
    && Spaced(s.announced, cfg.interval)
    && (s.phase.PublishingSteady? ==> FallbackDue(cfg, s))
  }

  lemma SpacedAppend(announced: seq<Announcement>, interval: Instant, x: Announcement)
    requires Spaced(announced, interval)
    requires announced != [] ==> announced[|announced| - 1].at + interval <= x.at
    ensures Spaced(announced + [x], interval)
  {
  }

  /** Steps that neither announce nor reach the point of announcing. */
  lemma RateKept(cfg: Config, s: State, s': State)
    requires RateInvariant(cfg, s) && s.now <= s'.now
    requires s'.announced == s.announced && s'.lastSteady == s.lastSteady
    requires s'.phase.PublishingSteady? ==> FallbackDue(cfg, s') || s.phase.PublishingSteady?
    ensures RateInvariant(cfg, s')
  {
  }

  /** The steps of a publish cycle. */
  predicate InCycle(a: Action) {
    a.Begin? || a.DigestDone? || a.TargetedDone? || a.SteadyDone?
  }

  lemma RateInCycle(cfg: Config, s: State, a: Action)
    requires !cfg.periodic && RateInvariant(cfg, s) && Enabled(s, a) && InCycle(a)
    ensures RateInvariant(cfg, Next(cfg, s, a))
  {
    if a == SteadyDone(true) {
      SpacedAppend(s.announced, cfg.interval, Announcement(s.phase.built, s.now));
    } else {
      RateKept(cfg, s, Next(cfg, s, a));
    }
  }

  lemma RateStep(cfg: Config, s: State, a: Action)
    requires !cfg.periodic && RateInvariant(cfg, s) && Enabled(s, a)
    ensures RateInvariant(cfg, Next(cfg, s, a))
  {
    if InCycle(a) {
      RateInCycle(cfg, s, a);
    } else {
      RateKept(cfg, s, Next(cfg, s, a));
    }
  }

  lemma {:induction false} RateAlways(w: World, cfg: Config, publishable: bool, schedule: seq<Action>)
    requires !cfg.periodic
    ensures RateInvariant(cfg, Run(w, cfg, publishable, schedule))
  {
    if schedule != [] {
      var front, a := schedule[..|schedule| - 1], schedule[|schedule| - 1];
      RateAlways(w, cfg, publishable, front);
      if Permitted(w, Run(w, cfg, publishable, front), a) {
        RateStep(cfg, Run(w, cfg, publishable, front), a);
      }
    }
  }

  /** Whatever happens, no two steady publishes come closer than the interval. */
  ghost predicate RateBounded(cfg: Config) {
    forall publishable, schedule :: Spaced(Run(Anything, cfg, publishable, schedule).announced, cfg.interval)
  }

  lemma RunAppend(w: World, cfg: Config, publishable: bool, schedule: seq<Action>, a: Action)
    ensures Run(w, cfg, publishable, schedule + [a]) == Step(w, cfg, Run(w, cfg, publishable, schedule), a)
  {
  }

  /** A publisher that has just made its first steady publish. */
  function Announced(cfg: Config): State {
    var first := FIRST_PUBLISH_DELAY_MS;
    State(Waiting(first + if cfg.periodic then STARTUP_BURST_MS[0] else cfg.interval),
          if cfg.periodic then 1 else |STARTUP_BURST_MS|, None, false, true, true, Some(first),
          first, 0, true, true, false, true, [Built(first)], [Announcement(first, first)])
  }

  /** One more step of a schedule, from a known state to the next. */
  lemma GoTo(w: World, cfg: Config, p: seq<Action>, s: State, a: Action, s': State)
    requires Run(w, cfg, true, p) == s && Permitted(w, s, a) && Next(cfg, s, a) == s'
    ensures Run(w, cfg, true, p + [a]) == s'
  {
    RunAppend(w, cfg, true, p, a);
  }

  /** It gets there as soon as the start delay is over, in any world. */
  lemma FirstAnnouncement(w: World, cfg: Config) returns (p: seq<Action>)
    ensures Run(w, cfg, true, p) == Announced(cfg)
  {
    var first, s0 := FIRST_PUBLISH_DELAY_MS, Initial(cfg, true);
    var s1 := s0.(now := first);
    var s2 := s1.(phase := CycleTop);
    GoTo(w, cfg, [], s0, Tick(first), s1);
    GoTo(w, cfg, [] + [Tick(first)], s1, Wake, s2);
    p := FirstCycle(w, cfg, [] + [Tick(first)] + [Wake], s2);
  }

  lemma FirstSteady(cfg: Config, s: State)
    requires var first := FIRST_PUBLISH_DELAY_MS;
             s == Initial(cfg, true).(now := first, phase := PublishingSteady(first), log := [Built(first)])
    ensures FinishSteady(cfg, s, s.phase.built, true) == Announced(cfg)
  {
  }

  lemma FirstCycle(w: World, cfg: Config, p: seq<Action>, s: State) returns (q: seq<Action>)
    requires Run(w, cfg, true, p) == s == Initial(cfg, true).(now := FIRST_PUBLISH_DELAY_MS, phase := CycleTop)
    ensures Run(w, cfg, true, q) == Announced(cfg)
  {
    var s1 := s.(phase := PublishingDigest(s.now), log := [Built(s.now)]);
    var s2 := s1.(phase := PublishingSteady(s.now));
    GoTo(w, cfg, p, s, Begin(true), s1);
    GoTo(w, cfg, p + [Begin(true)], s1, DigestDone, s2);
    FirstSteady(cfg, s2);
    GoTo(w, cfg, p + [Begin(true)] + [DigestDone], s2, SteadyDone(true), Announced(cfg));
    q := p + [Begin(true)] + [DigestDone] + [SteadyDone(true)];
  }

  /** With the steady beat on, a capability change right after the first publish is
      announced in the same instant. */
  lemma PeriodicBreaksRate(cfg: Config)
    requires cfg.periodic && cfg.interval > 0.0
    ensures !RateBounded(cfg)
  {
    var p := FirstAnnouncement(Anything, cfg);
    var s0 := Announced(cfg);
    var s1 := s0.(capsChanged := true);
    var s2 := s1.(capsChanged := false, burstIdx := 0, phase := CycleTop);
    GoTo(Anything, cfg, p, s0, SetCaps(true), s1);
    GoTo(Anything, cfg, p + [SetCaps(true)], s1, CapsSeen, s2);
    AnnouncedTwice(cfg, p + [SetCaps(true)] + [CapsSeen], s2);
  }

  lemma AnnouncedTwice(cfg: Config, p: seq<Action>, s: State)
    requires cfg.periodic && cfg.interval > 0.0 && Run(Anything, cfg, true, p) == s
    requires s == Announced(cfg).(burstIdx := 0, phase := CycleTop)
    ensures !RateBounded(cfg)
  {
    var s1 := s.(phase := PublishingDigest(s.now), log := s.log + [Built(s.now)]);
    var s2 := s1.(phase := PublishingSteady(s.now));
    GoTo(Anything, cfg, p, s, Begin(true), s1);
    GoTo(Anything, cfg, p + [Begin(true)], s1, DigestDone, s2);
    var q := p + [Begin(true)] + [DigestDone];
    GoTo(Anything, cfg, q, s2, SteadyDone(true), FinishSteady(cfg, s2, s.now, true));
    var twice := Run(Anything, cfg, true, q + [SteadyDone(true)]).announced;
    assert |twice| == 2 && twice[0].at + cfg.interval > twice[1].at;
  }

  /** The rate bound is a property of on-demand mode, and of that mode only. */
  lemma RateBoundedExactlyOnDemand(cfg: Config)
    requires cfg.interval > 0.0
    ensures RateBounded(cfg) <==> !cfg.periodic
  {
    if cfg.periodic {
      PeriodicBreaksRate(cfg);
    } else {
      forall publishable, schedule ensures Spaced(Run(Anything, cfg, publishable, schedule).announced, cfg.interval) {
        RateAlways(Anything, cfg, publishable, schedule);
      }
    }
  }
}
