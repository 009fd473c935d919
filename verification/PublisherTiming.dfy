/** Timing guarantees of the promptly scheduled publisher, in every schedule of requests
    and capability changes: how stale the steady advert can get, and how long a requester
    waits for an answer built after it asked. */
module PublisherTiming {
  import opened Bytes
  import opened Clock
  import opened Publisher

  // ---------------------------------------------------------------- freshness

  /** How far past the interval a steady publish can slip. */
  function Slack(cfg: Config): Instant {
    Later(45_000.0, if cfg.periodic then cfg.interval else cfg.interval / 10.0)
  }

  /** Adjacent steady publishes are never further apart than this. */
  function MaxGap(cfg: Config): Instant {
    cfg.interval + Slack(cfg)
  }

  ghost predicate GapsBounded(announced: seq<Announcement>, gap: Instant) {
    forall i, j :: 0 <= i < j < |announced| && j == i + 1 ==> announced[j].at <= announced[i].at + gap
  }

  predicate Publishing(p: Phase) {
    p.PublishingDigest? || p.PublishingTargeted? || p.PublishingSteady?
  }

  /** Before the first steady publish nothing but the first delay has passed. */
  predicate FirstCycle(s: State) {
    || (s.phase == Starting(FIRST_PUBLISH_DELAY_MS) && s.now <= FIRST_PUBLISH_DELAY_MS)
    || ((s.phase.CycleTop? || Publishing(s.phase)) && s.now == FIRST_PUBLISH_DELAY_MS)
  }

  /** After it, the next one is due before the gap is used up. */
  predicate NextInTime(cfg: Config, s: State, last: Instant) {
    && last <= s.now <= last + MaxGap(cfg)
    && !s.phase.Starting? && !s.phase.NotReady?
    && (s.phase.Waiting? ==> s.now <= s.phase.deadline <= last + MaxGap(cfg))
  }

  ghost predicate FreshInvariant(cfg: Config, s: State) {
    && s.publishable && s.capsAlive
    && (Publishing(s.phase) ==> s.phase.built == s.now)
    && LastSteadyRecorded(s)
    && (forall x <- s.announced :: x.built == x.at <= s.now)
    && GapsBounded(s.announced, MaxGap(cfg))
    && (if s.announced == [] then FirstCycle(s)
        else s.announced[0].at == FIRST_PUBLISH_DELAY_MS && NextInTime(cfg, s, s.lastSteady.value))
  }

  /** A cycle that ends without a steady publish ends before one is due, so the wake-up it
      arms is in time; a cycle that ends with one starts the gap anew. */
  lemma ScheduleInTime(cfg: Config, s: State)
    requires s.lastSteady.Some? && s.lastSteady.value <= s.now
    requires Elapsed(s, s.lastSteady.value) < cfg.interval || s.now == s.lastSteady.value
    ensures s.now <= Schedule(cfg, s).phase.deadline <= s.lastSteady.value + MaxGap(cfg)
  {
  }

  lemma FreshSteadyCheck(cfg: Config, s: State, built: Instant)
    requires FreshInvariant(cfg, s) && built == s.now
    requires s.phase.PublishingDigest? || s.phase.PublishingTargeted?
    ensures FreshInvariant(cfg, SteadyCheck(cfg, s, built))
  {
  }

  lemma FreshSteadyDone(cfg: Config, s: State)
    requires FreshInvariant(cfg, s) && s.phase.PublishingSteady?
    ensures FreshInvariant(cfg, FinishSteady(cfg, s, s.phase.built, true))
  {
    var done := s.(lastSteady := Some(s.now), announced := s.announced + [Announcement(s.phase.built, s.now)]);
    ScheduleInTime(cfg, done);
    assert GapsBounded(done.announced, MaxGap(cfg));
  }

  /** Steps that publish nothing and stay in time. */
  lemma FreshKept(cfg: Config, s: State, s': State)
    requires FreshInvariant(cfg, s) && s.now <= s'.now && s'.publishable && s'.capsAlive
    requires s'.announced == s.announced && s'.lastSteady == s.lastSteady
    requires Publishing(s'.phase) ==> s'.phase.built == s'.now
    requires if s.announced == [] then FirstCycle(s') else NextInTime(cfg, s', s.lastSteady.value)
    ensures FreshInvariant(cfg, s')
  {
  }

  lemma FreshInCycle(cfg: Config, s: State, a: Action)
    requires FreshInvariant(cfg, s) && Permitted(Prompt, s, a) && InCycle(a)
    ensures FreshInvariant(cfg, Next(cfg, s, a))
  {
    match a
    case SteadyDone(_) => FreshSteadyDone(cfg, s);
    case TargetedDone(_) =>
      var answered := s.(lastTargeted := Some(s.now), responsePending := false, log := s.log + [Responded(s.now)]);
      FreshKept(cfg, s, answered);
      FreshSteadyCheck(cfg, answered, s.phase.built);
    case DigestDone =>
      if s.responsePending {
        FreshKept(cfg, s, Next(cfg, s, a));
      } else {
        FreshSteadyCheck(cfg, s, s.phase.built);
      }
    case Begin(_) => FreshKept(cfg, s, Next(cfg, s, a));
  }

  /** The events a sleeping task wakes up for. */
  predicate WakesUp(a: Action) {
    a.Wake? || a.TimerBeat? || a.CapsSeen? || a.Receive?
  }

  /** Waking up starts a cycle in time. */
  lemma FreshWoken(cfg: Config, s: State, s': State)
    requires FreshInvariant(cfg, s) && (s.phase.Waiting? || s.phase.Starting?) && s'.phase.CycleTop?
    requires s.phase.Starting? ==> s.phase.deadline <= s.now
    requires SameAnnouncements(s, s') && s'.publishable && s'.capsAlive
    ensures FreshInvariant(cfg, s')
  {
  }

  lemma FreshReceive(cfg: Config, s: State)
    requires FreshInvariant(cfg, s) && s.phase.Waiting?
    ensures FreshInvariant(cfg, ReceiveWaiting(s, s.phase.deadline))
  {
  }

  lemma FreshWakesUp(cfg: Config, s: State, a: Action)
    requires FreshInvariant(cfg, s) && Permitted(Prompt, s, a) && WakesUp(a)
    ensures FreshInvariant(cfg, Next(cfg, s, a))
  {
    if a.Receive? {
      FreshReceive(cfg, s);
    } else {
      FreshWoken(cfg, s, Next(cfg, s, a));
    }
  }

  lemma FreshStep(cfg: Config, s: State, a: Action)
    requires FreshInvariant(cfg, s) && Permitted(Prompt, s, a)
    ensures FreshInvariant(cfg, Next(cfg, s, a))
  {
    if InCycle(a) {
      FreshInCycle(cfg, s, a);
    } else if WakesUp(a) {
      FreshWakesUp(cfg, s, a);
    } else {
      FreshKept(cfg, s, Next(cfg, s, a));
    }
  }

  lemma {:induction false} FreshAlways(cfg: Config, schedule: seq<Action>)
    ensures FreshInvariant(cfg, Run(Prompt, cfg, true, schedule))
  {
    if schedule != [] {
      var front, a := schedule[..|schedule| - 1], schedule[|schedule| - 1];
      FreshAlways(cfg, front);
      if Permitted(Prompt, Run(Prompt, cfg, true, front), a) {
        FreshStep(cfg, Run(Prompt, cfg, true, front), a);
      }
    }
  }

  /** Whatever requests and capability changes come, the steady topic carries a first advert
      after the start delay and from then on a new one at least every interval plus slack:
      the slack is 45 s or a tenth of the interval on demand, and a whole interval with the
      steady beat on. */
  lemma SteadyAdvertStaysFresh(cfg: Config, schedule: seq<Action>)
    ensures var s := Run(Prompt, cfg, true, schedule);
            && GapsBounded(s.announced, MaxGap(cfg))
            && (s.announced == [] ==> s.now <= FIRST_PUBLISH_DELAY_MS)
            && (s.announced != [] ==>
                  s.announced[0].at == FIRST_PUBLISH_DELAY_MS
                  && s.now <= s.announced[|s.announced| - 1].at + MaxGap(cfg))
            && forall x <- s.announced :: x.built == x.at <= s.now
  {
    FreshAlways(cfg, schedule);
  }

  /** No advert is built before the start delay is over. */
  ghost predicate StartedLate(s: State) {
    && (s.phase.Starting? ==> s.phase.deadline == FIRST_PUBLISH_DELAY_MS)
    && (!s.phase.Starting? ==> FIRST_PUBLISH_DELAY_MS <= s.now)
    && (forall e <- s.log :: e.Built? ==> FIRST_PUBLISH_DELAY_MS <= e.at)
  }

  lemma StartedLateKept(s: State, s': State, added: seq<Event>)
    requires StartedLate(s) && s.now <= s'.now && s'.log == s.log + added
    requires s'.phase.Starting? ==> s'.phase == s.phase
    requires s.phase.Starting? && !s'.phase.Starting? ==> s.phase.deadline <= s.now
    requires forall e <- added :: e.Built? ==> !s.phase.Starting? && e.at == s.now
    ensures StartedLate(s')
  {
  }

  lemma StartedLateInCycle(cfg: Config, s: State, a: Action)
    requires StartedLate(s) && Enabled(s, a) && InCycle(a)
    ensures StartedLate(Next(cfg, s, a))
  {
  }

  lemma StartedLateStep(cfg: Config, s: State, a: Action)
    requires StartedLate(s) && Enabled(s, a)
    ensures StartedLate(Next(cfg, s, a))
  {
    if InCycle(a) {
      StartedLateInCycle(cfg, s, a);
    } else {
      StartedLateKept(s, Next(cfg, s, a), Logged(s, a));
    }
  }

  lemma {:induction false} StartsLate(w: World, cfg: Config, publishable: bool, schedule: seq<Action>)
    ensures StartedLate(Run(w, cfg, publishable, schedule))
  {
    if schedule != [] {
      var front, a := schedule[..|schedule| - 1], schedule[|schedule| - 1];
      StartsLate(w, cfg, publishable, front);
      if Permitted(w, Run(w, cfg, publishable, front), a) {
        StartedLateStep(cfg, Run(w, cfg, publishable, front), a);
      }
    }
  }

  // ---------------------------------------------------------------- answers to requests

  /** Index of the last advert built, -1 when there is none. */
  function LastBuilt(log: seq<Event>): (k: int)
    ensures -1 <= k < |log|
    ensures k >= 0 ==> log[k].Built?
    ensures forall i :: k < i < |log| ==> !log[i].Built?
  {
    if log == [] then -1
    else if log[|log| - 1].Built? then |log| - 1
    else LastBuilt(log[..|log| - 1])
  }

  /** Request `i` was answered in time by a targeted response that was built after it. */
  ghost predicate Answered(log: seq<Event>, i: nat)
    requires i < |log| && log[i].Requested?
  {
    exists j :: i < j < |log| && log[j].Responded?
                && i < LastBuilt(log[..j]) && log[j].at <= log[i].at + MIN_TARGETED_RESPONSE_INTERVAL_MS
  }

  ghost predicate LogInOrder(s: State) {
    && (forall i, j :: 0 <= i < j < |s.log| ==> s.log[i].at <= s.log[j].at)
    && (forall e <- s.log :: e.at <= s.now)
  }

  /** What holds of the publisher apart from any single request. */
  ghost predicate AnswerInvariant(s: State) {
    && s.publishable && s.capsAlive && LogInOrder(s)
    && (s.phase.Starting? ==> s.phase.deadline == FIRST_PUBLISH_DELAY_MS)
    && !s.phase.NotReady?
    && (s.lastTargeted.Some? ==> s.lastTargeted.value <= s.now)
    && (s.queue > 0 ==> s.requestsOpen)
    && (s.requestersAlive ==> s.requestsOpen)
    && (s.phase.PublishingTargeted? ==> s.responsePending)
    && (s.phase.PublishingSteady? ==> !s.responsePending)
    && (Publishing(s.phase) ==>
          s.phase.built == s.now && LastBuilt(s.log) >= 0 && s.log[LastBuilt(s.log)].at == s.now)
  }

  /** Request `i` is still open, and on its way to being answered in time. */
  predicate OnItsWay(s: State, i: nat)
    requires i < |s.log| && s.log[i].Requested?
  {
    var limit := s.log[i].at + MIN_TARGETED_RESPONSE_INTERVAL_MS;
    && s.now <= limit
    && (s.lastTargeted.Some? ==> s.lastTargeted.value <= s.log[i].at)
    && match s.phase
       case Starting(_) => s.queue > 0
       case CycleTop => s.queue > 0 || s.responsePending
       case PublishingDigest(_) => s.queue > 0 || (s.responsePending && i < LastBuilt(s.log))
       case PublishingTargeted(_) => s.queue > 0 || i < LastBuilt(s.log)
       case PublishingSteady(_) => s.queue > 0
       case Waiting(deadline) => s.queue > 0 || (s.responsePending && deadline <= limit)
       case NotReady(_) => false
  }

  ghost predicate Served(s: State, i: nat)
    requires i < |s.log| && s.log[i].Requested?
  {
    Answered(s.log, i) || OnItsWay(s, i)
  }

  lemma AnsweredStays(log: seq<Event>, e: Event, i: nat)
    requires i < |log| && log[i].Requested? && Answered(log, i)
    ensures Answered(log + [e], i)
  {
    var j :| i < j < |log| && log[j].Responded?
             && i < LastBuilt(log[..j]) && log[j].at <= log[i].at + MIN_TARGETED_RESPONSE_INTERVAL_MS;
    assert (log + [e])[..j] == log[..j] && (log + [e])[j] == log[j];
  }

  lemma LastBuiltAppend(log: seq<Event>, e: Event)
    ensures LastBuilt(log + [e]) == if e.Built? then |log| else LastBuilt(log)
  {
  }

  lemma AnswerBegin(cfg: Config, s: State)
    requires AnswerInvariant(s) && s.phase.CycleTop?
    ensures AnswerInvariant(BeginCycle(cfg, s, true))
  {
  }

  lemma AnswerSteadyCheck(cfg: Config, s: State)
    requires AnswerInvariant(s) && s.phase.PublishingDigest? && !s.responsePending
    ensures AnswerInvariant(SteadyCheck(cfg, s, s.phase.built))
  {
  }

  /** The state right after a targeted response, seen as if no response had been pending. */
  function Responding(s: State): State
    requires s.phase.PublishingTargeted?
  {
    s.(phase := PublishingDigest(s.phase.built), lastTargeted := Some(s.now), responsePending := false,
       log := s.log + [Responded(s.now)])
  }

  lemma AnswerResponding(s: State)
    requires AnswerInvariant(s) && s.phase.PublishingTargeted?
    ensures AnswerInvariant(Responding(s))
  {
  }

  lemma TargetedIsResponding(cfg: Config, s: State)
    requires s.phase.PublishingTargeted?
    ensures FinishTargeted(cfg, s, s.phase.built, true) == SteadyCheck(cfg, Responding(s), s.phase.built)
  {
  }

  lemma AnswerInCycle(cfg: Config, s: State, a: Action)
    requires AnswerInvariant(s) && Permitted(Prompt, s, a) && InCycle(a)
    ensures AnswerInvariant(Next(cfg, s, a))
  {
    match a
    case Begin(_) => AnswerBegin(cfg, s);
    case TargetedDone(_) =>
      TargetedIsResponding(cfg, s);
      AnswerResponding(s);
      AnswerSteadyCheck(cfg, Responding(s));
    case DigestDone => if !s.responsePending { AnswerSteadyCheck(cfg, s); }
    case SteadyDone(_) =>
  }

  lemma AnswerWakesUp(cfg: Config, s: State, a: Action)
    requires AnswerInvariant(s) && Permitted(Prompt, s, a) && WakesUp(a)
    ensures AnswerInvariant(Next(cfg, s, a))
  {
  }

  lemma AnswerRequest(s: State)
    requires AnswerInvariant(s) && s.requestersAlive
    ensures AnswerInvariant(s.(queue := Min(s.queue + 1, REQUEST_QUEUE_DEPTH), log := s.log + [Requested(s.now)]))
  {
  }

  lemma AnswerStep(cfg: Config, s: State, a: Action)
    requires AnswerInvariant(s) && Permitted(Prompt, s, a)
    ensures AnswerInvariant(Next(cfg, s, a))
  {
    if InCycle(a) {
      AnswerInCycle(cfg, s, a);
    } else if WakesUp(a) {
      AnswerWakesUp(cfg, s, a);
    } else if a.Request? {
      AnswerRequest(s);
    } else {
      AnswerPassive(cfg, s, a);
    }
  }

  /** Time passes, capabilities change, or requesters leave. */
  predicate Passive(a: Action) {
    !InCycle(a) && !WakesUp(a) && !a.Request?
  }

  lemma AnswerPassive(cfg: Config, s: State, a: Action)
    requires AnswerInvariant(s) && Permitted(Prompt, s, a) && Passive(a)
    ensures AnswerInvariant(Next(cfg, s, a))
  {
  }

  lemma ServedBegin(cfg: Config, s: State, i: nat)
    requires AnswerInvariant(s) && s.phase.CycleTop?
    requires i < |s.log| && s.log[i].Requested? && OnItsWay(s, i)
    ensures OnItsWay(BeginCycle(cfg, s, true), i)
  {
  }

  lemma ServedSteadyCheck(cfg: Config, s: State, i: nat)
    requires s.phase.PublishingDigest? && !s.responsePending
    requires i < |s.log| && s.log[i].Requested? && OnItsWay(s, i)
    ensures OnItsWay(SteadyCheck(cfg, s, s.phase.built), i)
  {
  }

  /** The targeted publish answers every request the cycle was built after; what came in
      meanwhile is queued for the next one. */
  lemma ServedResponding(s: State, i: nat)
    requires AnswerInvariant(s) && s.phase.PublishingTargeted?
    requires i < |s.log| && s.log[i].Requested? && OnItsWay(s, i)
    ensures Served(Responding(s), i)
  {
    var log := s.log + [Responded(s.now)];
    if i < LastBuilt(s.log) {
      assert log[..|s.log|] == s.log && log[|s.log|] == Responded(s.now);
    }
  }

  lemma ServedInCycle(cfg: Config, s: State, a: Action, i: nat)
    requires AnswerInvariant(s) && Permitted(Prompt, s, a) && InCycle(a)
    requires i < |s.log| && s.log[i].Requested? && OnItsWay(s, i)
    ensures var s' := Next(cfg, s, a); i < |s'.log| && s'.log[i] == s.log[i] && Served(s', i)
  {
    match a
    case Begin(_) => ServedBegin(cfg, s, i);
    case TargetedDone(_) =>
      TargetedIsResponding(cfg, s);
      ServedResponding(s, i);
      if OnItsWay(Responding(s), i) {
        ServedSteadyCheck(cfg, Responding(s), i);
      }
    case DigestDone => if !s.responsePending { ServedSteadyCheck(cfg, s, i); }
    case SteadyDone(_) =>
  }

  lemma ServedReceive(s: State, i: nat)
    requires AnswerInvariant(s) && s.phase.Waiting? && RequestReady(s)
    requires i < |s.log| && s.log[i].Requested? && OnItsWay(s, i)
    ensures OnItsWay(ReceiveWaiting(s, s.phase.deadline), i)
  {
  }

  lemma ServedWakesUp(cfg: Config, s: State, a: Action, i: nat)
    requires AnswerInvariant(s) && Permitted(Prompt, s, a) && WakesUp(a)
    requires i < |s.log| && s.log[i].Requested? && OnItsWay(s, i)
    ensures OnItsWay(Next(cfg, s, a), i)
  {
    if a.Receive? {
      ServedReceive(s, i);
    }
  }

  lemma ServedOtherwise(cfg: Config, s: State, a: Action, i: nat)
    requires AnswerInvariant(s) && Permitted(Prompt, s, a) && !InCycle(a)
    requires i < |s.log| && s.log[i].Requested? && OnItsWay(s, i)
    ensures OnItsWay(Next(cfg, s, a), i)
  {
    if WakesUp(a) {
      ServedWakesUp(cfg, s, a, i);
    } else if a.Request? {
      LastBuiltAppend(s.log, Requested(s.now));
    } else {
      ServedPassive(cfg, s, a, i);
    }
  }

  lemma ServedPassive(cfg: Config, s: State, a: Action, i: nat)
    requires AnswerInvariant(s) && Permitted(Prompt, s, a) && Passive(a)
    requires i < |s.log| && s.log[i].Requested? && OnItsWay(s, i)
    ensures OnItsWay(Next(cfg, s, a), i)
  {
  }

  lemma ServedStep(cfg: Config, s: State, a: Action, i: nat)
    requires AnswerInvariant(s) && Permitted(Prompt, s, a)
    requires i < |s.log| && s.log[i].Requested? && Served(s, i)
    ensures var s' := Next(cfg, s, a); i < |s'.log| && s'.log[i] == s.log[i] && Served(s', i)
  {
    if !Answered(s.log, i) {
      if InCycle(a) {
        ServedInCycle(cfg, s, a, i);
      } else {
        ServedOtherwise(cfg, s, a, i);
      }
    } else {
      match a
      case Begin(_) => AnsweredStays(s.log, Built(s.now), i);
      case TargetedDone(_) => AnsweredStays(s.log, Responded(s.now), i);
      case Request => AnsweredStays(s.log, Requested(s.now), i);
      case _ =>
    }
  }

  lemma ServedNew(s: State)
    requires AnswerInvariant(s) && s.requestersAlive
    ensures OnItsWay(s.(queue := Min(s.queue + 1, REQUEST_QUEUE_DEPTH), log := s.log + [Requested(s.now)]), |s.log|)
  {
  }

  lemma {:induction false} ServedAlways(cfg: Config, schedule: seq<Action>, i: nat)
    ensures var s := Run(Prompt, cfg, true, schedule);
            AnswerInvariant(s) && (i < |s.log| && s.log[i].Requested? ==> Served(s, i))
  {
    if schedule != [] {
      var front, a := schedule[..|schedule| - 1], schedule[|schedule| - 1];
      ServedAlways(cfg, front, i);
      var s := Run(Prompt, cfg, true, front);
      if Permitted(Prompt, s, a) {
        AnswerStep(cfg, s, a);
        if i < |Next(cfg, s, a).log| && Next(cfg, s, a).log[i].Requested? {
          if i < |s.log| {
            ServedStep(cfg, s, a, i);
          } else {
            ServedNew(s);
          }
        }
      }
    }
  }

  /** Coalescing loses no request: in both modes and in every prompt schedule, a request,
      even one that found the queue full, is followed within a second by a targeted response
      whose advert was built after it. */
  lemma EveryRequestAnswered(cfg: Config, schedule: seq<Action>, i: nat)
    requires var s := Run(Prompt, cfg, true, schedule);
             i < |s.log| && s.log[i].Requested? && s.log[i].at + MIN_TARGETED_RESPONSE_INTERVAL_MS < s.now
    ensures Answered(Run(Prompt, cfg, true, schedule).log, i)
  {
    ServedAlways(cfg, schedule, i);
  }
}
