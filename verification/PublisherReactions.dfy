/** What the publisher does about each thing that happens to it, and what it decides, told in
    terms of what it has done before rather than of the variables it keeps. */
module PublisherReactions {
  import opened Bytes
  import opened Clock
  import opened Publisher

  // ---------------------------------------------------------------- things that happen

  predicate Sleeping(s: State) {
    s.phase.Waiting? || s.phase.NotReady?
  }

  /** Asleep, it goes back to work when its deadline has come and not before; and the cycle of
      a timer that ran out is a steady one. */
  lemma DeadlineIsKept(cfg: Config, s: State, ms: Instant)
    requires Sleeping(s)
    ensures Step(Anything, cfg, Step(Anything, cfg, s, Tick(ms)), TimerBeat)
         == if s.now + ms >= s.phase.deadline
            then s.(now := s.now + ms, phase := CycleTop, steadyCycle := s.steadyCycle || s.phase.Waiting?)
            else s.(now := s.now + ms)
  {
  }

  /** It starts when the start delay is over and not before. */
  lemma StartIsKept(cfg: Config, s: State, ms: Instant)
    requires s.phase.Starting?
    ensures Step(Anything, cfg, Step(Anything, cfg, s, Tick(ms)), Wake)
         == s.(now := s.now + ms, phase := if s.now + ms >= s.phase.deadline then CycleTop else s.phase)
  {
  }

  /** New capabilities end any sleep at once: the next cycle is steady, uses them, and the
      startup burst begins anew. */
  lemma NewCapabilitiesAreSeen(cfg: Config, s: State, ready: bool)
    requires Sleeping(s) && s.capsAlive
    ensures Step(Anything, cfg, Step(Anything, cfg, s, SetCaps(ready)), CapsSeen)
         == s.(publishable := ready, capsChanged := false, burstIdx := 0, steadyCycle := true, phase := CycleTop)
  {
  }

  /** With no news and the sender still there, there is nothing to see. */
  lemma NoNewsIsNotSeen(cfg: Config, s: State)
    requires Sleeping(s) && s.capsAlive && !s.capsChanged
    ensures Step(Anything, cfg, s, CapsSeen) == s
  {
  }

  /** That the sender is gone is seen too, and keeps the burst as it is. */
  lemma LostCapabilitiesAreSeen(cfg: Config, s: State)
    requires Sleeping(s) && !s.capsChanged
    ensures Step(Anything, cfg, Step(Anything, cfg, s, DropCapsSender), CapsSeen)
         == s.(capsAlive := false, steadyCycle := s.steadyCycle || s.phase.Waiting?, phase := CycleTop)
  {
  }

  /** Nothing changes capabilities whose sender is gone. */
  lemma LostCapabilitiesStay(cfg: Config, s: State, ready: bool)
    ensures Step(Anything, cfg, Step(Anything, cfg, s, DropCapsSender), SetCaps(ready)) == s.(capsAlive := false)
  {
  }

  /** A request while the capabilities are not ready is remembered and leads to another look at
      them: if they are ready by then, an advert is built for it. */
  lemma RequestLooksAgain(cfg: Config, s: State, ok: bool)
    requires s.phase.NotReady? && s.requestersAlive && s.requestsOpen
    ensures var r := Step(Anything, cfg, Step(Anything, cfg, s, Request), Receive);
            && r.phase.CycleTop? && r.responsePending && r.queue == Min(s.queue, 15)
            && r == s.(phase := CycleTop, responsePending := true, queue := r.queue, log := s.log + [Requested(s.now)])
            && (s.publishable && ok ==>
                  Step(Anything, cfg, r, Begin(ok))
                  == r.(phase := PublishingDigest(s.now), queue := 0, log := r.log + [Built(s.now)]))
  {
  }

  /** The end of requests is noticed once the queue is empty, and nothing is received ever after. */
  lemma EndOfRequestsIsSeen(cfg: Config, s: State)
    requires Sleeping(s) && s.requestsOpen && s.queue == 0
    ensures var r := Step(Anything, cfg, Step(Anything, cfg, s, DropRequesters), Receive);
            && r == s.(requestersAlive := false, requestsOpen := false,
                       phase := if s.phase.NotReady? then CycleTop else s.phase)
            && Step(Anything, cfg, r, Receive) == r && Step(Anything, cfg, r, Request) == r
  {
  }

  /** Only then: as long as someone can ask, or something is queued, it listens. */
  lemma {:induction false} ListensToTheEnd(cfg: Config, publishable: bool, schedule: seq<Action>)
    ensures var s := Run(Anything, cfg, publishable, schedule);
            s.requestersAlive || s.queue > 0 ==> s.requestsOpen
  {
    if schedule != [] {
      ListensToTheEnd(cfg, publishable, schedule[..|schedule| - 1]);
      ListensStep(cfg, Run(Anything, cfg, publishable, schedule[..|schedule| - 1]), schedule[|schedule| - 1]);
    }
  }

  lemma ChannelInCycle(cfg: Config, s: State, a: Action)
    requires Enabled(s, a) && InCycle(a)
    ensures var r := Next(cfg, s, a);
            r.requestsOpen == s.requestsOpen && r.requestersAlive == s.requestersAlive && r.queue <= s.queue
  {
    match a
    case Begin(_) =>
    case DigestDone =>
    case TargetedDone(_) =>
    case SteadyDone(_) =>
  }

  /** Requests come from the requesters only, and only a receive stops listening. */
  lemma ChannelStep(cfg: Config, s: State, a: Action)
    requires Enabled(s, a) && !a.Receive?
    ensures var r := Next(cfg, s, a);
            r.requestsOpen == s.requestsOpen && (r.requestersAlive ==> s.requestersAlive)
            && (r.queue > s.queue ==> a.Request?)
  {
    if InCycle(a) {
      ChannelInCycle(cfg, s, a);
    }
  }

  lemma ListensStep(cfg: Config, s: State, a: Action)
    requires s.requestersAlive || s.queue > 0 ==> s.requestsOpen
    ensures var r := Step(Anything, cfg, s, a); r.requestersAlive || r.queue > 0 ==> r.requestsOpen
  {
    if Enabled(s, a) && !a.Receive? {
      ChannelStep(cfg, s, a);
    }
  }

  // ---------------------------------------------------------------- things it decides

  /** When the last response went out. */
  function LastResponse(log: seq<Event>): (last: Option<Instant>)
    ensures last.None? ==> forall e <- log :: !e.Responded?
    ensures last.Some? ==> Responded(last.value) in log
  {
    if log == [] then None
    else if log[|log| - 1].Responded? then Some(log[|log| - 1].at)
    else LastResponse(log[..|log| - 1])
  }

  /** No response lies in the future, and none is later than the last one. */
  ghost predicate ResponsesRecorded(s: State) {
    s.lastTargeted == LastResponse(s.log) && NoLaterResponse(s.log, s.now)
    && (s.lastTargeted.Some? ==> NoLaterResponse(s.log, s.lastTargeted.value))
  }

  ghost predicate NoLaterResponse(log: seq<Event>, at: real) {
    forall i :: 0 <= i < |log| && log[i].Responded? ==> log[i].at <= at
  }

  lemma LastResponseAppend(log: seq<Event>, e: Event)
    ensures LastResponse(log + [e]) == if e.Responded? then Some(e.at) else LastResponse(log)
  {
    assert (log + [e])[..|log|] == log;
  }

  lemma LastTargetedStep(cfg: Config, s: State, a: Action)
    requires Enabled(s, a)
    ensures var r := Next(cfg, s, a);
            r.now >= s.now && r.lastTargeted == if a == TargetedDone(true) then Some(s.now) else s.lastTargeted
  {
    match a
    case Begin(_) =>
    case DigestDone =>
    case TargetedDone(_) =>
    case SteadyDone(_) =>
    case _ =>
  }

  lemma ResponsesAppend(s: State, r: State, e: Event)
    requires ResponsesRecorded(s) && r.log == s.log + [e] && e.at == s.now <= r.now
    requires r.lastTargeted == if e.Responded? then Some(s.now) else s.lastTargeted
    ensures ResponsesRecorded(r)
  {
    LastResponseAppend(s.log, e);
  }

  lemma ResponsesStep(cfg: Config, s: State, r: State, a: Action)
    requires ResponsesRecorded(s) && r.log == s.log + Logged(s, a) && r.now >= s.now
    requires r.lastTargeted == if a == TargetedDone(true) then Some(s.now) else s.lastTargeted
    ensures ResponsesRecorded(r)
  {
    if Logged(s, a) == [] {
      assert r.log == s.log;
    } else {
      ResponsesAppend(s, r, Logged(s, a)[0]);
    }
  }

  lemma {:induction false} ResponsesAlways(cfg: Config, publishable: bool, schedule: seq<Action>)
    ensures ResponsesRecorded(Run(Anything, cfg, publishable, schedule))
  {
    if schedule != [] {
      var s := Run(Anything, cfg, publishable, schedule[..|schedule| - 1]);
      ResponsesAlways(cfg, publishable, schedule[..|schedule| - 1]);
      if Enabled(s, schedule[|schedule| - 1]) {
        var a := schedule[|schedule| - 1];
        LastTargetedStep(cfg, s, a);
        ResponsesStep(cfg, s, Next(cfg, s, a), a);
      }
    }
  }

  lemma QuietExactly(s: State)
    requires ResponsesRecorded(s)
    ensures NoLaterResponse(s.log, s.now - 1_000.0)
       <==> s.lastTargeted.None? || s.lastTargeted.value + 1_000.0 <= s.now
  {
    if s.lastTargeted.Some? {
      assert Responded(s.lastTargeted.value) in s.log;
      var i :| 0 <= i < |s.log| && s.log[i] == Responded(s.lastTargeted.value);
    }
  }

  lemma ReceiveExactly(cfg: Config, s: State)
    requires s.phase.Waiting? && s.queue > 0 && s.requestsOpen
    ensures var quiet := s.lastTargeted.None? || s.lastTargeted.value + 1_000.0 <= s.now;
            Step(Anything, cfg, s, Receive)
            == if quiet then AnsweredAtOnce(s) else AnsweredAt(s, s.lastTargeted.value + 1_000.0)
  {
  }

  /** A request was read and starts a cycle. */
  function AnsweredAtOnce(s: State): State
    requires s.queue > 0
  {
    s.(queue := s.queue - 1, responsePending := true, phase := CycleTop, steadyCycle := false)
  }

  /** A request was read and is answered at this time, or at the next wake-up if that comes sooner. */
  function AnsweredAt(s: State, at: Instant): State
    requires s.queue > 0 && s.phase.Waiting?
  {
    s.(queue := s.queue - 1, responsePending := true,
       phase := Waiting(if at <= s.phase.deadline then at else s.phase.deadline))
  }

  /** A request read now starts a cycle at once if and only if no response went out in the last
      second; otherwise it moves the wake-up forward to one second after the last response,
      unless it comes sooner anyway. Such a cycle is not a steady one. */
  ghost predicate AnswersInTurn(cfg: Config, s: State)
    requires s.phase.Waiting? && s.queue > 0
  {
    if NoLaterResponse(s.log, s.now - 1_000.0) then
      Step(Anything, cfg, s, Receive) == AnsweredAtOnce(s)
    else
      && LastResponse(s.log).Some?
      && Step(Anything, cfg, s, Receive) == AnsweredAt(s, LastResponse(s.log).value + 1_000.0)
  }

  lemma RequestWakes(cfg: Config, s: State)
    requires ResponsesRecorded(s) && s.phase.Waiting? && s.queue > 0 && s.requestsOpen
    ensures AnswersInTurn(cfg, s)
  {
    QuietExactly(s);
    ReceiveExactly(cfg, s);
  }

  /** So it is in every run. */
  lemma RequestWakesExactly(cfg: Config, publishable: bool, schedule: seq<Action>)
    requires var s := Run(Anything, cfg, publishable, schedule); s.phase.Waiting? && s.queue > 0
    ensures AnswersInTurn(cfg, Run(Anything, cfg, publishable, schedule))
  {
    ResponsesAlways(cfg, publishable, schedule);
    ListensToTheEnd(cfg, publishable, schedule);
    RequestWakes(cfg, Run(Anything, cfg, publishable, schedule));
  }

  lemma {:induction false} SteadyRecorded(cfg: Config, publishable: bool, schedule: seq<Action>)
    ensures LastSteadyRecorded(Run(Anything, cfg, publishable, schedule))
  {
    if schedule != [] {
      SteadyRecorded(cfg, publishable, schedule[..|schedule| - 1]);
      SteadyRecordedStep(cfg, Run(Anything, cfg, publishable, schedule[..|schedule| - 1]), schedule[|schedule| - 1]);
    }
  }

  lemma SteadyRecordedInCycle(cfg: Config, s: State, a: Action)
    requires LastSteadyRecorded(s) && Enabled(s, a) && InCycle(a)
    ensures LastSteadyRecorded(Next(cfg, s, a))
  {
    if a != SteadyDone(true) {
      var r := Next(cfg, s, a);
      assert r.lastSteady == s.lastSteady && r.announced == s.announced && r.now == s.now;
    }
  }

  lemma NotAnnouncing(cfg: Config, s: State, a: Action)
    requires Enabled(s, a) && !InCycle(a)
    ensures var r := Next(cfg, s, a);
            r.lastSteady == s.lastSteady && r.announced == s.announced && r.now >= s.now
  {
    match a
    case Receive =>
    case CapsSeen =>
    case TimerBeat =>
    case Wake =>
    case _ =>
  }

  lemma SteadyRecordedStep(cfg: Config, s: State, a: Action)
    requires LastSteadyRecorded(s)
    ensures LastSteadyRecorded(Step(Anything, cfg, s, a))
  {
    if Enabled(s, a) {
      if InCycle(a) {
        SteadyRecordedInCycle(cfg, s, a);
      } else {
        NotAnnouncing(cfg, s, a);
      }
    }
  }

  /** The advert of this cycle has been offered to whoever asked. */
  predicate Answering(s: State, a: Action) {
    || (s.phase.PublishingDigest? && !s.responsePending && a.DigestDone?)
    || (s.phase.PublishingTargeted? && a.TargetedDone?)
  }

  /** The steady topic is due: the beat is on and this is a steady cycle, or the last
      announcement there is at least an interval old. */
  predicate SteadyDue(cfg: Config, s: State) {
    || (cfg.periodic && s.steadyCycle) || s.announced == []
    || s.announced[|s.announced| - 1].at + cfg.interval <= s.now
  }

  lemma SteadyPublish(cfg: Config, s: State, a: Action)
    requires Answering(s, a) && LastSteadyRecorded(s)
    ensures Step(Anything, cfg, s, a).phase.PublishingSteady? <==> SteadyDue(cfg, s)
  {
  }

  /** In every run, whether or not the requesters could be answered, the advert goes on to the
      steady topic if and only if it is due there. */
  lemma SteadyPublishExactly(cfg: Config, publishable: bool, schedule: seq<Action>, a: Action)
    requires Answering(Run(Anything, cfg, publishable, schedule), a)
    ensures var s := Run(Anything, cfg, publishable, schedule);
            Step(Anything, cfg, s, a).phase.PublishingSteady? <==> SteadyDue(cfg, s)
  {
    SteadyRecorded(cfg, publishable, schedule);
    SteadyPublish(cfg, Run(Anything, cfg, publishable, schedule), a);
  }

  /** How long a cycle that ends now sleeps: a step of the startup burst, the interval, or on
      demand what is left of the interval since the last announcement, a tenth of it at least. */
  function Sleep(cfg: Config, burst: nat, announced: seq<Announcement>, now: Instant): real {
    if burst == 0 then 5_000.0
    else if burst == 1 then 10_000.0
    else if burst == 2 then 20_000.0
    else if burst == 3 then 45_000.0
    else if cfg.periodic || announced == [] then cfg.interval
    else
      var left := announced[|announced| - 1].at + cfg.interval - now;
      if left * 10.0 >= cfg.interval then left else cfg.interval / 10.0
  }

  lemma ScheduleExactly(cfg: Config, s: State)
    requires LastSteadyRecorded(s)
    ensures Schedule(cfg, s).phase.deadline == s.now + Sleep(cfg, s.burstIdx, s.announced, s.now)
    ensures Schedule(cfg, s).burstIdx == if s.burstIdx < 4 then s.burstIdx + 1 else s.burstIdx
  {
  }

  /** The sleep and the place in the burst after a cycle. */
  predicate SleepsFrom(cfg: Config, s: State, r: State) {
    && r.phase.Waiting? && r.phase.deadline == s.now + Sleep(cfg, s.burstIdx, r.announced, s.now)
    && r.burstIdx == (if s.burstIdx < 4 then s.burstIdx + 1 else s.burstIdx)
  }

  lemma EndsInCheck(cfg: Config, s: State, built: Instant)
    requires LastSteadyRecorded(s) && SteadyCheck(cfg, s, built).phase.Waiting?
    ensures SleepsFrom(cfg, s, SteadyCheck(cfg, s, built))
  {
    ScheduleExactly(cfg, s);
  }

  lemma EndsAfterBuild(cfg: Config, s: State, ok: bool)
    requires LastSteadyRecorded(s) && BeginCycle(cfg, s, ok).phase.Waiting?
    ensures SleepsFrom(cfg, s, BeginCycle(cfg, s, ok))
  {
    ScheduleExactly(cfg, s.(queue := 0, responsePending := s.responsePending || s.queue > 0));
  }

  lemma EndsAfterTargeted(cfg: Config, s: State, built: Instant, ok: bool)
    requires LastSteadyRecorded(s) && FinishTargeted(cfg, s, built, ok).phase.Waiting?
    ensures SleepsFrom(cfg, s, FinishTargeted(cfg, s, built, ok))
  {
    var answered := s.(lastTargeted := Some(s.now), responsePending := false, log := s.log + [Responded(s.now)]);
    EndsInCheck(cfg, if ok then answered else s, built);
  }

  lemma EndsAfterSteady(cfg: Config, s: State, built: Instant, ok: bool)
    requires LastSteadyRecorded(s)
    ensures SleepsFrom(cfg, s, FinishSteady(cfg, s, built, ok))
  {
    var announced := s.(lastSteady := Some(s.now), announced := s.announced + [Announcement(built, s.now)]);
    ScheduleExactly(cfg, if ok then announced else s);
  }

  lemma CycleEnds(cfg: Config, s: State, a: Action)
    requires LastSteadyRecorded(s) && InCycle(a) && Enabled(s, a) && Next(cfg, s, a).phase.Waiting?
    ensures SleepsFrom(cfg, s, Next(cfg, s, a))
  {
    match a
    case Begin(ok) => EndsAfterBuild(cfg, s, ok);
    case DigestDone => EndsInCheck(cfg, s, s.phase.built);
    case TargetedDone(ok) => EndsAfterTargeted(cfg, s, s.phase.built, ok);
    case SteadyDone(ok) => EndsAfterSteady(cfg, s, s.phase.built, ok);
  }

  /** In every run, every cycle that ends, well or badly, is followed by exactly that sleep. */
  lemma SleepsExactly(cfg: Config, publishable: bool, schedule: seq<Action>, a: Action)
    requires var s := Run(Anything, cfg, publishable, schedule);
             InCycle(a) && Enabled(s, a) && Next(cfg, s, a).phase.Waiting?
    ensures var s := Run(Anything, cfg, publishable, schedule);
            var r := Next(cfg, s, a);
            && r.phase.deadline == s.now + Sleep(cfg, s.burstIdx, r.announced, s.now)
            && r.burstIdx == (if s.burstIdx < 4 then s.burstIdx + 1 else s.burstIdx)
  {
    var s := Run(Anything, cfg, publishable, schedule);
    SteadyRecorded(cfg, publishable, schedule);
    CycleEnds(cfg, s, a);
  }
}
