/** The publisher loop in its own form: one object whose fields are the publisher's variables,
    one method for the stretch of code between two awaits. Each is proved to take the step
    the state machine describes. */
module PublisherTask {
  import opened Bytes
  import opened Clock
  import opened Publisher

  class Task {
    const cfg: Config
    // the publisher's variables
    var phase: Phase
    var burstIdx: nat
    var lastTargeted: Option<Instant>
    var responsePending: bool
    var requestsOpen: bool
    var steadyCycle: bool
    var lastSteady: Option<Instant>
    // the clock, the request channel and the capability watch
    var now: Instant
    var queue: nat
    var requestersAlive: bool
    var publishable: bool
    var capsChanged: bool
    var capsAlive: bool
    // what reached the topics
    var log: seq<Event>
    var announced: seq<Announcement>

    function View(): State
      reads this
    {
      State(phase, burstIdx, lastTargeted, responsePending, requestsOpen, steadyCycle, lastSteady,
            now, queue, requestersAlive, publishable, capsChanged, capsAlive, log, announced)
    }

    constructor (cfg: Config, ready: bool)
      ensures View() == Initial(cfg, ready) && this.cfg == cfg
    {
      this.cfg := cfg;
      phase := Starting(FIRST_PUBLISH_DELAY_MS);
      burstIdx := if cfg.periodic then 0 else |STARTUP_BURST_MS|;
      lastTargeted, responsePending, requestsOpen := None, false, true;
      steadyCycle, lastSteady := true, None;
      now, queue, requestersAlive := 0.0, 0, true;
      publishable, capsChanged, capsAlive := ready, false, true;
      log, announced := [], [];
    }

    /** Arm the wake-up timer. */
    method ArmTimer()
      modifies this`phase, this`burstIdx
      ensures View() == Schedule(cfg, old(View()))
    {
      var delay;
      if burstIdx < |STARTUP_BURST_MS| {
        delay := STARTUP_BURST_MS[burstIdx];
        burstIdx := burstIdx + 1;
      } else if cfg.periodic {
        delay := cfg.interval;
      } else {
        var remaining := cfg.interval;
        if lastSteady.Some? {
          var elapsed := if now >= lastSteady.value then now - lastSteady.value else 0.0;
          remaining := if cfg.interval >= elapsed then cfg.interval - elapsed else 0.0;
        }
        delay := if remaining >= cfg.interval / 10.0 then remaining else cfg.interval / 10.0;
      }
      phase := Waiting(now + delay);
    }

    /** Decide on the steady topic. */
    method CheckSteady(built: Instant)
      modifies this`phase, this`burstIdx
      ensures View() == SteadyCheck(cfg, old(View()), built)
    {
      var due := lastSteady.None? || Elapsed(View(), lastSteady.value) >= cfg.interval;
      if (cfg.periodic && steadyCycle) || due {
        phase := PublishingSteady(built);
      } else {
        ArmTimer();
      }
    }

    /** Take whatever requests are queued. */
    method DrainRequests()
      modifies this`queue, this`responsePending
      ensures queue == 0 && responsePending == (old(responsePending) || old(queue) > 0)
    {
      while queue > 0
        invariant queue <= old(queue) && responsePending == (old(responsePending) || queue < old(queue))
      {
        queue := queue - 1;
        responsePending := true;
      }
    }

    /** From the top of the loop to the first await. */
    method StartCycle(buildOk: bool)
      requires phase.CycleTop?
      modifies this
      ensures View() == BeginCycle(cfg, old(View()), buildOk)
    {
      DrainRequests();
      TryBuild(buildOk);
    }

    method TryBuild(buildOk: bool)
      modifies this`phase, this`burstIdx, this`log
      ensures View() == BuildAdvert(cfg, old(View()), buildOk)
    {
      if !publishable {
        phase := NotReady(now + cfg.interval);
      } else if buildOk {
        log := log + [Built(now)];
        phase := PublishingDigest(now);
      } else {
        ArmTimer();
      }
    }

    /** The digest extension is out, or its publish failed; either way the cycle goes on. */
    method AfterDigest()
      requires phase.PublishingDigest?
      modifies this`phase, this`burstIdx
      ensures View() == FinishDigest(cfg, old(View()), old(phase).built)
    {
      if responsePending {
        phase := PublishingTargeted(phase.built);
      } else {
        CheckSteady(phase.built);
      }
    }

    method AfterTargeted(ok: bool)
      requires phase.PublishingTargeted?
      modifies this
      ensures View() == FinishTargeted(cfg, old(View()), old(phase).built, ok)
    {
      if ok {
        lastTargeted := Some(now);
        responsePending := false;
        log := log + [Responded(now)];
      }
      CheckSteady(phase.built);
    }

    method AfterSteady(ok: bool)
      requires phase.PublishingSteady?
      modifies this
      ensures View() == FinishSteady(cfg, old(View()), old(phase).built, ok)
    {
      if ok {
        lastSteady := Some(now);
        announced := announced + [Announcement(phase.built, now)];
      }
      ArmTimer();
    }

    method OnTimer()
      requires Enabled(View(), TimerBeat)
      modifies this`phase, this`steadyCycle
      ensures View() == Next(cfg, old(View()), TimerBeat)
    {
      if phase.Waiting? {
        steadyCycle := true;
      }
      phase := CycleTop;
    }

    method OnCapsChanged()
      requires Enabled(View(), CapsSeen)
      modifies this
      ensures View() == SeeCaps(old(View()))
    {
      if phase.Waiting? {
        if capsChanged {
          burstIdx := 0;
        }
        steadyCycle := true;
      } else if capsChanged {
        burstIdx := 0;
        steadyCycle := true;
      }
      capsChanged := false;
      phase := CycleTop;
    }

    /** The request arm of the timer select. */
    method OnRequestWaiting()
      requires phase.Waiting? && RequestReady(View())
      modifies this
      ensures View() == ReceiveWaiting(old(View()), old(phase).deadline)
    {
      if queue == 0 {
        requestsOpen := false;
        return;
      }
      queue := queue - 1;
      responsePending := true;
      var earliest := if lastTargeted.None? then now else lastTargeted.value + MIN_TARGETED_RESPONSE_INTERVAL_MS;
      if earliest <= now {
        steadyCycle := false;
        phase := CycleTop;
      } else if earliest < phase.deadline {
        phase := Waiting(earliest);
      }
    }

    /** The request arm of the select that waits for usable capabilities. */
    method OnRequestNotReady()
      requires phase.NotReady? && RequestReady(View())
      modifies this
      ensures View() == ReceiveNotReady(old(View()))
    {
      if queue == 0 {
        requestsOpen := false;
      } else {
        queue := queue - 1;
        responsePending := true;
      }
      phase := CycleTop;
    }

    /** A step of the loop, if its turn has come. */
    method OwnStep(a: Action)
      requires Enabled(View(), a) && (InCycle(a) || a.Wake? || a.TimerBeat? || a.CapsSeen? || a.Receive?)
      modifies this
      ensures View() == Next(cfg, old(View()), a)
    {
      match a
      case Wake => phase := CycleTop;
      case Begin(buildOk) => StartCycle(buildOk);
      case DigestDone => AfterDigest();
      case TargetedDone(ok) => AfterTargeted(ok);
      case SteadyDone(ok) => AfterSteady(ok);
      case TimerBeat => OnTimer();
      case CapsSeen => OnCapsChanged();
      case Receive =>
        if phase.Waiting? {
          OnRequestWaiting();
        } else {
          OnRequestNotReady();
        }
    }

    /** What the surroundings do to the clock and the channels. */
    method Surroundings(a: Action)
      modifies this
      ensures View() == Disturb(old(View()), a)
    {
      match a
      case Tick(ms) => PassTime(ms);
      case Request => Enqueue();
      case SetCaps(ready) => SendCaps(ready);
      case DropCapsSender => capsAlive := false;
      case DropRequesters => requestersAlive := false;
      case _ =>
    }

    method PassTime(ms: Instant)
      modifies this`now
      ensures View() == old(View()).(now := old(now) + ms)
    {
      now := now + ms;
    }

    method Enqueue()
      modifies this`queue, this`log
      ensures View() == old(View()).(queue := Min(old(queue) + 1, REQUEST_QUEUE_DEPTH),
                                     log := old(log) + [Requested(now)])
    {
      queue := Min(queue + 1, REQUEST_QUEUE_DEPTH);
      log := log + [Requested(now)];
    }

    method SendCaps(ready: bool)
      modifies this`publishable, this`capsChanged
      ensures View() == old(View()).(publishable := ready, capsChanged := true)
    {
      publishable, capsChanged := ready, true;
    }
  }

  /** The task goes through a schedule as the state machine does, so what holds of every run of
      that holds of it. */
  method Execute(w: World, cfg: Config, ready: bool, schedule: seq<Action>) returns (task: Task)
    ensures fresh(task) && task.cfg == cfg && task.View() == Run(w, cfg, ready, schedule)
  {
    task := new Task(cfg, ready);
    for i := 0 to |schedule|
      invariant fresh(task) && task.cfg == cfg && task.View() == Run(w, cfg, ready, schedule[..i])
    {
      var a := schedule[i];
      assert schedule[..i + 1] == schedule[..i] + [a];
      RunAppend(w, cfg, ready, schedule[..i], a);
      if Permitted(w, task.View(), a) {
        if InCycle(a) || a.Wake? || a.TimerBeat? || a.CapsSeen? || a.Receive? {
          task.OwnStep(a);
        } else {
          task.Surroundings(a);
        }
      }
    }
    assert schedule[..|schedule|] == schedule;
  }
}
