/** What becomes of requests for an advert in a world where anything can happen: publishes and
    builds fail, capabilities come and go, and the publisher is scheduled at any time. */
module PublisherRequests {
  import opened Clock
  import opened Publisher
  import opened PublisherTiming

  /** A response went out whose advert was built after the request came in. */
  ghost predicate GotResponse(log: seq<Event>, i: nat)
    requires i < |log|
  {
    exists j :: i < j < |log| && log[j].Responded? && i < LastBuilt(log[..j])
  }

  /** A reason to respond is still there. */
  predicate Outstanding(s: State) {
    s.queue > 0 || s.responsePending
  }

  /** The request is queued, or remembered; and once an advert is being published, the
      remembered ones came before it was built. */
  predicate Kept(s: State, i: nat) {
    || s.queue > 0
    || (&& s.responsePending
        && (s.phase.PublishingDigest? || s.phase.PublishingTargeted? ==> i < LastBuilt(s.log)))
  }

  lemma ResponseStaysOnAppend(log: seq<Event>, e: Event, i: nat)
    requires i < |log| && GotResponse(log, i)
    ensures GotResponse(log + [e], i)
  {
    var j :| i < j < |log| && log[j].Responded? && i < LastBuilt(log[..j]);
    assert (log + [e])[..j] == log[..j] && (log + [e])[j] == log[j];
  }

  lemma ResponseStays(cfg: Config, s: State, a: Action, i: nat)
    requires Enabled(s, a) && i < |s.log| && GotResponse(s.log, i)
    ensures GotResponse(Next(cfg, s, a).log, i)
  {
    var added := Logged(s, a);
    if added == [] {
      assert Next(cfg, s, a).log == s.log;
    } else {
      ResponseStaysOnAppend(s.log, added[0], i);
      assert added == [added[0]];
    }
  }

  lemma KeptByBegin(cfg: Config, s: State, ok: bool, i: nat)
    requires s.phase.CycleTop? && i < |s.log| && Kept(s, i)
    ensures Kept(BeginCycle(cfg, s, ok), i)
  {
    LastBuiltAppend(s.log, Built(s.now));
  }

  lemma KeptByTargeted(cfg: Config, s: State, ok: bool, i: nat)
    requires s.phase.PublishingTargeted? && i < |s.log| && Kept(s, i)
    ensures var r := FinishTargeted(cfg, s, s.phase.built, ok);
            GotResponse(r.log, i) || Kept(r, i)
  {
    var r := FinishTargeted(cfg, s, s.phase.built, ok);
    if ok && s.queue == 0 {
      assert r.log[..|s.log|] == s.log && r.log[|s.log|].Responded?;
    }
  }

  lemma KeptByReceive(cfg: Config, s: State, i: nat)
    requires Enabled(s, Receive) && i < |s.log| && Kept(s, i)
    ensures Kept(Next(cfg, s, Receive), i)
  {
  }

  lemma KeptByDisturbance(s: State, a: Action, i: nat)
    requires i < |s.log| && Kept(s, i)
    ensures Kept(Disturb(s, a), i)
  {
    LastBuiltAppend(s.log, Requested(s.now));
  }

  /** The steps that neither read nor answer requests. */
  predicate LeavesRequests(a: Action) {
    a.Wake? || a.DigestDone? || a.SteadyDone? || a.TimerBeat? || a.CapsSeen?
  }

  lemma KeptOtherwise(cfg: Config, s: State, a: Action, i: nat)
    requires Enabled(s, a) && LeavesRequests(a) && i < |s.log| && Kept(s, i)
    ensures Kept(Next(cfg, s, a), i)
  {
    var r := Next(cfg, s, a);
    assert r.queue == s.queue && r.responsePending == s.responsePending && r.log == s.log;
    assert (r.phase.PublishingDigest? || r.phase.PublishingTargeted?) ==> a.DigestDone?;
  }

  /** One step keeps a request served, queued or remembered. */
  lemma KeptStep(cfg: Config, s: State, a: Action, i: nat)
    requires Enabled(s, a) && i < |s.log| && (GotResponse(s.log, i) || Kept(s, i))
    ensures GotResponse(Next(cfg, s, a).log, i) || Kept(Next(cfg, s, a), i)
  {
    if GotResponse(s.log, i) {
      ResponseStays(cfg, s, a, i);
    } else {
      match a {
        case Begin(ok) => KeptByBegin(cfg, s, ok, i);
        case TargetedDone(ok) => KeptByTargeted(cfg, s, ok, i);
        case Receive => KeptByReceive(cfg, s, i);
        case _ =>
          if LeavesRequests(a) {
            KeptOtherwise(cfg, s, a, i);
          } else {
            KeptByDisturbance(s, a, i);
          }
      }
    }
  }

  lemma {:induction false} RequestIsKept(cfg: Config, publishable: bool, schedule: seq<Action>, i: nat)
    requires i < |Run(Anything, cfg, publishable, schedule).log|
    requires Run(Anything, cfg, publishable, schedule).log[i].Requested?
    ensures var s := Run(Anything, cfg, publishable, schedule);
            GotResponse(s.log, i) || Kept(s, i)
  {
    if schedule != [] {
      var n := |schedule| - 1;
      var s := Run(Anything, cfg, publishable, schedule[..n]);
      if Permitted(Anything, s, schedule[n]) {
        if i < |s.log| {
          RequestIsKept(cfg, publishable, schedule[..n], i);
          KeptStep(cfg, s, schedule[n], i);
        }
      } else {
        RequestIsKept(cfg, publishable, schedule[..n], i);
      }
    }
  }

  /** Whatever happens, a request that no response has served yet is still queued or
      remembered: neither a failed build, a failed publish, capabilities that are not ready
      nor a full queue ever loses it. */
  lemma NoRequestIsLost(cfg: Config, publishable: bool, schedule: seq<Action>, i: nat)
    requires i < |Run(Anything, cfg, publishable, schedule).log|
    requires Run(Anything, cfg, publishable, schedule).log[i].Requested?
    ensures var s := Run(Anything, cfg, publishable, schedule);
            GotResponse(s.log, i) || Outstanding(s)
  {
    RequestIsKept(cfg, publishable, schedule, i);
  }

  /** And whatever happened before, the next cycle that builds and publishes serves every
      request made up to then. */
  lemma OutstandingIsServed(cfg: Config, s: State, i: nat)
    requires s.phase.CycleTop? && s.publishable && Outstanding(s) && i < |s.log|
    ensures var built := Next(cfg, s, Begin(true));
            && built.phase.PublishingDigest?
            && Next(cfg, built, DigestDone).phase.PublishingTargeted?
            && GotResponse(Next(cfg, Next(cfg, built, DigestDone), TargetedDone(true)).log, i)
  {
    var built := Next(cfg, s, Begin(true));
    var sent := Next(cfg, Next(cfg, built, DigestDone), TargetedDone(true));
    LastBuiltAppend(s.log, Built(s.now));
    assert sent.log[..|s.log| + 1] == s.log + [Built(s.now)];
    assert sent.log[|s.log| + 1].Responded?;
  }
}
