/** The exit protocol over whole runs of the detection loop. */
module AgentRuns {
  import opened Prelude
  import opened AgentPresence
  import opened AgentScreen
  import opened AgentDetector

  ghost predicate Inv(d: Detector) {
    && d.presence.misses < MISS_ATTEMPTS
    && (d.presence.agent.None? ==> d.presence.misses == 0 && !d.exit.pending)
    && (d.exit.reported ==> d.exit.pending)
  }

  // --- One turn ---

  /** Whether a turn publishes an exit. */
  predicate PublishesExit(published: seq<Published>) {
    exists e :: e in published && e.exited
  }

  /** The screen half leaves the presence as it is, and marks an exit as reported exactly when it publishes it. */
  lemma ScreenHalfExit(loop: Loop, d: Detector, t: Tick, changed: bool, groupChanged: bool)
    ensures var (after, published) := ScreenHalf(loop, d, t, changed, groupChanged);
            && after.presence == d.presence && after.exit.pending == d.exit.pending
            && |published| <= 1 && (forall e :: e in published ==> e.agent == d.presence.agent)
            && (PublishesExit(published) <==> after.exit.reported && !d.exit.reported)
            && (d.exit.reported ==> after.exit.reported)
  {
    var (after, published) := ScreenHalf(loop, d, t, changed, groupChanged);
    if |published| == 1 { assert published[0] in published; }
  }

  /** What a turn does to the presence and the flags: the action that the probe calls for, and then the mark that
      an exit was published. */
  lemma TurnEffect(loop: Loop, d: Detector, t: Tick)
    ensures var (after, published) := Turn(loop, d, t);
            var h := ProbeHalf(d, t);
            && after.presence == h.detector.presence && after.exit.pending == h.detector.exit.pending
            && (h.detector.exit.reported ==> after.exit.reported)
            && (after.exit.reported && !h.detector.exit.reported ==> Exiting(h.detector))
            && (PublishesExit(published) <==> after.exit.reported && !h.detector.exit.reported)
  {
    var h := ProbeHalf(d, t);
    var r := ScreenHalf(loop, h.detector, t, h.changed, h.groupChanged);
    ScreenHalfExit(loop, h.detector, t, h.changed, h.groupChanged);
    WelcomeIsNoExit(d, t);
    if PublishesExit(r.1) {
      var e :| e in r.1 && e.exited;
      assert e in h.published + r.1;
    }
  }

  lemma WelcomeIsNoExit(d: Detector, t: Tick)
    ensures !PublishesExit(ProbeHalf(d, t).published)
    ensures forall e :: e in ProbeHalf(d, t).published ==> e.agent == ProbeHalf(d, t).detector.presence.agent
  {
  }

  lemma TurnKeeps(loop: Loop, d: Detector, t: Tick)
    requires Inv(d)
    ensures Inv(Turn(loop, d, t).0)
  {
    TurnEffect(loop, d, t);
  }

  /** An exit that is being reported forces a probe, whatever the lifecycle hook says. */
  lemma PendingForcesProbe(d: Detector, t: Tick)
    requires d.exit.pending && t.pid > 0
    ensures Probes(d, t)
  {
  }

  /** The turn after a reported exit resolves it: the pane is known for exactly what the probe saw, be it nothing, a
      new process of the same agent or another agent, and no exit is being reported any more. */
  lemma ReportedExitResolved(loop: Loop, d: Detector, t: Tick)
    requires Inv(d) && d.exit.reported && t.pid > 0
    ensures Turn(loop, d, t).0.presence == Presence(Seen(t), 0)
    ensures Turn(loop, d, t).0.exit == Exit(false, false)
  {
    PendingForcesProbe(d, t);
    TurnEffect(loop, d, t);
  }

  /** When a probe finds the shell in front of a pane known for an agent, the turn publishes the exit and keeps the
      identity. Only the full loop puts it off, exactly while the screen rules hide the text. */
  lemma ExitIsPublished(loop: Loop, d: Detector, t: Tick)
    requires Inv(d) && Probes(d, t) && d.presence.agent.Some? && !d.exit.reported && Seen(t).None?
             && t.probe.shellInFront
    ensures var (after, published) := Turn(loop, d, t);
            && after.presence == d.presence && after.exit.pending
            && (if loop == Full && t.skipped then published == [] && !after.exit.reported
                else published == [Published(d.presence.agent, Idle, false, false, true)] && after.exit.reported
                     && after.screen.shown == Shown(Idle, true, false, false))
  {
    var h := ProbeHalf(d, t);
    assert h.published == [] && Exiting(h.detector);
    var r := ScreenHalf(loop, h.detector, t, h.changed, h.groupChanged);
    assert [] + r.1 == r.1;
  }

  /** Exactly when a pane loses its agent: a probe sees none, and either the exit was reported, or five probes in
      a row had missed it already and the shell is not in front. */
  lemma LosesAgent(loop: Loop, d: Detector, t: Tick)
    requires Inv(d) && d.presence.agent.Some?
    ensures Turn(loop, d, t).0.presence.agent.None? <==>
              Probes(d, t) && Seen(t).None?
                  && (d.exit.reported || (d.presence.misses == MISS_ATTEMPTS - 1 && !t.probe.shellInFront))
  {
    TurnEffect(loop, d, t);
  }

  // --- Runs ---

  /** The detector after a number of turns without a reset, and all that they published. */
  function Run(loop: Loop, d: Detector, ticks: seq<Tick>): (Detector, seq<Published>) {
    if ticks == [] then (d, [])
    else
      var before := Run(loop, d, ticks[..|ticks| - 1]);
      var last := Turn(loop, before.0, ticks[|ticks| - 1]);
      (last.0, before.1 + last.1)
  }

  /** What the probes of a run saw. */
  function Sightings(loop: Loop, d: Detector, ticks: seq<Tick>): seq<Option<Agent>> {
    if ticks == [] then []
    else
      var n := |ticks| - 1;
      Sightings(loop, d, ticks[..n]) + if Probes(Run(loop, d, ticks[..n]).0, ticks[n]) then [Seen(ticks[n])] else []
  }

  /** The last `n` of the sightings were of nothing. */
  predicate Missed(sightings: seq<Option<Agent>>, n: nat) {
    n <= |sightings| && forall i :: |sightings| - n <= i < |sightings| ==> sightings[i].None?
  }

  /** The exit of `agent` was published, and nothing since was about another. */
  predicate ExitKnown(log: seq<Published>, agent: Option<Agent>) {
    log != [] &&
    var last := log[|log| - 1];
    last.agent == agent && (last.exited || ExitKnown(log[..|log| - 1], agent))
  }

  /** A detector at the start of a run: just started, or just reset. */
  predicate Started(d: Detector) {
    d.presence.misses == 0 && d.exit == Exit(false, false)
  }

  lemma {:induction false} ExitStaysKnown(log: seq<Published>, more: seq<Published>, agent: Option<Agent>)
    requires ExitKnown(log, agent) && forall e :: e in more ==> e.agent == agent
    ensures ExitKnown(log + more, agent)
  {
    if more == [] {
      assert log + more == log;
    } else {
      var n := |more| - 1;
      ExitStaysKnown(log, more[..n], agent);
      assert (log + more)[..|log| + n] == log + more[..n];
    }
  }

  /** The history behind the state: counted misses were missed probes in a row, and a reported exit was published
      for the very agent that the pane is still known for. */
  lemma {:induction false} History(loop: Loop, d: Detector, ticks: seq<Tick>)
    requires Started(d)
    ensures var (now, log) := Run(loop, d, ticks);
            && Inv(now)
            && Missed(Sightings(loop, d, ticks), now.presence.misses)
            && (now.exit.reported ==> ExitKnown(log, now.presence.agent))
    decreases |ticks|
  {
    if ticks != [] {
      var n := |ticks| - 1;
      History(loop, d, ticks[..n]);
      var before, t := Run(loop, d, ticks[..n]), ticks[n];
      TurnKeeps(loop, before.0, t);
      MissesCount(loop, before.0, t, Sightings(loop, d, ticks[..n]));
      ReportsKnown(loop, before.0, t, before.1);
    }
  }

  lemma MissesCount(loop: Loop, d: Detector, t: Tick, seen: seq<Option<Agent>>)
    requires Inv(d) && Missed(seen, d.presence.misses)
    ensures Missed(seen + if Probes(d, t) then [Seen(t)] else [], Turn(loop, d, t).0.presence.misses)
  {
    TurnEffect(loop, d, t);
    if !Probes(d, t) { assert seen + [] == seen; }
  }

  lemma ReportsKnown(loop: Loop, d: Detector, t: Tick, log: seq<Published>)
    requires Inv(d) && (d.exit.reported ==> ExitKnown(log, d.presence.agent))
    ensures var (after, published) := Turn(loop, d, t);
            after.exit.reported ==> ExitKnown(log + published, after.presence.agent)
  {
    var h := ProbeHalf(d, t);
    var r := ScreenHalf(loop, h.detector, t, h.changed, h.groupChanged);
    TurnEffect(loop, d, t);
    ScreenHalfExit(loop, h.detector, t, h.changed, h.groupChanged);
    WelcomeIsNoExit(d, t);
    if h.detector.exit.reported {
      StaysReported(d, t);
      AllAbout(h.published, r.1, d.presence.agent);
      ExitStaysKnown(log, h.published + r.1, d.presence.agent);
    } else if r.0.exit.reported {
      NowKnown(log, h.published, r.1, r.0.presence.agent);
    }
  }

  /** An exit that is still reported after the first half of a turn was reported before it, for the same agent. */
  lemma StaysReported(d: Detector, t: Tick)
    requires Inv(d) && ProbeHalf(d, t).detector.exit.reported
    ensures d.exit.reported && ProbeHalf(d, t).detector.presence.agent == d.presence.agent
  {
  }

  lemma AllAbout(a: seq<Published>, b: seq<Published>, agent: Option<Agent>)
    requires (forall e :: e in a ==> e.agent == agent) && (forall e :: e in b ==> e.agent == agent)
    ensures forall e :: e in a + b ==> e.agent == agent
  {
  }

  lemma NowKnown(log: seq<Published>, a: seq<Published>, b: seq<Published>, agent: Option<Agent>)
    requires |b| <= 1 && PublishesExit(b) && (forall e :: e in b ==> e.agent == agent)
    ensures ExitKnown(log + (a + b), agent)
  {
    var e :| e in b && e.exited;
    assert b == [e];
    var all := log + (a + b);
    assert all[|all| - 1] == e;
  }

  /** Over every run: a pane loses its agent only after the exit of that agent was published, with nothing about
      another agent since, or after six probes in a row that saw none. */
  lemma IdentityIsNotLostSilently(loop: Loop, d: Detector, ticks: seq<Tick>, t: Tick)
    requires Started(d)
    requires Run(loop, d, ticks).0.presence.agent.Some? && Run(loop, d, ticks + [t]).0.presence.agent.None?
    ensures || ExitKnown(Run(loop, d, ticks).1, Run(loop, d, ticks).0.presence.agent)
            || Missed(Sightings(loop, d, ticks + [t]), MISS_ATTEMPTS)
  {
    assert (ticks + [t])[..|ticks|] == ticks;
    History(loop, d, ticks);
    LosesAgent(loop, Run(loop, d, ticks).0, t);
  }

  /** No exit is published twice: one that was, is published again only after a turn that resolved it. */
  lemma ExitPublishedOnce(loop: Loop, d: Detector, t: Tick)
    requires Inv(d) && PublishesExit(Turn(loop, d, t).1)
    ensures !d.exit.reported && Turn(loop, d, t).0.exit.reported
            && Turn(loop, d, t).0.presence.agent == d.presence.agent
    ensures d.presence.agent.Some?
  {
    TurnEffect(loop, d, t);
  }

  lemma StartsAreStarted(loop: Loop, now: nat, restored: Option<Agent>, d: Detector)
    ensures Started(Initial(loop, now, restored)) && Started(Reset(loop, d, now))
  {
  }
}
