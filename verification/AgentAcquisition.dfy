/** How a pane gets its agent, what a turn publishes of it, and which agent it is known for over whole runs. */
module AgentAcquisition {
  import opened Prelude
  import opened AgentPresence
  import opened AgentScreen
  import opened AgentDetector
  import opened AgentRuns

  // --- Which turns probe ---

  /** A turn probes whenever the foreground group is another than the one remembered, whatever is being released or
      under the authority of a lifecycle hook. */
  lemma ChangedGroupProbes(d: Detector, t: Tick)
    requires t.pid > 0 && t.group != d.probing.lastGroup
    ensures Probes(d, t)
  {
  }

  /** And otherwise, when no agent is being released and no lifecycle hook speaks: after five seconds for a pane with an
      agent, at the first turn for one without, and after thirty seconds when the kernel shows no group. */
  lemma ProbesInTime(d: Detector, t: Tick)
    requires t.pid > 0 && !t.lifecycle && t.suppressed == None
    requires || (d.presence.agent.Some? && t.now >= d.probing.lastCheck + 5_000)
             || (d.presence.agent.None? && !d.probing.probed)
             || (t.group.None? && t.now >= d.probing.lastCheck + 30_000)
    ensures Probes(d, t)
  {
  }

  /** New content in a pane without an agent makes it probe again within half a second for a second and a half, and
      within two seconds until eight are over. */
  lemma ProbesWhileAcquiring(d: Detector, t: Tick, since: nat)
    requires t.pid > 0 && !t.lifecycle && t.suppressed == None && !d.probing.releasing
    requires d.probing.acquisition == Some(since) && since <= t.now <= since + 8_000
    requires t.now >= d.probing.lastCheck + if t.now <= since + 1_500 then 500 else 2_000
    ensures Probes(d, t)
  {
  }

  /** Between probes a pane with an agent is left alone: for five seconds after a turn that probed and found one, turns
      in the same group do not probe, unless an exit is pending, an agent is being released, or a probe fails to find
      the group that the kernel shows. */
  lemma QuietAfterProbe(loop: Loop, d: Detector, t: Tick, u: Tick, a: Agent)
    requires Inv(d) && Probes(d, t) && Seen(t) == Some(a) && t.suppressed == None && u.suppressed == None
    requires t.pid > 0 && u.pid > 0 && t.group.Some?
             && u.group == (if t.probe.group.Some? then t.probe.group else t.group)
    requires t.now <= u.now < t.now + 5_000
    ensures !Probes(Turn(loop, d, t).0, u)
  {
    Acquires(loop, d, t, a);
    ProbeNoted(loop, d, t);
  }

  /** In the group of the last probe, and without a pending exit, turns do not probe while a lifecycle hook speaks,
      while an agent is being released, or in a pane without an agent in which nothing happens. */
  lemma SettledGroupDoesNotProbe(d: Detector, t: Tick)
    requires t.pid > 0 && t.group.Some? && t.group == d.probing.lastGroup && d.probing.probed && !d.exit.pending
    requires || (t.lifecycle && t.suppressed.None? && !d.probing.releasing)
             || (t.suppressed.Some? && !d.probing.restoring)
             || (d.presence.agent.None? && d.probing.acquisition.None? && t.suppressed.None?
                 && !d.probing.restoring && !d.probing.releasing)
    ensures !Probes(d, t)
  {
  }

  /** What a probe leaves to decide on the next one. */
  lemma ProbeNoted(loop: Loop, d: Detector, t: Tick)
    requires Inv(d) && Probes(d, t) && Seen(t).Some? && t.suppressed == None
    ensures var q := Turn(loop, d, t).0.probing;
            && q.lastCheck == t.now && q.probed && !q.restoring && !q.releasing && q.acquisition == None
            && q.lastGroup == (if t.group.None? then None else if t.probe.group.Some? then t.probe.group else t.group)
  {
    var h := ProbeHalf(d, t);
    assert h.detector.presence.agent.Some?;
  }

  /** New content on the screen of a pane without an agent starts a time of frequent probes. */
  lemma ContentWakes(loop: Loop, d: Detector, t: Tick)
    requires d.presence.agent.None? && !Probes(d, t) && t.pid > 0 && t.suppressed == None && !d.probing.releasing
    requires t.group == d.probing.lastGroup && d.probing.acquisition == None
    requires !t.lifecycle && d.screen.grace.None? && t.text != d.screen.text
    ensures Turn(loop, d, t).0.probing.acquisition == Some(t.now)
  {
  }

  /** The first turn probes, also after a reset; an agent restored from an earlier session is shown as
      idle until then. */
  lemma FirstTurnProbes(loop: Loop, now: nat, restored: Option<Agent>, t: Tick)
    requires t.pid > 0
    ensures var d := Initial(loop, now, restored);
            && Probes(d, t) && Probes(Reset(loop, d, now), t)
            && (loop == Full && restored.Some? ==>
                  d.presence.agent == restored && d.screen.shown == Shown(Idle, true, false, false))
            && (loop == Basic || restored.None? ==> d.presence.agent == None)
  {
  }

  /** The end of a release makes the next turn probe. */
  lemma ReleaseEndProbes(loop: Loop, d: Detector, t: Tick, u: Tick)
    requires Inv(d) && t.suppressed.Some? && u.suppressed.None? && u.pid > 0
    requires Turn(loop, d, t).0.presence.agent.None? && !u.lifecycle
    ensures Probes(Turn(loop, d, t).0, u)
  {
  }

  /** That time goes on with the content: a turn that finds new content less than two seconds after the last, or within
      the eight, does not start it again; one that finds none after both are over ends it. */
  lemma ContentKeepsAwake(loop: Loop, d: Detector, t: Tick, since: nat, last: nat)
    requires d.presence.agent.None? && !Probes(d, t) && t.pid > 0 && t.suppressed == None && !d.probing.releasing
    requires t.group == d.probing.lastGroup && d.probing.acquisition == Some(since)
    requires d.probing.contentChange == Some(last) && since <= last <= t.now && !t.lifecycle && d.screen.grace.None?
    ensures var over, q := t.now > since + 8_000 && t.now >= last + 2_000, Turn(loop, d, t).0.probing;
            if t.text != d.screen.text
            then q.acquisition == Some(if over then t.now else since) && q.contentChange == Some(t.now)
            else q.acquisition == (if over then None else Some(since))
  {
  }

  // --- One turn ---

  /** A probe that sees an agent makes the pane known for it, with no misses and no exit being reported. The turn
      publishes the agent as idle and starts its time of grace exactly when the pane was not known for it, or its exit
      had been reported; otherwise what it publishes, if anything, is what the screen shows. */
  lemma Acquires(loop: Loop, d: Detector, t: Tick, a: Agent)
    requires Inv(d) && Probes(d, t) && t.probe.agent == Some(a) && t.suppressed != Some(a)
    ensures var (after, published) := Turn(loop, d, t);
            && after.presence == Presence(Some(a), 0) && after.exit == Exit(false, false)
            && if d.presence.agent != Some(a) || d.exit.reported
               then published == [Published(Some(a), Idle, false, false, false)]
                    && after.screen.shown == Shown(Idle, true, false, false)
                    && (!t.lifecycle ==> after.screen.grace == Some(t.now + 3_000))
               else |published| <= 1
                    && forall e :: e in published ==>
                         e.agent == Some(a) && !e.exited && t.detected.Some? && e.state == t.detected.value.state
  {
    var h := ProbeHalf(d, t);
    var r := ScreenHalf(loop, h.detector, t, h.changed, h.groupChanged);
    ScreenHalfExit(loop, h.detector, t, h.changed, h.groupChanged);
    if d.presence.agent != Some(a) || d.exit.reported {
      assert h.published == [Published(Some(a), Idle, false, false, false)];
      assert r.1 == [];
    } else {
      assert [] + r.1 == r.1;
    }
  }

  /** An agent that is being released is not taken for one that is there. */
  lemma ReleasedIsNotSeen(loop: Loop, d: Detector, t: Tick, a: Agent)
    requires Inv(d) && d.presence.agent != Some(a) && t.suppressed == Some(a)
    ensures Turn(loop, d, t).0.presence.agent != Some(a)
  {
    LastTurn(loop, d, t, a);
  }

  /** An agent that comes to the foreground of a pane in a new group is published in that very turn. */
  lemma NewAgentPublished(loop: Loop, d: Detector, t: Tick, a: Agent)
    requires Inv(d) && t.pid > 0 && t.group != d.probing.lastGroup && d.presence.agent != Some(a)
    requires t.probe.agent == Some(a) && t.suppressed != Some(a)
    ensures Turn(loop, d, t).0.presence == Presence(Some(a), 0)
    ensures Turn(loop, d, t).1 == [Published(Some(a), Idle, false, false, false)]
  {
    ChangedGroupProbes(d, t);
    Acquires(loop, d, t, a);
  }

  /** A turn without a probe, or whose probe sees nothing, keeps the agent but for the cases of `LosesAgent`. */
  lemma KeepsAgent(loop: Loop, d: Detector, t: Tick)
    requires Inv(d) && !(Probes(d, t) && Seen(t).Some?) && !Loses(d, t)
    ensures Turn(loop, d, t).0.presence.agent == d.presence.agent
  {
    TurnEffect(loop, d, t);
  }

  // --- Runs ---

  /** The turn gives the agent up: its probe sees none, and either the exit was reported, or it is the sixth miss in a
      row and the shell is not in front. */
  predicate Loses(d: Detector, t: Tick) {
    && d.presence.agent.Some? && Probes(d, t) && Seen(t).None?
    && (d.exit.reported || (d.presence.misses == 5 && !t.probe.shellInFront))
  }

  predicate SeesAt(loop: Loop, d: Detector, ticks: seq<Tick>, k: nat, a: Agent)
    requires k < |ticks|
  {
    Probes(Run(loop, d, ticks[..k]).0, ticks[k]) && Seen(ticks[k]) == Some(a)
  }

  /** From turn `k` on nothing was sighted and nothing given up. */
  ghost predicate QuietFrom(loop: Loop, d: Detector, ticks: seq<Tick>, k: nat) {
    forall j :: k <= j < |ticks| ==> QuietAt(loop, d, ticks, j)
  }

  ghost predicate QuietAt(loop: Loop, d: Detector, ticks: seq<Tick>, j: nat)
    requires j < |ticks|
  {
    (forall a :: !SeesAt(loop, d, ticks, j, a)) && !Loses(Run(loop, d, ticks[..j]).0, ticks[j])
  }

  /** The agent was sighted at some turn, and nothing happened since that would change it. */
  ghost predicate LastSighted(loop: Loop, d: Detector, ticks: seq<Tick>, a: Agent) {
    || (d.presence.agent == Some(a) && QuietFrom(loop, d, ticks, 0))
    || exists k :: 0 <= k < |ticks| && SeesAt(loop, d, ticks, k, a) && QuietFrom(loop, d, ticks, k + 1)
  }

  lemma QuietGrows(loop: Loop, d: Detector, ticks: seq<Tick>, t: Tick, k: nat)
    requires k <= |ticks|
    ensures QuietFrom(loop, d, ticks + [t], k)
            <==> QuietFrom(loop, d, ticks, k) && QuietAt(loop, d, ticks + [t], |ticks|)
  {
    var all := ticks + [t];
    forall j | 0 <= j < |ticks| ensures QuietAt(loop, d, all, j) <==> QuietAt(loop, d, ticks, j) {
      SameBefore(loop, d, ticks, t, j);
    }
  }

  lemma SameBefore(loop: Loop, d: Detector, ticks: seq<Tick>, t: Tick, j: nat)
    requires j < |ticks|
    ensures (ticks + [t])[..j] == ticks[..j] && (ticks + [t])[j] == ticks[j]
    ensures forall a :: SeesAt(loop, d, ticks + [t], j, a) <==> SeesAt(loop, d, ticks, j, a)
    ensures QuietAt(loop, d, ticks + [t], j) <==> QuietAt(loop, d, ticks, j)
  {
  }

  lemma SightedGrows(loop: Loop, d: Detector, ticks: seq<Tick>, t: Tick, a: Agent)
    ensures LastSighted(loop, d, ticks + [t], a)
            <==> SeesAt(loop, d, ticks + [t], |ticks|, a)
                 || (LastSighted(loop, d, ticks, a) && QuietAt(loop, d, ticks + [t], |ticks|))
  {
    var all := ticks + [t];
    QuietGrows(loop, d, ticks, t, 0);
    forall k | 0 <= k < |ticks|
      ensures SeesAt(loop, d, all, k, a) && QuietFrom(loop, d, all, k + 1)
              <==> SeesAt(loop, d, ticks, k, a) && QuietFrom(loop, d, ticks, k + 1)
                   && QuietAt(loop, d, all, |ticks|)
    {
      SameBefore(loop, d, ticks, t, k);
      QuietGrows(loop, d, ticks, t, k + 1);
    }
    if SeesAt(loop, d, all, |ticks|, a) { assert QuietFrom(loop, d, all, |ticks| + 1); }
  }

  /** Over every run, the agent that a pane is known for is exactly the one that was sighted last, or that it started
      with, unless it was given up since. */
  lemma {:induction false} KnownIsLastSighted(loop: Loop, d: Detector, ticks: seq<Tick>, a: Agent)
    requires Started(d)
    ensures Run(loop, d, ticks).0.presence.agent == Some(a) <==> LastSighted(loop, d, ticks, a)
    decreases |ticks|
  {
    if ticks != [] {
      var n := |ticks| - 1;
      var before, t := ticks[..n], ticks[n];
      assert ticks == before + [t] && ticks[..n] == before;
      KnownIsLastSighted(loop, d, before, a);
      History(loop, d, before);
      SightedGrows(loop, d, before, t, a);
      LastTurn(loop, Run(loop, d, before).0, t, a);
      if Seen(t).Some? {
        assert SeesAt(loop, d, ticks, n, Seen(t).value) <==> Probes(Run(loop, d, before).0, t);
      }
    }
  }

  lemma LastTurn(loop: Loop, d: Detector, t: Tick, a: Agent)
    requires Inv(d)
    ensures Turn(loop, d, t).0.presence.agent == Some(a)
            <==> (Probes(d, t) && Seen(t) == Some(a))
                 || (d.presence.agent == Some(a) && !(Probes(d, t) && Seen(t).Some?) && !Loses(d, t))
  {
    if Probes(d, t) && Seen(t).Some? {
      Acquires(loop, d, t, Seen(t).value);
    } else if Loses(d, t) {
      LosesAgent(loop, d, t);
    } else {
      KeepsAgent(loop, d, t);
    }
  }

  // --- What the screen shows ---

  /** A detected state as it is shown: of its signs only its own. */
  predicate Shows(shown: Shown, detected: Shown) {
    && shown.state == detected.state
    && (shown.idle <==> detected.idle && detected.state == Idle)
    && (shown.blocker <==> detected.blocker && detected.state == Blocked)
    && (shown.working <==> detected.working && detected.state == Working)
  }

  /** What is published of a detected state that is no plain fall from working, without a change of agent and without an
      exit: exactly a state or a sign that differs from what is shown, at once, or a blocker that was not renewed for
      800 milliseconds. */
  lemma ChangeIsPublished(s: Screen, detected: Shown, now: nat)
    requires !PlainFall(s, detected)
    ensures var (after, published) := Decide(s, detected, false, false, now);
            && (published <==>
                  || !Shows(s.shown, detected)
                  || (detected.state == Blocked && detected.blocker && s.shown.blocker
                      && (s.refreshed.None? || now >= s.refreshed.value + 800)))
            && (published ==>
                  && Shows(after.shown, detected)
                  && after.refreshed == if after.shown.blocker || after.shown.working then Some(now) else None)
            && (!published ==> after.shown == s.shown)
            && after.pendingIdle == NotPending
  {
  }

  /** The turn gets as far as reading a state off the screen: no hook speaks, no time of grace is running, the screen is
      not one that was read as idle already, and no rule hides it. */
  predicate ReadsScreen(d: Detector, t: Tick) {
    && !t.lifecycle && d.screen.grace.None? && !t.skipped && t.detected.Some?
    && !(d.screen.shown.state == Idle && d.screen.scanned == Some(t.content))
  }

  /** In the time of grace of an agent nothing is published and what is shown stays, until the agent changes or an exit
      is to be published. The first turn that is not within that time ends it. */
  lemma GraceHolds(loop: Loop, d: Detector, t: Tick)
    requires Inv(d) && d.presence.agent.Some? && !d.exit.pending && !t.lifecycle && d.screen.grace.Some?
    requires Probes(d, t) ==> Seen(t) == d.presence.agent
    ensures var (after, published) := Turn(loop, d, t);
            && published == [] && after.screen.shown == d.screen.shown && after.presence.agent == d.presence.agent
            && after.screen.grace == if t.now < d.screen.grace.value then d.screen.grace else None
  {
    var h := ProbeHalf(d, t);
    assert !h.changed && h.published == [] && !Exiting(h.detector);
  }

  /** When an agent that stays is seen to begin, to stop for a question or to show that it is idle, the turn says so. */
  lemma TurnPublishesChange(loop: Loop, d: Detector, t: Tick)
    requires Inv(d) && d.presence.agent.Some? && !d.exit.pending && ReadsScreen(d, t)
    requires Probes(d, t) ==> Seen(t) == d.presence.agent
    requires !PlainFall(d.screen, t.detected.value) && !Shows(d.screen.shown, t.detected.value)
    ensures var (after, published) := Turn(loop, d, t);
            && Shows(after.screen.shown, t.detected.value)
            && published == [Published(d.presence.agent, t.detected.value.state, after.screen.shown.blocker,
                                       after.screen.shown.working, false)]
  {
    var h := ProbeHalf(d, t);
    assert !h.changed && h.published == [] && !Exiting(h.detector);
    var r := ScreenHalf(loop, h.detector, t, h.changed, h.groupChanged);
    var read := Graced(loop, h.detector, t).1.(scanned := Some(t.content), text := t.text);
    assert !PlainFall(read, t.detected.value);
    ChangeIsPublished(read, t.detected.value, t.now);
    assert [] + r.1 == r.1;
  }

  /** Nothing is published, and what is shown stays, while the rules hide the screen or it is one that was read as idle
      already. */
  lemma SilentScreen(loop: Loop, d: Detector, t: Tick)
    requires Inv(d) && d.presence.agent.Some? && !d.exit.pending && (Probes(d, t) ==> Seen(t) == d.presence.agent)
    requires t.skipped || (d.screen.shown.state == Idle && d.screen.pendingIdle.NotPending?
                           && d.screen.scanned == Some(t.content))
    ensures var (after, published) := Turn(loop, d, t);
            published == [] && after.screen.shown == d.screen.shown && after.presence.agent == d.presence.agent
  {
    var h := ProbeHalf(d, t);
    assert !h.changed && h.published == [] && !Exiting(h.detector);
  }
}
