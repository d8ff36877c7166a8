/** The detection loop of a pane: one tick, and what every run of ticks keeps. */
module AgentDetector {
  import opened Prelude
  import opened AgentPresence
  import opened AgentScreen

  /** The loop exists twice: for a pane that takes over a running process, and for a pane that starts one. */
  datatype Loop = Basic | Full

  datatype Detector = Detector(presence: Presence, exit: Exit, probing: Probing, screen: Screen)

  datatype Probe = Probe(group: Option<u32>, shellInFront: bool, agent: Option<Agent>)

  /** What a tick finds outside: the time, the agent being released, the processes and the screen. `skipped` and
      `detected` are what the screen rules say of the text for the agent known at that point. */
  datatype Tick = Tick(
    now: nat,
    suppressed: Option<Agent>,
    pid: nat,
    lifecycle: bool,
    group: Option<u32>,
    probe: Probe,
    content: nat,
    text: nat,
    skipped: bool,
    detected: Option<Shown>)

  const BLANK := Shown(Unknown, false, false, false)

  function InitialScreen(shown: Shown): Screen { Screen(shown, None, 0, None, None, NotPending) }

  /** A detector at its start; the full loop may start with an agent restored from an earlier session. */
  function Initial(loop: Loop, now: nat, restored: Option<Agent>): Detector {
    var known := if loop == Full then restored else None;
    Detector(Presence(known, 0), Exit(false, false), Probing(now, None, false, None, None, false, known.Some?),
             InitialScreen(if loop == Full then Shown(Idle, known.Some?, false, false) else BLANK))
  }

  /** Only the basic loop restarts the clock of its probes at a reset. */
  function Reset(loop: Loop, d: Detector, now: nat): Detector {
    Detector(Presence(None, 0), Exit(false, false),
             Probing(if loop == Basic then now else d.probing.lastCheck, None, false, None, None, false, false),
                 InitialScreen(BLANK))
  }

  /** The agent that the probe found, unless it is the one being released. */
  function Seen(t: Tick): Option<Agent> {
    if t.suppressed.Some? && t.probe.agent == t.suppressed then None else t.probe.agent
  }

  function Group(t: Tick): Option<u32> { if t.pid > 0 then t.group else None }

  predicate Probes(d: Detector, t: Tick) {
    var q := Released(d.probing, t.suppressed);
    && t.pid > 0
    && !SkipProbe(t.lifecycle, d.exit.pending, t.suppressed, Group(t), q)
    && ShouldProbe(d.presence.agent, d.exit.pending, t.suppressed, Group(t), q, t.now)
  }

  function ActionAt(d: Detector, t: Tick): Action {
    ActionFor(d.presence.agent, Seen(t), t.probe.shellInFront, d.exit.reported)
  }

  /** After a change of agent: forget what the screen showed, and publish a new agent as idle. */
  function Welcomed(s: Screen, agent: Option<Agent>, now: nat): (Screen, seq<Published>) {
    var cleared := s.(pendingIdle := NotPending, scanned := None);
    if agent.Some? then
      (cleared.(grace := Some(now + STARTUP_GRACE), shown := Shown(Idle, true, false, false), refreshed := None),
       [Published(agent, Idle, false, false, false)])
    else (cleared.(grace := None), [])
  }

  datatype Half = Half(detector: Detector, changed: bool, groupChanged: bool, published: seq<Published>)

  /** The first half of a tick: probe the processes when that is due. */
  function ProbeHalf(d: Detector, t: Tick): Half {
    var q := Released(d.probing, t.suppressed);
    var groupChanged := GroupChanged(Group(t), q.lastGroup);
    if !Probes(d, t) then Half(d.(probing := q), false, groupChanged, [])
    else
      var a := Apply(d.presence, d.exit, ActionAt(d, t), Seen(t));
      var probing := ProbedAt(q, t.now, TrackedGroup(Group(t), t.probe.group), Seen(t), a.presence.agent, groupChanged);
      var (screen, published) := if a.changed then Welcomed(d.screen, a.presence.agent, t.now) else (d.screen, []);
      Half(Detector(a.presence, a.exit, probing, screen), a.changed, groupChanged, published)
  }

  /** An exit that is not yet published. */
  predicate Exiting(d: Detector) { d.exit.pending && d.presence.agent.Some? && !d.exit.reported }

  function Idled(s: Screen): Screen { s.(pendingIdle := NotPending) }

  /** Whether a tick ends before it looks at the screen, and the screen then: under the authority of a lifecycle
      hook, or in the time of grace of a new agent. An exit ends the grace. */
  function Graced(loop: Loop, d: Detector, t: Tick): (bool, Screen) {
    var s := d.screen;
    if t.lifecycle && !Exiting(d) then (true, Idled(s))
    else if s.grace.None? then (false, s)
    else if Exiting(d) then (false, Idled(s.(grace := None, scanned := if loop == Full then None else s.scanned)))
    else if t.now < s.grace.value then (true, Idled(s))
    else (true, Idled(s.(grace := None, scanned := if loop == Basic then None else s.scanned)))
  }

  /** Whether the screen rules keep the text from being read as a state. In the full loop this goes for an exit too. */
  predicate Hidden(loop: Loop, d: Detector, t: Tick) {
    d.presence.agent.Some? && t.skipped && (loop == Full || !Exiting(d))
  }

  /** The second half of a tick: read the screen and publish what it shows. */
  function ScreenHalf(loop: Loop, d: Detector, t: Tick, changed: bool, groupChanged: bool): (Detector, seq<Published>) {
    var agent, exiting := d.presence.agent, Exiting(d);
    var (over, s) := Graced(loop, d, t);
    if over || SkipScan(s, agent, changed, exiting, t.content) then (d.(screen := s), [])
    else
      var read := s.(scanned := if agent.Some? then Some(t.content) else None, text := t.text);
      if Hidden(loop, d, t) then (d.(screen := Idled(read)), [])
      else
        var probing := Acquiring(d.probing, agent, t.suppressed, groupChanged, s.text != t.text, t.now);
        var detected := if exiting then Some(EXITED) else t.detected;
        if detected.None? then (d.(probing := probing, screen := Idled(read)), [])
        else
          var (screen, publish) := Decide(read, detected.value, changed, exiting, t.now);
          if !publish then (d.(probing := probing, screen := screen), [])
          else
            (Detector(d.presence, d.exit.(reported := d.exit.reported || exiting), probing, screen),
             [Published(agent, screen.shown.state, screen.shown.blocker, screen.shown.working, exiting)])
  }

  /** One turn of the loop: the detector after it, and what it published. */
  function Turn(loop: Loop, d: Detector, t: Tick): (Detector, seq<Published>) {
    var h := ProbeHalf(d, t);
    var r := ScreenHalf(loop, h.detector, t, h.changed, h.groupChanged);
    (r.0, h.published + r.1)
  }

  // --- The class ---

  /** `AgentDetectionPresence`. */
  class PresenceTracker {
    var currentAgent: Option<Agent>
    var consecutiveMisses: nat

    function State(): Presence
      reads this
    {
      Presence(currentAgent, consecutiveMisses)
    }

    constructor (agent: Option<Agent>)
      ensures State() == Presence(agent, 0)
    {
      currentAgent, consecutiveMisses := agent, 0;
    }

    method ClearCurrentAgent() returns (changed: bool)
      modifies this
      ensures State() == Cleared(old(State())) && changed == old(currentAgent).Some?
    {
      consecutiveMisses := 0;
      changed := currentAgent.Some?;
      currentAgent := None;
    }

    method ObserveProcessProbe(seen: Option<Agent>) returns (changed: bool)
      modifies this
      ensures State() == Observed(old(State()), seen) && changed == (currentAgent != old(currentAgent))
    {
      if seen.Some? {
        consecutiveMisses := 0;
        changed := seen != currentAgent;
        currentAgent := seen;
        return;
      }
      if currentAgent.None? {
        consecutiveMisses := 0;
        return false;
      }
      consecutiveMisses := SatAdd(consecutiveMisses, 1, 0xff);
      if consecutiveMisses < MISS_ATTEMPTS {
        return false;
      }
      currentAgent, consecutiveMisses := None, 0;
      changed := true;
    }
  }

  class DetectionLoop {
    const loop: Loop
    const presence: PresenceTracker
    var exit: Exit
    var probing: Probing
    var screen: Screen

    function State(): Detector
      reads this, presence
    {
      Detector(presence.State(), exit, probing, screen)
    }

    constructor (kind: Loop, now: nat, restored: Option<Agent>)
      ensures State() == Initial(kind, now, restored) && loop == kind && fresh(presence)
    {
      var known := if kind == Full then restored else None;
      loop := kind;
      presence := new PresenceTracker(known);
      exit := Exit(false, false);
      probing := Probing(now, None, false, None, None, false, known.Some?);
      screen := Screen(if kind == Full then Shown(Idle, known.Some?, false, false) else BLANK, None, 0, None, None,
                       NotPending);
    }

    /** Do what a probe calls for. */
    method ApplyAction(action: Action, seen: Option<Agent>) returns (changed: bool)
      modifies `exit, presence
      ensures var a := Apply(old(presence.State()), old(exit), action, seen);
              presence.State() == a.presence && exit == a.exit && changed == a.changed
    {
      match action
      case ReportReplacementProcess =>
        exit := Exit(false, false);
        var _ := presence.ObserveProcessProbe(presence.currentAgent);
        changed := true;
      case ReportProcessExit =>
        exit := exit.(pending := true);
        changed := false;
      case ClearAgent =>
        exit := Exit(false, false);
        changed := presence.ClearCurrentAgent();
      case ObserveProbe =>
        exit := Exit(false, false);
        changed := presence.ObserveProcessProbe(seen);
    }

    method ProbeProcesses(t: Tick) returns (changed: bool, groupChanged: bool, published: seq<Published>)
      modifies this, presence
      ensures var h := ProbeHalf(old(State()), t);
              State() == h.detector && changed == h.changed && groupChanged == h.groupChanged
                  && published == h.published
      ensures |published| <= 1 && (published != [] <==> changed && presence.currentAgent.Some?)
      ensures forall e :: e in published ==> e.agent == presence.currentAgent && e.state == Idle && !e.exited
    {
      var before := State();
      changed, published := false, [];
      probing := Released(probing, t.suppressed);
      groupChanged := GroupChanged(Group(t), probing.lastGroup);
      if Probes(before, t) {
        changed := ApplyAction(ActionAt(before, t), Seen(t));
        probing := ProbedAt(probing, t.now, TrackedGroup(Group(t), t.probe.group), Seen(t), presence.currentAgent,
                            groupChanged);
        if changed {
          var welcomed := Welcomed(screen, presence.currentAgent, t.now);
          screen, published := welcomed.0, welcomed.1;
        }
      }
    }

    method ReadScreen(t: Tick, changed: bool, groupChanged: bool) returns (published: seq<Published>)
      modifies this
      ensures (State(), published) == ScreenHalf(loop, old(State()), t, changed, groupChanged)
      ensures presence.State() == old(presence.State()) && |published| <= 1
      ensures exit.reported <==> old(exit.reported) || exists e :: e in published && e.exited
      ensures forall e :: e in published ==> e.agent == presence.currentAgent && (e.exited <==> Exiting(old(State())))
    {
      var agent, exiting, hidden := presence.currentAgent, Exiting(State()), Hidden(loop, State(), t);
      published := [];
      var graced := Graced(loop, State(), t);
      screen := graced.1;
      if graced.0 || SkipScan(screen, agent, changed, exiting, t.content) {
        return;
      }
      var contentChanged := screen.text != t.text;
      screen := screen.(scanned := if agent.Some? then Some(t.content) else None, text := t.text);
      if hidden {
        screen := Idled(screen);
        return;
      }
      probing := Acquiring(probing, agent, t.suppressed, groupChanged, contentChanged, t.now);
      var detected := if exiting then Some(EXITED) else t.detected;
      if detected.None? {
        screen := Idled(screen);
        return;
      }
      var decision := Decide(screen, detected.value, changed, exiting, t.now);
      screen := decision.0;
      if decision.1 {
        if exiting { exit := exit.(reported := true); }
        published := [Published(agent, screen.shown.state, screen.shown.blocker, screen.shown.working, exiting)];
      }
    }

    method RunOnce(t: Tick) returns (published: seq<Published>)
      modifies this, presence
      ensures (State(), published) == Turn(loop, old(State()), t)
    {
      var changed, groupChanged, welcome := ProbeProcesses(t);
      var shown := ReadScreen(t, changed, groupChanged);
      published := welcome + shown;
    }

    method ResetDetection(now: nat)
      modifies this, presence
      ensures State() == Reset(loop, old(State()), now)
    {
      var _ := presence.ClearCurrentAgent();
      exit := Exit(false, false);
      probing := Probing(if loop == Basic then now else probing.lastCheck, None, false, None, None, false, false);
      screen := Screen(BLANK, None, 0, None, None, NotPending);
    }
  }
}
