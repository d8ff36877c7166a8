/**
 Who runs in a pane: how a process probe, taken at a tick of the detection loop, changes the agent that the pane is
 known for, and how the exit of that agent is reported before its identity is given up.
 */
module AgentPresence {
  import opened Prelude

  datatype Agent = Agent(code: nat)

  const MISS_ATTEMPTS := 6

  // Times are in milliseconds.
  const RECHECK_IDENTIFIED := 5_000
  const RECHECK_MISSING_GROUP := 30_000
  const ACQUISITION_WINDOW := 8_000
  const ACQUISITION_FAST_WINDOW := 1_500
  const ACQUISITION_FAST_RECHECK := 500
  const ACQUISITION_SLOW_RECHECK := 2_000
  const ACQUISITION_IDLE_RESET := 2_000

  /** The time from `since` to `now`, zero when that is not earlier. */
  function Elapsed(now: nat, since: nat): nat { SatSub(now, since) }

  // --- Presence ---

  datatype Presence = Presence(agent: Option<Agent>, misses: nat)

  function Cleared(p: Presence): Presence { Presence(None, 0) }

  function Observed(p: Presence, seen: Option<Agent>): Presence {
    if seen.Some? then Presence(seen, 0)
    else if p.agent.None? || SatAdd(p.misses, 1, 0xff) >= MISS_ATTEMPTS then Presence(None, 0)
    else p.(misses := SatAdd(p.misses, 1, 0xff))
  }

  // --- What a probe means ---

  datatype Action = ObserveProbe | ReportProcessExit | ReportReplacementProcess | ClearAgent

  /** The exit of an agent is being reported; it has been published. */
  datatype Exit = Exit(pending: bool, reported: bool)

  function ActionFor(previous: Option<Agent>, seen: Option<Agent>, shellInFront: bool, reported: bool): Action {
    if previous.None? then ObserveProbe
    else if reported then
      if seen == previous then ReportReplacementProcess else if seen.None? then ClearAgent else ObserveProbe
    else if seen.None? && shellInFront then ReportProcessExit
    else ObserveProbe
  }

  datatype Applied = Applied(presence: Presence, exit: Exit, changed: bool)

  function Apply(p: Presence, exit: Exit, action: Action, seen: Option<Agent>): Applied {
    match action
    case ReportReplacementProcess => Applied(Observed(p, p.agent), Exit(false, false), true)
    case ReportProcessExit => Applied(p, exit.(pending := true), false)
    case ClearAgent => Applied(Cleared(p), Exit(false, false), p.agent.Some?)
    case ObserveProbe => Applied(Observed(p, seen), Exit(false, false), Observed(p, seen).agent != p.agent)
  }

  // --- When to probe ---

  datatype Probing = Probing(
    lastCheck: nat,
    lastGroup: Option<u32>,
    probed: bool,
    acquisition: Option<nat>,
    contentChange: Option<nat>,
    releasing: bool,
    restoring: bool)

  predicate GroupChanged(group: Option<u32>, last: Option<u32>) { group != last }

  /** Only groups that the kernel shows are remembered. */
  function TrackedGroup(observed: Option<u32>, found: Option<u32>): Option<u32> {
    if observed.None? then None else if found.Some? then found else observed
  }

  predicate SkipProbe(lifecycle: bool, pending: bool, suppressed: Option<Agent>, group: Option<u32>, q: Probing) {
    lifecycle && group.Some? && !pending && suppressed.None? && q.probed && !GroupChanged(group, q.lastGroup)
  }

  predicate AcquisitionDue(q: Probing, now: nat) {
    q.acquisition.Some? &&
    var age := Elapsed(now, q.acquisition.value);
    && age <= ACQUISITION_WINDOW
    && Elapsed(now, q.lastCheck) >= (if age <= ACQUISITION_FAST_WINDOW then ACQUISITION_FAST_RECHECK
                                     else ACQUISITION_SLOW_RECHECK)
  }

  predicate ShouldProbe(agent: Option<Agent>, pending: bool, suppressed: Option<Agent>, group: Option<u32>, q: Probing,
                        now: nat) {
    var changed := GroupChanged(group, q.lastGroup);
    if pending || q.restoring then true
    else if suppressed.Some? then !q.probed || changed
    else if AcquisitionDue(q, now) then true
    else if agent.None? then !q.probed || changed || (group.None? && Elapsed(now, q.lastCheck) >= RECHECK_MISSING_GROUP)
    else changed || Elapsed(now, q.lastCheck) >= RECHECK_IDENTIFIED
  }

  /** A release that ended makes the next tick probe afresh. */
  function Released(q: Probing, suppressed: Option<Agent>): Probing {
    var renewed :=
      if suppressed.None? && q.releasing then q.(probed := false, acquisition := None, contentChange := None) else q;
    renewed.(releasing := suppressed.Some?)
  }

  function ProbedAt(q: Probing, now: nat, tracked: Option<u32>, seen: Option<Agent>, after: Option<Agent>,
                    groupChanged: bool): Probing {
    var p := q.(lastCheck := now, lastGroup := tracked, probed := true, restoring := false);
    if seen.Some? then p.(acquisition := None, contentChange := None)
    else if after.None? && q.probed && groupChanged then p.(acquisition := Some(now))
    else p
  }

  /** New content in an unidentified pane starts a time of frequent probes; quiet ends it. */
  function Acquiring(q: Probing, agent: Option<Agent>, suppressed: Option<Agent>, groupChanged: bool,
                     contentChanged: bool, now: nat): Probing {
    var over := q.acquisition.Some? && Elapsed(now, q.acquisition.value) > ACQUISITION_WINDOW;
    var quiet := q.contentChange.Some? && Elapsed(now, q.contentChange.value) >= ACQUISITION_IDLE_RESET;
    if agent.Some? || suppressed.Some? || groupChanged then q
    else if contentChanged then
      var start := q.acquisition.None? || (over && (q.contentChange.None? || quiet));
      q.(acquisition := if start then Some(now) else q.acquisition, contentChange := Some(now))
    else if over && quiet then q.(acquisition := None, contentChange := None)
    else q
  }
}
