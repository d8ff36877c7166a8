/** When what the screen shows of an agent is published. */
module AgentScreen {
  import opened Prelude
  import opened AgentPresence

  const PENDING_IDLE_CONFIRMATIONS := 3
  const PENDING_IDLE_CAP := 700
  const SIGNAL_REFRESH := 800
  const STARTUP_GRACE := 3_000

  datatype AgentState = Idle | Working | Blocked | Unknown

  /** A state and the signs of it that are visible on the screen. */
  datatype Shown = Shown(state: AgentState, idle: bool, blocker: bool, working: bool)

  /** An agent that seems to have gone idle, seen so a number of times since a start. */
  datatype PendingIdle = NotPending | Pending(since: nat, confirmations: nat)

  datatype Screen = Screen(
    shown: Shown,
    refreshed: Option<nat>,
    text: nat,
    scanned: Option<nat>,
    grace: Option<nat>,
    pendingIdle: PendingIdle)

  /** `StateChanged` as it is sent to the application. */
  datatype Published = Published(agent: Option<Agent>, state: AgentState, blocker: bool, working: bool, exited: bool)

  /** Signs count only for the state that they are signs of. */
  function Stable(detected: Shown): Shown {
    Shown(detected.state, detected.idle && detected.state == Idle, detected.blocker && detected.state == Blocked,
          detected.working && detected.state == Working)
  }

  /** Whether a fall from working to a plain idle is held back, and what is pending then. */
  function HoldIdle(p: PendingIdle, was: Shown, next: Shown, agentChanged: bool, exited: bool, now: nat)
      : (bool, PendingIdle)
  {
    if !(was.state == Working && next.state == Idle && !next.idle && !next.blocker && !agentChanged && !exited)
        then (false, NotPending)
    else if p.NotPending? then (true, Pending(now, 0))
    else if Elapsed(now, p.since) >= PENDING_IDLE_CAP then (false, NotPending)
    else if SatAdd(p.confirmations, 1, 0xff) >= PENDING_IDLE_CONFIRMATIONS then (false, NotPending)
    else (true, Pending(p.since, SatAdd(p.confirmations, 1, 0xff)))
  }

  predicate ShouldPublish(s: Screen, next: Shown, agentChanged: bool, exited: bool, now: nat) {
    || next != s.shown || agentChanged || exited
    || (next.blocker && s.shown.blocker && (s.refreshed.None? || Elapsed(now, s.refreshed.value) >= SIGNAL_REFRESH))
  }

  /** A screen that was scanned in this state already is not scanned again. */
  predicate SkipScan(s: Screen, agent: Option<Agent>, agentChanged: bool, exited: bool, content: nat) {
    && s.shown.state == Idle && agent.Some? && s.pendingIdle.NotPending? && !agentChanged && !exited
    && s.scanned == Some(content)
  }

  /** What an exit is published as. */
  const EXITED := Shown(Idle, true, false, false)

  function PublishedScreen(s: Screen, next: Shown, now: nat): Screen {
    s.(shown := next, refreshed := if next.blocker || next.working then Some(now) else None)
  }

  /** Decide on a detected state; the screen after it, and whether it was published. */
  function Decide(s: Screen, detected: Shown, agentChanged: bool, exited: bool, now: nat): (Screen, bool) {
    var next := Stable(detected);
    var (hold, pending) := HoldIdle(s.pendingIdle, s.shown, next, agentChanged, exited, now);
    var held := s.(pendingIdle := pending);
    if hold || !ShouldPublish(held, next, agentChanged, exited, now) then (held, false)
    else (PublishedScreen(held, next, now), true)
  }

  // --- How long a fall to idle is held back ---

  /** A fall from working to an idle without signs of its own. */
  predicate PlainFall(s: Screen, detected: Shown) {
    var next := Stable(detected);
    s.shown.state == Working && next.state == Idle && !next.idle && !next.blocker
  }

  /** The screen after the same state was detected at these times, and whether it was published at one of them. */
  function Persisting(s: Screen, detected: Shown, times: seq<nat>): (Screen, bool)
    decreases |times|
  {
    if times == [] then (s, false)
    else
      var (next, published) := Decide(s, detected, false, false, times[0]);
      if published then (next, true) else Persisting(next, detected, times[1..])
  }

  /** None of the times is as late as the cap allows, counted from `since`. */
  predicate WithinCap(since: nat, times: seq<nat>) {
    forall i :: 0 <= i < |times| ==> Elapsed(times[i], since) < PENDING_IDLE_CAP
  }

  lemma {:induction false} StillHeld(s: Screen, detected: Shown, times: seq<nat>)
    requires PlainFall(s, detected) && s.pendingIdle.Pending?
             && s.pendingIdle.confirmations < PENDING_IDLE_CONFIRMATIONS
    ensures var (after, published) := Persisting(s, detected, times);
            && (!published <==> WithinCap(s.pendingIdle.since, times)
                                && (times == [] || s.pendingIdle.confirmations + |times| < PENDING_IDLE_CONFIRMATIONS))
            && after.shown == if published then Stable(detected) else s.shown
    decreases |times|
  {
    if times != [] {
      var (next, published) := Decide(s, detected, false, false, times[0]);
      if !published {
        StillHeld(next, detected, times[1..]);
        assert WithinCap(s.pendingIdle.since, times) <==> WithinCap(s.pendingIdle.since, times[1..]) by {
          assert times == [times[0]] + times[1..];
        }
      } else {
        assert WithinCap(s.pendingIdle.since, times) ==> Elapsed(times[0], s.pendingIdle.since) < PENDING_IDLE_CAP;
      }
    }
  }

  /** A fall to idle that persists is held back for exactly as long as it was seen at most three times, all within 700
      milliseconds of the first: the third re-check publishes it, or the first one after that time. */
  lemma HeldThrough(s: Screen, detected: Shown, times: seq<nat>)
    requires PlainFall(s, detected) && s.pendingIdle.NotPending?
    ensures var (after, published) := Persisting(s, detected, times);
            && (!published <==>
                  |times| <= PENDING_IDLE_CONFIRMATIONS && (times != [] ==> WithinCap(times[0], times[1..])))
            && after.shown == if published then Stable(detected) else s.shown
  {
    if times != [] {
      StillHeld(Decide(s, detected, false, false, times[0]).0, detected, times[1..]);
    }
  }
}
