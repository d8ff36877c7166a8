/**
 Host ids of terminal images that collide. They are hashes, so that two images may share one; the ids of pane layers
 are handed out, and are never those of anything else.
 */
module GraphicsCollisions {
  import opened Prelude
  import opened KittyProtocol
  import opened GraphicsSpec
  import opened GraphicsMirror
  import opened GraphicsDrain
  import opened GraphicsMissed

  /** The id of a pane layer is its own; nothing is said of the ids of terminal images among themselves. */
  predicate Owned(ident: Ident, p: HostPlacement) {
    match p.source
    case TerminalImage(_, _) => p.layerHostId.None? && ident(p.hashedHostId).Pixels?
    case PaneLayer(_, _) => p.layerHostId.Some? && ident(p.layerHostId.value) == Layer(p.source, p.placementId)
  }

  /** An image with the id of a layer has the placement of that layer only. */
  ghost predicate LayersFaithful(ident: Ident, c: Cache) {
    forall k :: k in c.placements && ident(k.0).Layer? ==> k.1 == ident(k.0).placementId
  }

  ghost predicate Raw(fp: Fingerprint, ident: Ident, c: Cache, t: Terminal, lost: set<Key>) {
    Mirrors(fp, c, t, lost) && Grounded(c) && LayersFaithful(ident, c)
  }

  ghost predicate RawAfter(fp: Fingerprint, ident: Ident, c: Cache, t: Terminal, lost: set<Key>, commands: seq<Command>)
  {
    Raw(fp, ident, c, Interpret(t, commands), lost - Displayed(commands))
  }

  ghost predicate RawList(fp: Fingerprint, ident: Ident, list: seq<HostPlacement>) {
    forall p :: p in list ==> Owned(ident, p) && Described(fp, p)
  }

  /** A hazard needs a terminal image that was displayed since the replay began, under the id of another image. */
  lemma HazardNeedsReplayed(ident: Ident, c: Cache, p: HostPlacement)
    requires LayersFaithful(ident, c) && Owned(ident, p) && Hazard(c, p)
    ensures p.source.TerminalImage? && p.HostId() in c.images && !c.ImageCurrent(p)
    ensures p.Key() in c.placements && c.placements[p.Key()] == p.Placed() && (c.replay ==> p.Key() in c.replayed)
  {
  }

  // --- The transaction of one call ---

  /** The cache and the entry with which a scan emits its transaction, if it does. */
  function Emission(visit: Visitor, c: Cache, list: seq<HostPlacement>, index: nat, left: nat)
      : Option<(Cache, HostPlacement)>
    requires left > 0 ==> index < |list|
    decreases left
  {
    if left == 0 then None
    else
      match visit(c, list[index])
      case Pass(next) => Emission(visit, next, list, NextIndex(list, index), left - 1)
      case Emit(before, _, _) => Some((before, list[index]))
  }

  /** The emission of a whole call: none if the call deletes something first. */
  ghost function CallEmission(c: Cache, list: seq<HostPlacement>, live: set<SourceKey>, budget: Option<nat>)
      : Option<(Cache, HostPlacement)>
  {
    var front := Front(c, list, live);
    if front.stopped || front.emitted then None
    else Emission(Visiting(budget), front.cache, list, StartIndex(c, list), |list|)
  }

  /** Nothing changed that a terminal could show. */
  predicate SameShown(c: Cache, c': Cache) {
    c'.images == c.images && c'.placements == c.placements
  }

  /** A visit that passes changes nothing on screen; one that emits does so from where it found the cache. */
  ghost predicate Plainly(c: Cache, p: HostPlacement, v: Visit) {
    match v
    case Pass(next) =>
      SameShown(c, next) && next.replay == c.replay && next.replayed == c.replayed && (Grounded(c) ==> Grounded(next))
    case Emit(before, after, commands) =>
      before == c.(oversized := before.oversized) && PlacementUpdate(before, p) == Some((after, commands))
  }

  ghost predicate VisitsPlainly(visit: Visitor) {
    forall c, p {:trigger Asked(c, p)} :: Plainly(c, p, visit(c, p))
  }

  lemma SilentChangesNothing(c: Cache, p: HostPlacement, c': Cache)
    requires PlacementUpdate(c, p) == Some((c', []))
    ensures SameShown(c, c') && c'.replay == c.replay && c'.replayed == c.replayed && (Grounded(c) ==> Grounded(c'))
  {
    UpdateEffect(c, p, c', []);
    SilentUpdate(c, p, c');
    UpdateDecomposes(c, p);
    assert c.PlacementCurrent(p);
  }

  lemma VisitPlain(c: Cache, p: HostPlacement, budget: Option<nat>, v: Visit)
    requires v == VisitPlacement(c, p, budget)
    ensures Plainly(c, p, v)
  {
    var c1 := c.(oversized := c.oversized - {p.source});
    if v.Pass? && v.cache != c && v.cache != c1 && v.cache != c1.(oversized := c1.oversized[p.source := p.signature]) {
      SilentChangesNothing(c1, p, v.cache);
    }
  }

  lemma VisitingPlainly(budget: Option<nat>)
    ensures VisitsPlainly(Visiting(budget))
  {
    forall c, p ensures Plainly(c, p, Visiting(budget)(c, p)) {
      VisitPlain(c, p, budget, Visiting(budget)(c, p));
    }
  }

  /** Once something was emitted, the rest of the scan changes nothing on screen. */
  lemma {:induction false} ScanRestShows(visit: Visitor, c: Cache, list: seq<HostPlacement>, index: nat, left: nat,
                                         commands: seq<Command>, o: Outcome)
    requires VisitsPlainly(visit) && (left > 0 ==> index < |list|)
             && o == Scan(visit, c, list, index, left, commands, true)
    ensures SameShown(c, o.cache) && o.commands == commands && (Grounded(c) ==> Grounded(o.cache))
    decreases left
  {
    if left > 0 {
      assert Asked(c, list[index]);
      var v := visit(c, list[index]);
      if v.Pass? { ScanRestShows(visit, v.cache, list, NextIndex(list, index), left - 1, commands, o); }
    }
  }

  /** A scan does what its one transaction does, which it makes in a cache that agrees with the one it started from. */
  lemma {:induction false} ScanEmits(visit: Visitor, c: Cache, list: seq<HostPlacement>, index: nat, left: nat,
                                     o: Outcome)
      returns (after: Cache)
    requires VisitsPlainly(visit) && (left > 0 ==> index < |list|) && o == Scan(visit, c, list, index, left, [], false)
    ensures SameShown(after, o.cache) && (Grounded(after) ==> Grounded(o.cache))
    ensures var e := Emission(visit, c, list, index, left);
            && (e.None? ==> o.commands == [] && SameShown(c, after) && (Grounded(c) ==> Grounded(after)))
            && (e.Some? ==>
                 && SameShown(c, e.value.0) && e.value.0.replay == c.replay && e.value.0.replayed == c.replayed
                 && (Grounded(c) ==> Grounded(e.value.0)) && e.value.1 in list
                 && PlacementUpdate(e.value.0, e.value.1) == Some((after, o.commands)))
    decreases left
  {
    if left == 0 {
      after := c;
    } else {
      var p := list[index];
      assert Asked(c, p) && p in list;
      var v := visit(c, p);
      if v.Pass? {
        after := ScanEmits(visit, v.cache, list, NextIndex(list, index), left - 1, o);
      } else {
        after := v.after;
        ScanRestShows(visit, Resume(after, list, index), list, NextIndex(list, index), left - 1, v.commands, o);
      }
    }
  }

  // --- The front of the call ---

  lemma RawFrame(fp: Fingerprint, ident: Ident, c: Cache, c': Cache, t: Terminal, lost: set<Key>)
    requires Raw(fp, ident, c, t, lost) && SameShown(c, c') && Grounded(c')
    ensures Raw(fp, ident, c', t, lost)
  {
  }

  /** The deletions at the start of a call do not mind collisions: the identity they are proved with here is read off
      the cache itself. */
  lemma FrontRaw(fp: Fingerprint, ident: Ident, c: Cache, t: Terminal, lost: set<Key>, list: seq<HostPlacement>,
                 live: set<SourceKey>, front: Stage)
    requires Raw(fp, ident, c, t, lost) && front == Front(c, list, live)
    ensures RawAfter(fp, ident, front.cache, t, lost, front.commands) && (!front.emitted ==> front.commands == [])
  {
    var own: Ident := (id: u32) =>
      if ident(id).Layer? then ident(id)
      else if id in c.images then Pixels(c.images[id]) else ident(id);
    assert Synced(fp, own, c, t, lost);
    FrontSynced(fp, own, c, t, lost, list, live);
  }

  // --- One call ---

  lemma UpdateRaw(fp: Fingerprint, ident: Ident, c: Cache, t: Terminal, lost: set<Key>, p: HostPlacement, c': Cache,
                  commands: seq<Command>)
    requires Raw(fp, ident, c, t, lost) && Owned(ident, p) && Described(fp, p)
    requires PlacementUpdate(c, p) == Some((c', commands))
    ensures LayersFaithful(ident, c')
    ensures !Hazard(c, p) ==> RawAfter(fp, ident, c', t, lost, commands)
    ensures Hazard(c, p) ==> !Mirrors(fp, c', Interpret(t, commands), {})
  {
    UpdateEffect(c, p, c', commands);
    if Hazard(c, p) {
      HazardBreaks(fp, c, t, p, c', commands);
    } else {
      UpdateMirrors(fp, c, t, lost, p, c', commands);
    }
  }

  /** A call keeps the mirror unless its transaction is a hazard, whatever images share an id. */
  lemma CallKeepsRaw(fp: Fingerprint, ident: Ident, c: Cache, t: Terminal, lost: set<Key>, list: seq<HostPlacement>,
                     live: set<SourceKey>, budget: Option<nat>, o: Outcome)
    requires Raw(fp, ident, c, t, lost) && RawList(fp, ident, list) && o == Incremental(c, list, live, budget)
    ensures var e := CallEmission(c, list, live, budget);
            && (e.None? || !Hazard(e.value.0, e.value.1) ==> RawAfter(fp, ident, o.cache, t, lost, o.commands))
            && (e.Some? && Hazard(e.value.0, e.value.1) ==> !Mirrors(fp, o.cache, Interpret(t, o.commands), {}))
  {
    var front := Front(c, list, live);
    FrontRaw(fp, ident, c, t, lost, list, live, front);
    if !front.stopped {
      ScanKeepsRaw(fp, ident, t, lost, front, list, budget, StartIndex(c, list), o);
    }
  }

  lemma ScanKeepsRaw(fp: Fingerprint, ident: Ident, t: Terminal, lost: set<Key>, front: Stage, list: seq<HostPlacement>,
                     budget: Option<nat>, start: nat, o: Outcome)
    requires RawAfter(fp, ident, front.cache, t, lost, front.commands) && RawList(fp, ident, list)
    requires (!front.emitted ==> front.commands == []) && (list != [] ==> start < |list|)
    requires o == Scan(Visiting(budget), front.cache, list, start, |list|, front.commands, front.emitted)
    ensures var e := if front.emitted then None else Emission(Visiting(budget), front.cache, list, start, |list|);
            && (e.None? || !Hazard(e.value.0, e.value.1) ==> RawAfter(fp, ident, o.cache, t, lost, o.commands))
            && (e.Some? && Hazard(e.value.0, e.value.1) ==> !Mirrors(fp, o.cache, Interpret(t, o.commands), {}))
  {
    VisitingPlainly(budget);
    if front.emitted {
      ScanRestShows(Visiting(budget), front.cache, list, start, |list|, front.commands, o);
      RawFrame(fp, ident, front.cache, o.cache, Interpret(t, o.commands), lost - Displayed(o.commands));
    } else {
      assert lost - Displayed([]) == lost;
      var after := ScanEmits(Visiting(budget), front.cache, list, start, |list|, o);
      EmissionKeepsRaw(fp, ident, t, lost, front.cache, list,
                       Emission(Visiting(budget), front.cache, list, start, |list|), after, o);
    }
  }

  lemma EmissionKeepsRaw(fp: Fingerprint, ident: Ident, t: Terminal, lost: set<Key>, c: Cache, list: seq<HostPlacement>,
                         e: Option<(Cache, HostPlacement)>, after: Cache, o: Outcome)
    requires Raw(fp, ident, c, t, lost) && RawList(fp, ident, list)
    requires SameShown(after, o.cache) && (Grounded(after) ==> Grounded(o.cache))
    requires e.None? ==> o.commands == [] && SameShown(c, after) && (Grounded(c) ==> Grounded(after))
    requires e.Some? ==> SameShown(c, e.value.0) && (Grounded(c) ==> Grounded(e.value.0)) && e.value.1 in list
                         && PlacementUpdate(e.value.0, e.value.1) == Some((after, o.commands))
    ensures e.None? || !Hazard(e.value.0, e.value.1) ==> RawAfter(fp, ident, o.cache, t, lost, o.commands)
    ensures e.Some? && Hazard(e.value.0, e.value.1) ==> !Mirrors(fp, o.cache, Interpret(t, o.commands), {})
  {
    if e.None? {
      assert lost - Displayed([]) == lost;
      RawFrame(fp, ident, c, o.cache, t, lost);
    } else {
      var (b, p) := e.value;
      RawFrame(fp, ident, c, b, t, lost);
      UpdateRaw(fp, ident, b, t, lost, p, after, o.commands);
      if !Hazard(b, p) {
        RawFrame(fp, ident, after, o.cache, Interpret(t, o.commands), lost - Displayed(o.commands));
      } else if Mirrors(fp, o.cache, Interpret(t, o.commands), {}) {
        MirrorsFrame(fp, o.cache, after, Interpret(t, o.commands), {});
      }
    }
  }

  /** From agreement, a call keeps cache and terminal in agreement if and only if its transaction is not that of a
      terminal image displayed since the replay began, under the id of another image that the terminal has. */
  lemma CallKeepsMirrorIff(fp: Fingerprint, ident: Ident, c: Cache, t: Terminal, list: seq<HostPlacement>,
                           live: set<SourceKey>, budget: Option<nat>, o: Outcome)
    requires Raw(fp, ident, c, t, {}) && RawList(fp, ident, list) && o == Incremental(c, list, live, budget)
    ensures var e := CallEmission(c, list, live, budget);
            Mirrors(fp, o.cache, Interpret(t, o.commands), {}) <==> !(e.Some? && Hazard(e.value.0, e.value.1))
  {
    CallKeepsRaw(fp, ident, c, t, {}, list, live, budget, o);
    assert {} - Displayed(o.commands) == {};
  }

  lemma {:induction false} DropDeadMarks(c: Cache, dead: seq<SourceKey>, commands: seq<Command>, emitted: bool)
    ensures var s := DropDead(c, dead, commands, emitted); s.cache.replay == c.replay && s.cache.replayed <= c.replayed
    decreases |dead|
  {
    if dead != [] {
      var removed := c.(sources := c.sources - {dead[0]});
      if dead[0] !in c.sources {
        DropDeadMarks(c, dead[1..], commands, emitted);
      } else if c.ReferencedByOther(dead[0], c.sources[dead[0]]) {
        DropDeadMarks(removed, dead[1..], commands, emitted);
      } else if !emitted {
        DropDeadMarks(DropImage(removed, c.sources[dead[0]]), dead[1..], commands + [DeleteImage(c.sources[dead[0]])],
                      true);
      }
    }
  }

  lemma {:induction false} DropStaleMarks(c: Cache, stale: seq<Key>, commands: seq<Command>, emitted: bool)
    ensures var s := DropStale(c, stale, commands, emitted);
            s.cache.replay == c.replay && s.cache.replayed <= c.replayed
    decreases |stale|
  {
    if stale != [] && !emitted {
      DropStaleMarks(DropPlacement(c, stale[0]), stale[1..], commands + [DeletePlacement(stale[0].0, stale[0].1)],
                     true);
    }
  }

  /** A call that begins a replay meets no hazard. */
  lemma BeginningMeetsNone(fp: Fingerprint, ident: Ident, c: Cache, t: Terminal, lost: set<Key>,
                           list: seq<HostPlacement>, live: set<SourceKey>, budget: Option<nat>)
    requires Raw(fp, ident, c, t, lost) && RawList(fp, ident, list) && c.replay && c.replayed == {}
    ensures var e := CallEmission(c, list, live, budget); e.Some? ==> !Hazard(e.value.0, e.value.1)
  {
    var front, start := Front(c, list, live), StartIndex(c, list);
    FrontRaw(fp, ident, c, t, lost, list, live, front);
    var deadSources := SortedSources(DeadSources(c, live));
    DropDeadMarks(c, deadSources, [], false);
    var dead := DropDead(c, deadSources, [], false);
    if !dead.stopped {
      var kept := Retain(dead.cache, list, live);
      DropStaleMarks(kept, SortedKeys(StaleKeys(kept, list)), dead.commands, dead.emitted);
    }
    if !front.stopped && !front.emitted {
      EmissionMeetsNone(ident, front.cache, list, budget, start);
    }
  }

  lemma EmissionMeetsNone(ident: Ident, c: Cache, list: seq<HostPlacement>, budget: Option<nat>, start: nat)
    requires LayersFaithful(ident, c) && (forall p :: p in list ==> Owned(ident, p)) && (list != [] ==> start < |list|)
    requires c.replay && c.replayed == {}
    ensures var e := Emission(Visiting(budget), c, list, start, |list|); e.Some? ==> !Hazard(e.value.0, e.value.1)
  {
    VisitingPlainly(budget);
    var e := Emission(Visiting(budget), c, list, start, |list|);
    var after := ScanEmits(Visiting(budget), c, list, start, |list|,
                           Scan(Visiting(budget), c, list, start, |list|, [], false));
    if e.Some? && Hazard(e.value.0, e.value.1) {
      HazardNeedsReplayed(ident, e.value.0, e.value.1);
    }
  }

  // --- Runs in which ids collide ---

  /** As before, but terminal images may share ids. Only hosts that have pane layers are followed here, which the
      one-pass encoder does not serve. */
  ghost predicate RawAdmissible(fp: Fingerprint, ident: Ident, step: Step) {
    match step
    case PaintFrame(list, _, _) => RawList(fp, ident, list)
    case ReferenceFrame(_, _) => false
    case _ => true
  }

  ghost predicate RawRun(fp: Fingerprint, ident: Ident, hosts: seq<Host>, steps: seq<Step>) {
    && |hosts| == |steps| + 1 && hosts[0] == NEW_HOST
    && forall i :: 0 <= i < |steps| ==> RawAdmissible(fp, ident, steps[i]) && Next(hosts[i], steps[i], hosts[i + 1])
  }

  /** The program asks for a replay right before every frame that it paints. */
  predicate AsksFirst(steps: seq<Step>) {
    forall i :: 0 <= i < |steps| && steps[i].PaintFrame? ==> i > 0 && steps[i - 1].AskReplay?
  }

  /** The call of a painted frame that leaves nothing to do. */
  ghost predicate Completes(h: Host, step: Step) {
    step.PaintFrame? ==> !Incremental(h.cache, step.list, step.live, step.budget).incomplete
  }

  lemma NextRaw(fp: Fingerprint, ident: Ident, h: Host, step: Step, h': Host)
    requires Raw(fp, ident, h.cache, h.terminal, h.lost) && RawAdmissible(fp, ident, step) && Next(h, step, h')
    requires step.PaintFrame? ==> var e := CallEmission(h.cache, step.list, step.live, step.budget);
                                  e.Some? ==> !Hazard(e.value.0, e.value.1)
    ensures Raw(fp, ident, h'.cache, h'.terminal, h'.lost)
  {
    match step
    case PaintFrame(list, live, budget) =>
      CallKeepsRaw(fp, ident, h.cache, h.terminal, h.lost, list, live, budget,
                   Incremental(h.cache, list, live, budget));
    case _ =>
      NextRawOther(fp, ident, h, step, h');
  }

  lemma NextRawOther(fp: Fingerprint, ident: Ident, h: Host, step: Step, h': Host)
    requires Raw(fp, ident, h.cache, h.terminal, h.lost) && RawAdmissible(fp, ident, step) && Next(h, step, h')
             && !step.PaintFrame?
    ensures Raw(fp, ident, h'.cache, h'.terminal, h'.lost)
  {
    var own: Ident := (id: u32) =>
      if ident(id).Layer? then ident(id)
      else if id in h.cache.images then Pixels(h.cache.images[id]) else ident(id);
    assert Synced(fp, own, h.cache, h.terminal, h.lost);
    NextSynced(fp, own, h, step, h');
  }

  lemma {:induction false} ScanCompletes(visit: Visitor, c: Cache, list: seq<HostPlacement>, index: nat, left: nat,
                                         commands: seq<Command>, emitted: bool)
    requires left > 0 ==> index < |list|
    ensures var o := Scan(visit, c, list, index, left, commands, emitted); !o.incomplete ==> o.cache.replayed == {}
    decreases left
  {
    if left > 0 {
      match visit(c, list[index])
      case Pass(next) => ScanCompletes(visit, next, list, NextIndex(list, index), left - 1, commands, emitted);
      case Emit(_, after, sent) =>
        if !emitted { ScanCompletes(visit, Resume(after, list, index), list, NextIndex(list, index), left - 1, sent,
                                    true); }
    }
  }

  lemma NextUnmarked(h: Host, step: Step, h': Host)
    requires h.cache.replayed == {} && Next(h, step, h') && Completes(h, step) && !step.ReferenceFrame?
    ensures h'.cache.replayed == {}
  {
    if step.PaintFrame? {
      var front := Front(h.cache, step.list, step.live);
      ScanCompletes(Visiting(step.budget), front.cache, step.list, StartIndex(h.cache, step.list), |step.list|,
                    front.commands, front.emitted);
    }
  }

  /** As long as no call is left incomplete, cache and terminal agree at every point of every run of the program, though
      ids collide. */
  lemma {:induction false} CompleteCallsKeepMirror(fp: Fingerprint, ident: Ident, hosts: seq<Host>, steps: seq<Step>,
                                                   i: nat)
    requires RawRun(fp, ident, hosts, steps) && AsksFirst(steps) && i < |hosts|
    requires forall j :: 0 <= j < |steps| ==> Completes(hosts[j], steps[j])
    ensures Raw(fp, ident, hosts[i].cache, hosts[i].terminal, hosts[i].lost) && hosts[i].cache.replayed == {}
  {
    if i > 0 {
      CompleteCallsKeepMirror(fp, ident, hosts, steps, i - 1);
      var h, step := hosts[i - 1], steps[i - 1];
      assert RawAdmissible(fp, ident, step) && Next(h, step, hosts[i]) && Completes(h, step);
      NextUnmarked(h, step, hosts[i]);
      if step.PaintFrame? {
        assert Next(hosts[i - 2], steps[i - 2], h);
        BeginningMeetsNone(fp, ident, h.cache, h.terminal, h.lost, step.list, step.live, step.budget);
      }
      NextRaw(fp, ident, h, step, hosts[i]);
    }
  }
}
