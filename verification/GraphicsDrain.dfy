/**
 Draining the incremental encoder: every incomplete call strictly shrinks what remains to be done,
 and the call that completes leaves every wanted placement shown.
 */
module GraphicsDrain {
  import opened Prelude
  import opened KittyProtocol
  import opened GraphicsSpec
  import opened GraphicsMirror

  /** Two entries with one (host id, placement id) pair are one entry, and one source has one host image. */
  predicate Apart(p: HostPlacement, q: HostPlacement) {
    && (p.Key() == q.Key() ==> p == q)
    && (p.source == q.source ==> p.HostId() == q.HostId())
  }

  /** A list whose entries cannot evict each other. */
  ghost predicate Coherent(ident: Ident, list: seq<HostPlacement>, live: set<SourceKey>) {
    && (forall p {:trigger Identified(ident, p)} :: p in list ==> Identified(ident, p))
    && (forall p, q {:trigger Apart(p, q)} :: p in list && q in list ==> Apart(p, q))
    && (forall p {:trigger p.source in live} :: p in list && p.source.PaneLayer? ==> p.source in live)
  }

  // --- What remains to be done ---

  ghost function Pending(c: Cache, list: seq<HostPlacement>): set<HostPlacement> {
    set p | p in list && p.Visible() && !c.Current(p)
  }

  ghost function Work(c: Cache, list: seq<HostPlacement>, live: set<SourceKey>): nat {
    |DeadSources(c, live)| + |StaleKeys(c, list)| + |Pending(c, list)|
  }

  /** Nothing that was done is undone. */
  ghost predicate NoWorse(c: Cache, c': Cache, list: seq<HostPlacement>, live: set<SourceKey>) {
    && DeadSources(c', live) <= DeadSources(c, live)
    && StaleKeys(c', list) <= StaleKeys(c, list)
    && Pending(c', list) <= Pending(c, list)
  }

  ghost predicate Better(c: Cache, c': Cache, list: seq<HostPlacement>, live: set<SourceKey>) {
    && NoWorse(c, c', list, live)
    && (DeadSources(c', live) != DeadSources(c, live)
        || StaleKeys(c', list) != StaleKeys(c, list)
        || Pending(c', list) != Pending(c, list))
  }

  lemma WorkShrinks(c: Cache, c': Cache, list: seq<HostPlacement>, live: set<SourceKey>)
    requires NoWorse(c, c', list, live)
    ensures Work(c', list, live) <= Work(c, list, live)
    ensures Better(c, c', list, live) ==> Work(c', list, live) < Work(c, list, live)
  {
    SubsetCardinality(DeadSources(c', live), DeadSources(c, live));
    SubsetCardinality(StaleKeys(c', list), StaleKeys(c, list));
    SubsetCardinality(Pending(c', list), Pending(c, list));
  }

  /** The transaction of `p` makes `p` current and leaves every other current entry current. */
  lemma CurrentStays(ident: Ident, c: Cache, p: HostPlacement, c': Cache, q: HostPlacement)
    requires Effect(c, p, c') && Faithful(ident, c) && Identified(ident, p) && Identified(ident, q)
    requires c.Current(q) || p == q
    requires Apart(p, q)
    ensures c'.Current(q)
  {
  }

  lemma UpdateBetter(ident: Ident, c: Cache, list: seq<HostPlacement>, live: set<SourceKey>, p: HostPlacement,
                     c': Cache)
    requires Coherent(ident, list, live) && Faithful(ident, c) && p in list && Effect(c, p, c') && !c.Current(p)
    ensures Better(c, c', list, live)
  {
    forall q | q in list && (c.Current(q) || q == p) ensures c'.Current(q) {
      assert Identified(ident, p) && Identified(ident, q) && Apart(p, q);
      CurrentStays(ident, c, p, c', q);
    }
    assert p in Pending(c, list) && p !in Pending(c', list);
  }

  lemma FrameNoWorse(c: Cache, c': Cache, list: seq<HostPlacement>, live: set<SourceKey>)
    requires c'.images == c.images && c'.placements == c.placements && c'.sources == c.sources
    requires c'.replay ==> c.replay && c'.replayed == c.replayed
    ensures NoWorse(c, c', list, live)
  {
  }

  lemma FrameFaithful(ident: Ident, c: Cache, c': Cache)
    requires Faithful(ident, c) && c'.images == c.images && c'.placements == c.placements
    ensures Faithful(ident, c')
  {
  }

  // --- One visit ---

  /** Nothing more can be done for `p` under this budget with the data it carries. */
  predicate Done(c: Cache, p: HostPlacement, budget: Option<nat>) {
    !p.Visible() || c.Current(p) || Quarantined(c, p, budget) || p.data == []
  }

  /** A visit changes the quarantine mark of its source, and then does either nothing or the effect
      of one transaction. When it does nothing, nothing can be done. */
  ghost predicate Visited(c: Cache, p: HostPlacement, budget: Option<nat>, c1: Cache, v: Visit) {
    && c1 == c.(oversized := c1.oversized)
    && (forall s :: s in c.oversized && s != p.source ==> s in c1.oversized && c1.oversized[s] == c.oversized[s])
    && (Quarantined(c, p, budget) ==> v == Pass(c) && c1 == c)
    && (v.Pass? ==> if v.cache == c1 then Done(c1, p, budget) else Effect(c1, p, v.cache) && !c1.Current(p))
    && (v.Emit? ==> v.before == c1 && Effect(c1, p, v.after) && !c1.Current(p) && v.commands != [])
    && Replays(c, if v.Pass? then v.cache else v.after, if v.Pass? then [] else v.commands)
  }

  /** Only placements that `commands` displayed were newly marked as replayed. */
  ghost predicate Replays(c: Cache, c': Cache, commands: seq<Command>) {
    c'.replayed <= c.replayed + Displayed(commands)
  }

  lemma UpdateReplays(c: Cache, p: HostPlacement, c': Cache, commands: seq<Command>)
    requires PlacementUpdate(c, p) == Some((c', commands))
    ensures Replays(c, c', commands)
  {
    UpdateEffect(c, p, c', commands);
    UpdateDecomposes(c, p);
    if c.replay && p.Key() !in c.replayed {
      assert p.Key() in Displayed(commands) by { UpdateDisplays(c, p, c', commands); }
    }
  }

  lemma UpdateDisplays(c: Cache, p: HostPlacement, c': Cache, commands: seq<Command>)
    requires PlacementUpdate(c, p) == Some((c', commands)) && !c.PlacementCurrent(p)
    ensures p.Key() in Displayed(commands)
  {
    var (_, pixels, displayed) := SendImage(c, p);
    UpdateDecomposes(c, p);
    if displayed {
      assert pixels[0] in commands;
    } else {
      assert Shows(c, p)[0] in commands;
    }
  }

  /** An entry whose place, part of the image, depth or scroll position is not what was displayed last is displayed
      again, whatever the cache records of its image. */
  lemma ChangeDisplayed(c: Cache, p: HostPlacement)
    requires p.Visible() && p.Key() in c.placements && (c.ImageCurrent(p) || p.data != [])
    requires c.placements[p.Key()].shown != p.clip.value || c.placements[p.Key()].scrollback != p.scrollback
    ensures PlacementUpdate(c, p).Some? && p.Key() in Displayed(PlacementUpdate(c, p).value.1)
    ensures var placed := PlacementUpdate(c, p).value.0.placements[p.Key()];
            placed.shown == p.clip.value && placed.scrollback == p.scrollback
  {
    var (c', commands) := PlacementUpdate(c, p).value;
    UpdateDisplays(c, p, c', commands);
  }

  lemma UpdateFacts(c: Cache, p: HostPlacement, c': Cache, commands: seq<Command>)
    requires PlacementUpdate(c, p) == Some((c', commands))
    ensures Effect(c, p, c') && !c.Current(p) && Replays(c, c', commands)
  {
    UpdateEffect(c, p, c', commands);
    UpdateReplays(c, p, c', commands);
  }

  /** The cache in which the transaction of `p` is tried, or which a visit without transaction leaves. */
  function Marked(c: Cache, p: HostPlacement, budget: Option<nat>): Cache {
    var c1 := c.(oversized := c.oversized - {p.source});
    if Quarantined(c, p, budget) then c
    else if !c1.ImageCurrent(p) && !ImageTransactionFits(p, budget)
        then c1.(oversized := c1.oversized[p.source := p.signature])
    else c1
  }

  lemma VisitCases(c: Cache, p: HostPlacement, budget: Option<nat>, v: Visit)
    requires v == VisitPlacement(c, p, budget)
    ensures Visited(c, p, budget, Marked(c, p, budget), v)
  {
    var c1 := Marked(c, p, budget);
    if v == Pass(c1) {
      assert Done(c1, p, budget);
    } else {
      var c2, commands := if v.Pass? then v.cache else v.after, if v.Pass? then [] else v.commands;
      assert PlacementUpdate(c1, p) == Some((c2, commands));
      UpdateFacts(c1, p, c2, commands);
    }
  }

  lemma UpdateBetterFrame(ident: Ident, c: Cache, c1: Cache, list: seq<HostPlacement>, live: set<SourceKey>,
                          p: HostPlacement, c': Cache)
    requires Coherent(ident, list, live) && Faithful(ident, c) && p in list
    requires c1 == c.(oversized := c1.oversized) && Effect(c1, p, c') && !c1.Current(p)
    ensures Better(c, c', list, live) && Faithful(ident, c') && c'.replay == c.replay
  {
    FrameFaithful(ident, c, c1);
    FrameNoWorse(c, c1, list, live);
    FrameNoWorse(c1, c, list, live);
    UpdateBetter(ident, c1, list, live, p, c');
    assert Identified(ident, p);
    UpdateFaithful(ident, c1, p, c');
  }

  lemma VisitBetter(ident: Ident, c: Cache, list: seq<HostPlacement>, live: set<SourceKey>, p: HostPlacement,
                    budget: Option<nat>, c1: Cache, v: Visit)
    requires Coherent(ident, list, live) && Faithful(ident, c) && p in list && Visited(c, p, budget, c1, v)
    ensures v.Pass? ==> NoWorse(c, v.cache, list, live) && Faithful(ident, v.cache) && v.cache.replay == c.replay
    ensures v.Emit? ==> NoWorse(c, v.before, list, live) && Faithful(ident, v.before) && v.before.replay == c.replay
    ensures v.Emit? ==> Better(c, v.after, list, live) && Faithful(ident, v.after) && v.after.replay == c.replay
  {
    FrameNoWorse(c, c1, list, live);
    FrameFaithful(ident, c, c1);
    if v.Pass? && v.cache != c1 {
      UpdateBetterFrame(ident, c, c1, list, live, p, v.cache);
    } else if v.Emit? {
      UpdateBetterFrame(ident, c, c1, list, live, p, v.after);
    }
  }

  /** After its visit an entry is done, unless the scan stops before its transaction. */
  lemma VisitDone(c: Cache, p: HostPlacement, budget: Option<nat>, c1: Cache, v: Visit)
    requires Visited(c, p, budget, c1, v)
    ensures v.Pass? ==> Done(v.cache, p, budget)
    ensures v.Emit? ==> Done(v.after, p, budget)
  {
  }

  lemma DoneStays(ident: Ident, c: Cache, list: seq<HostPlacement>, live: set<SourceKey>, p: HostPlacement,
                  budget: Option<nat>, c1: Cache, v: Visit, q: HostPlacement)
    requires Coherent(ident, list, live) && Faithful(ident, c) && p in list && q in list
    requires Visited(c, p, budget, c1, v) && Done(c, q, budget)
    ensures v.Pass? ==> Done(v.cache, q, budget)
    ensures v.Emit? ==> Done(v.after, q, budget)
  {
    VisitBetter(ident, c, list, live, p, budget, c1, v);
    if q.Visible() && c.Current(q) {
      assert q !in Pending(c, list);
    } else if Quarantined(c, q, budget) && q.source == p.source {
      assert Identified(ident, p) && Identified(ident, q) && Apart(p, q);
      assert p.signature == q.signature;
    }
  }

  // --- The scan ---

  /** The entries that a scan at `index` with `left` visits to go still has ahead of it. */
  ghost function Ahead(list: seq<HostPlacement>, index: nat, left: nat): set<HostPlacement>
    requires left > 0 ==> index < |list|
    decreases left
  {
    if left == 0 then {} else {list[index]} + Ahead(list, NextIndex(list, index), left - 1)
  }

  lemma {:induction false} AheadOf(list: seq<HostPlacement>, index: nat, left: nat, i: nat)
    requires index < |list| && i < |list| && left <= |list|
    requires if index <= i then i < index + left else i + |list| < index + left
    ensures list[i] in Ahead(list, index, left)
    decreases left
  {
    if index != i { AheadOf(list, NextIndex(list, index), left - 1, i); }
  }

  /** A scan reaches every entry, whatever index it starts from. */
  lemma ScanCovers(list: seq<HostPlacement>, start: nat, p: HostPlacement)
    requires p in list && start < |list|
    ensures p in Ahead(list, start, |list|)
  {
    var i :| 0 <= i < |list| && list[i] == p;
    AheadOf(list, start, |list|, i);
  }

  ghost predicate AllDone(c: Cache, entries: set<HostPlacement>, budget: Option<nat>) {
    forall p :: p in entries ==> Done(c, p, budget)
  }

  /** Nothing was undone from `c` to `c'`. */
  ghost predicate Onward(ident: Ident, c: Cache, c': Cache, list: seq<HostPlacement>, live: set<SourceKey>) {
    NoWorse(c, c', list, live) && Faithful(ident, c') && c'.replay == c.replay
  }

  /** The cache in which the scan goes on after it visited `index`. */
  function After(v: Visit, list: seq<HostPlacement>, index: nat): Cache
    requires index < |list|
  {
    if v.Pass? then v.cache else Resume(v.after, list, index)
  }

  lemma StepDone(ident: Ident, c: Cache, list: seq<HostPlacement>, live: set<SourceKey>, budget: Option<nat>,
                 index: nat, c1: Cache, v: Visit, next: Cache, passed: set<HostPlacement>)
    requires Coherent(ident, list, live) && Faithful(ident, c) && index < |list|
    requires Visited(c, list[index], budget, c1, v) && next == After(v, list, index)
    requires AllDone(c, passed, budget) && forall p :: p in passed ==> p in list
    ensures AllDone(next, passed + {list[index]}, budget)
  {
    forall p | p in passed + {list[index]} ensures Done(next, p, budget) {
      if p in passed {
        DoneStays(ident, c, list, live, list[index], budget, c1, v, p);
      } else {
        VisitDone(c, list[index], budget, c1, v);
      }
    }
  }

  lemma StepOnward(ident: Ident, c: Cache, list: seq<HostPlacement>, live: set<SourceKey>, budget: Option<nat>,
                   index: nat, c1: Cache, v: Visit, next: Cache)
    requires Coherent(ident, list, live) && Faithful(ident, c) && index < |list|
    requires Visited(c, list[index], budget, c1, v) && next == After(v, list, index)
    ensures Onward(ident, c, next, list, live)
    ensures v.Emit? ==> v.commands != [] && Better(c, next, list, live)
    ensures v.Emit? ==> Onward(ident, c, v.before, list, live)
  {
    VisitBetter(ident, c, list, live, list[index], budget, c1, v);
    if v.Emit? {
      FrameNoWorse(v.after, next, list, live);
      FrameFaithful(ident, v.after, next);
      BetterTrans(c, v.after, next, list, live);
    }
  }

  lemma NoWorseTrans(a: Cache, b: Cache, c: Cache, list: seq<HostPlacement>, live: set<SourceKey>)
    requires NoWorse(a, b, list, live) && NoWorse(b, c, list, live)
    ensures NoWorse(a, c, list, live)
  {
  }

  lemma BetterTrans(a: Cache, b: Cache, c: Cache, list: seq<HostPlacement>, live: set<SourceKey>)
    requires NoWorse(a, b, list, live) && NoWorse(b, c, list, live)
    requires Better(a, b, list, live) || Better(b, c, list, live)
    ensures Better(a, c, list, live)
  {
  }

  /** A name for "visiting `p` in `c`", so that the fact below is used only where it is asked for. */
  ghost predicate Asked(c: Cache, p: HostPlacement) { true }

  ghost predicate VisitsWell(visit: Visitor, budget: Option<nat>) {
    forall c, p {:trigger Asked(c, p)} :: Visited(c, p, budget, Marked(c, p, budget), visit(c, p))
  }

  lemma VisitingVisitsWell(budget: Option<nat>)
    ensures VisitsWell(Visiting(budget), budget)
  {
    forall c, p ensures Visited(c, p, budget, Marked(c, p, budget), Visiting(budget)(c, p)) {
      VisitCases(c, p, budget, Visiting(budget)(c, p));
    }
  }

  lemma StepDrains(visit: Visitor, ident: Ident, c: Cache, list: seq<HostPlacement>, live: set<SourceKey>,
                   budget: Option<nat>, index: nat, v: Visit, next: Cache, passed: set<HostPlacement>)
    requires VisitsWell(visit, budget)
    requires Coherent(ident, list, live) && Faithful(ident, c) && index < |list|
    requires v == visit(c, list[index]) && next == After(v, list, index)
    requires AllDone(c, passed, budget) && forall p :: p in passed ==> p in list
    ensures Onward(ident, c, next, list, live) && AllDone(next, passed + {list[index]}, budget)
    ensures v.Emit? ==> v.commands != [] && Better(c, next, list, live)
    ensures v.Emit? ==> Onward(ident, c, v.before, list, live) && v.before.replayed == c.replayed
    ensures Replays(c, next, if v.Pass? then [] else v.commands)
  {
    assert Asked(c, list[index]);
    var c1 := Marked(c, list[index], budget);
    StepDone(ident, c, list, live, budget, index, c1, v, next, passed);
    StepOnward(ident, c, list, live, budget, index, c1, v, next);
  }

  /** A call that started in `origin` is at `c`, and has made progress if it emitted something. */
  ghost predicate Underway(ident: Ident, origin: Cache, c: Cache, list: seq<HostPlacement>, live: set<SourceKey>,
                           commands: seq<Command>, emitted: bool) {
    && NoWorse(origin, c, list, live) && Faithful(ident, c)
    && (emitted ==> commands != [] && Better(origin, c, list, live))
  }

  lemma StepUnderway(ident: Ident, origin: Cache, c: Cache, next: Cache, list: seq<HostPlacement>, live: set<SourceKey>,
                     commands: seq<Command>, emitted: bool, commands': seq<Command>, emitted': bool)
    requires Underway(ident, origin, c, list, live, commands, emitted) && Onward(ident, c, next, list, live)
    requires (commands', emitted') == (commands, emitted)
             || (commands' != [] && emitted' && Better(c, next, list, live))
    ensures Underway(ident, origin, next, list, live, commands', emitted')
  {
    NoWorseTrans(origin, c, next, list, live);
    if emitted' {
      BetterTrans(origin, c, next, list, live);
    }
  }

  /** What a scan promises: an incomplete end means progress since `origin`, and a complete end leaves a
      cache `last` in which `all` is done (only the replay marks are reset after it). */
  ghost predicate ScanEnds(ident: Ident, origin: Cache, last: Cache, list: seq<HostPlacement>, live: set<SourceKey>,
                           budget: Option<nat>, all: set<HostPlacement>, o: Outcome) {
    && Underway(ident, origin, last, list, live, o.commands, o.incomplete)
    && if o.incomplete then o.cache == last
       else o.cache == last.(replay := false, replayed := {}) && AllDone(last, all, budget)
  }

  lemma {:induction false} ScanDrains(visit: Visitor, ident: Ident, origin: Cache, c: Cache, list: seq<HostPlacement>,
                                      live: set<SourceKey>, budget: Option<nat>, index: nat, left: nat,
                                      commands: seq<Command>, emitted: bool, o: Outcome, passed: set<HostPlacement>)
      returns (last: Cache)
    requires VisitsWell(visit, budget) && Coherent(ident, list, live) && (left > 0 ==> index < |list|)
    requires Underway(ident, origin, c, list, live, commands, emitted)
    requires Replays(origin, c, commands) && (!emitted ==> commands == [])
    requires o == Scan(visit, c, list, index, left, commands, emitted)
    requires AllDone(c, passed, budget) && forall p :: p in passed ==> p in list
    ensures last.replay == c.replay && NoWorse(c, last, list, live) && Replays(origin, last, o.commands)
    ensures ScanEnds(ident, origin, last, list, live, budget, passed + Ahead(list, index, left), o)
    decreases left
  {
    if left == 0 {
      last := c;
      assert passed + {} == passed;
    } else {
      var v := visit(c, list[index]);
      var next := After(v, list, index);
      StepDrains(visit, ident, c, list, live, budget, index, v, next, passed);
      if v.Emit? && emitted {
        last := v.before;
        StepUnderway(ident, origin, c, last, list, live, commands, emitted, commands, emitted);
      } else {
        var commands', emitted' := if v.Pass? then commands else v.commands, emitted || v.Emit?;
        StepUnderway(ident, origin, c, next, list, live, commands, emitted, commands', emitted');
        last := ScanDrains(visit, ident, origin, next, list, live, budget, NextIndex(list, index), left - 1, commands',
                           emitted', o,
                           passed + {list[index]});
        NoWorseTrans(c, next, last, list, live);
        assert passed + {list[index]} + Ahead(list, NextIndex(list, index), left - 1)
            == passed + Ahead(list, index, left);
      }
    }
  }

  // --- Dead sources and stale placements ---

  lemma DeadStep(ident: Ident, c: Cache, list: seq<HostPlacement>, live: set<SourceKey>, source: SourceKey, next: Cache)
    requires Coherent(ident, list, live) && Faithful(ident, c)
    requires source in c.sources && source.PaneLayer? && source !in live
    requires var removed := c.(sources := c.sources - {source});
             next == if c.ReferencedByOther(source, c.sources[source]) then removed
                 else DropImage(removed, c.sources[source])
    ensures Onward(ident, c, next, list, live) && Better(c, next, list, live)
  {
    forall q | q in list && c.Current(q) ensures next.Current(q) {
      assert q.source.PaneLayer? ==> q.source in live;
    }
    assert source in DeadSources(c, live) && source !in DeadSources(next, live);
  }

  lemma {:induction false} DropDeadDrains(ident: Ident, origin: Cache, c: Cache, list: seq<HostPlacement>,
                                          live: set<SourceKey>, dead: seq<SourceKey>, commands: seq<Command>,
                                          emitted: bool, s: Stage)
    requires Coherent(ident, list, live) && Underway(ident, origin, c, list, live, commands, emitted)
    requires forall x :: x in dead ==> x.PaneLayer? && x !in live
    requires s == DropDead(c, dead, commands, emitted)
    ensures Underway(ident, origin, s.cache, list, live, s.commands, s.emitted)
    ensures s.cache.replay == c.replay && s.cache.replayed <= c.replayed
    ensures s.stopped ==> s.emitted
    ensures !s.stopped ==> forall x :: x in s.cache.sources ==> x in c.sources && x !in dead
    decreases |dead|
  {
    if dead != [] && dead[0] !in c.sources {
      DropDeadDrains(ident, origin, c, list, live, dead[1..], commands, emitted, s);
    } else if dead != [] {
      var id := c.sources[dead[0]];
      var last := !c.ReferencedByOther(dead[0], id);
      if !(emitted && last) {
        var removed := c.(sources := c.sources - {dead[0]});
        var next := if last then DropImage(removed, id) else removed;
        var commands', emitted' := if last then commands + [DeleteImage(id)] else commands, emitted || last;
        DeadStep(ident, c, list, live, dead[0], next);
        StepUnderway(ident, origin, c, next, list, live, commands, emitted, commands', emitted');
        DropDeadDrains(ident, origin, next, list, live, dead[1..], commands', emitted', s);
      }
    }
  }

  lemma RetainOnward(ident: Ident, c: Cache, list: seq<HostPlacement>, live: set<SourceKey>)
    requires Faithful(ident, c)
    ensures Onward(ident, c, Retain(c, list, live), list, live)
  {
    var next := Retain(c, list, live);
    forall q | q in list && c.Current(q) ensures next.Current(q) {
      assert q.source in DesiredSources(list);
    }
  }

  lemma StaleStep(ident: Ident, c: Cache, list: seq<HostPlacement>, live: set<SourceKey>, k: Key)
    requires Faithful(ident, c) && k in StaleKeys(c, list)
    ensures Onward(ident, c, DropPlacement(c, k), list, live) && Better(c, DropPlacement(c, k), list, live)
  {
    var next := DropPlacement(c, k);
    forall q | q in list && c.Current(q) ensures next.Current(q) {
      assert q.Key() in DesiredKeys(list);
    }
    assert k !in StaleKeys(next, list);
  }

  /** At most one stale placement goes in one call; the stage ends the call if more is due. */
  lemma DropStaleDrains(ident: Ident, origin: Cache, c: Cache, list: seq<HostPlacement>, live: set<SourceKey>,
                        stale: seq<Key>, commands: seq<Command>, emitted: bool, s: Stage)
    requires Coherent(ident, list, live) && Underway(ident, origin, c, list, live, commands, emitted)
    requires forall k :: k in stale <==> k in StaleKeys(c, list)
    requires s == DropStale(c, stale, commands, emitted)
    ensures Underway(ident, origin, s.cache, list, live, s.commands, s.emitted)
    ensures s.cache.replay == c.replay && s.cache.replayed <= c.replayed
    ensures s.stopped ==> s.emitted
    ensures !s.stopped ==> StaleKeys(s.cache, list) == {}
    ensures s.cache.sources == c.sources
  {
    if stale == [] {
      assert forall k :: k in StaleKeys(c, list) ==> k in stale;
    } else if !emitted {
      var next := DropPlacement(c, stale[0]);
      var commands' := commands + [DeletePlacement(stale[0].0, stale[0].1)];
      StaleStep(ident, c, list, live, stale[0]);
      StepUnderway(ident, origin, c, next, list, live, commands, emitted, commands', true);
      assert s == DropStale(next, stale[1..], commands', true);
      if stale[1..] == [] {
        assert stale == [stale[0]];
        assert forall k :: k in StaleKeys(next, list) ==> k in StaleKeys(c, list) && k in stale;
      }
    }
  }

  // --- One call, and the drain ---

  lemma {:induction false} DropStaleFrame(c: Cache, stale: seq<Key>, commands: seq<Command>, emitted: bool)
    ensures var s := DropStale(c, stale, commands, emitted); s.cache.images == c.images && s.cache.sources == c.sources
    decreases |stale|
  {
    if stale != [] && !emitted {
      DropStaleFrame(DropPlacement(c, stale[0]), stale[1..], commands + [DeletePlacement(stale[0].0, stale[0].1)],
                     true);
    }
  }

  /** Nothing is left over: no dead source, no stale placement, and every entry is done. */
  ghost predicate Settled(c: Cache, list: seq<HostPlacement>, live: set<SourceKey>, budget: Option<nat>) {
    && DeadSources(c, live) == {} && StaleKeys(c, list) == {}
    && forall p :: p in list ==> Done(c, p, budget)
  }

  lemma FrontDrains(ident: Ident, c: Cache, list: seq<HostPlacement>, live: set<SourceKey>, front: Stage)
    requires Coherent(ident, list, live) && Faithful(ident, c) && front == Front(c, list, live)
    ensures Underway(ident, c, front.cache, list, live, front.commands, front.emitted)
    ensures front.cache.replay == c.replay && front.cache.replayed <= c.replayed
    ensures !front.emitted ==> front.commands == []
    ensures front.stopped ==> front.emitted
    ensures !front.stopped ==> DeadSources(front.cache, live) == {} && StaleKeys(front.cache, list) == {}
  {
    var deadSources := SortedSources(DeadSources(c, live));
    var dead := DropDead(c, deadSources, [], false);
    DropDeadDrains(ident, c, c, list, live, deadSources, [], false, dead);
    DropDeadFlag(c, deadSources, [], false);
    if !dead.stopped {
      var kept := Retain(dead.cache, list, live);
      RetainOnward(ident, dead.cache, list, live);
      StepUnderway(ident, c, dead.cache, kept, list, live, dead.commands, dead.emitted, dead.commands, dead.emitted);
      NoDead(c, dead.cache, live, deadSources);
      var staleKeys := SortedKeys(StaleKeys(kept, list));
      DropStaleDrains(ident, c, kept, list, live, staleKeys, dead.commands, dead.emitted, front);
      DropStaleFlag(kept, staleKeys, dead.commands, dead.emitted);
    }
  }

  /** One call of the incremental encoder. An incomplete call emitted something and strictly shrinks what
      remains; a complete call leaves nothing over, already in `last`, where the replay marks still stand. */
  lemma IncrementalDrains(ident: Ident, c: Cache, list: seq<HostPlacement>, live: set<SourceKey>, budget: Option<nat>,
                          o: Outcome)
      returns (last: Cache)
    requires Coherent(ident, list, live) && Faithful(ident, c) && o == Incremental(c, list, live, budget)
    ensures Faithful(ident, o.cache) && last.replay == c.replay && Replays(c, last, o.commands)
    ensures NoWorse(c, last, list, live)
    ensures o.incomplete ==> o.cache == last && o.commands != [] && Better(c, last, list, live)
                             && Work(o.cache, list, live) < Work(c, list, live)
    ensures !o.incomplete ==> o.cache == last.(replay := false, replayed := {}) && Settled(last, list, live, budget)
  {
    var front := Front(c, list, live);
    FrontDrains(ident, c, list, live, front);
    if front.stopped {
      last := front.cache;
    } else {
      VisitingVisitsWell(budget);
      last := ScanDrains(Visiting(budget), ident, c, front.cache, list, live, budget, StartIndex(c, list), |list|,
                         front.commands, front.emitted, o, {});
      forall p | p in list ensures p in {} + Ahead(list, StartIndex(c, list), |list|) {
        ScanCovers(list, StartIndex(c, list), p);
      }
    }
    WorkShrinks(c, last, list, live);
  }

  lemma SettledWithoutReplay(c: Cache, list: seq<HostPlacement>, live: set<SourceKey>, budget: Option<nat>)
    requires Settled(c, list, live, budget)
    ensures Settled(c.(replay := false, replayed := {}), list, live, budget)
  {
  }

  lemma NoDead(c: Cache, c': Cache, live: set<SourceKey>, dead: seq<SourceKey>)
    requires forall x :: x in DeadSources(c, live) ==> x in dead
    requires forall x :: x in c'.sources ==> x in c.sources && x !in dead
    ensures DeadSources(c', live) == {}
  {
  }

  /** What every rendered frame does before it encodes: nothing, or ask for a replay. */
  function Begin(c: Cache, replay: bool): Cache {
    if replay then RequestReplay(c) else c
  }

  /** Every call of the drain that does not complete it emits a transaction and leaves strictly less work. */
  lemma CallShrinks(ident: Ident, c: Cache, list: seq<HostPlacement>, live: set<SourceKey>, budget: Option<nat>,
                    replay: bool)
    requires Coherent(ident, list, live) && Faithful(ident, c)
    ensures var o := Incremental(Begin(c, replay), list, live, budget);
            Faithful(ident, o.cache)
            && (o.incomplete ==> o.commands != []
                                 && Work(Begin(o.cache, replay), list, live) < Work(Begin(c, replay), list, live))
  {
    var o := Incremental(Begin(c, replay), list, live, budget);
    FrameFaithful(ident, c, Begin(c, replay));
    var _ := IncrementalDrains(ident, Begin(c, replay), list, live, budget, o);
  }

  /** The loop that paints one frame: call the encoder until it completes. */
  ghost function Drain(ident: Ident, c: Cache, list: seq<HostPlacement>, live: set<SourceKey>, budget: Option<nat>,
                       replay: bool)
      : (Cache, seq<Command>)
    requires Coherent(ident, list, live) && Faithful(ident, c)
    decreases Work(Begin(c, replay), list, live)
  {
    var o := Incremental(Begin(c, replay), list, live, budget);
    CallShrinks(ident, c, list, live, budget, replay);
    if !o.incomplete then (o.cache, o.commands)
    else
      var (drained, rest) := Drain(ident, o.cache, list, live, budget, replay);
      (drained, o.commands + rest)
  }

  lemma DrainUnfolds(ident: Ident, c: Cache, list: seq<HostPlacement>, live: set<SourceKey>, budget: Option<nat>,
                     replay: bool, o: Outcome)
    requires Coherent(ident, list, live) && Faithful(ident, c) && o == Incremental(Begin(c, replay), list, live, budget)
    ensures Faithful(ident, o.cache)
    ensures o.incomplete ==> Work(Begin(o.cache, replay), list, live) < Work(Begin(c, replay), list, live)
    ensures Drain(ident, c, list, live, budget, replay)
            == if o.incomplete then (Drain(ident, o.cache, list, live, budget, replay).0,
                                     o.commands + Drain(ident, o.cache, list, live, budget, replay).1)
               else (o.cache, o.commands)
  {
    CallShrinks(ident, c, list, live, budget, replay);
  }

  /** The drain ends with nothing left over: every wanted entry that carries data and is not quarantined
      as too large has its image, its placement and its source current, and nothing unwanted remains. */
  lemma {:induction false} DrainSettles(ident: Ident, c: Cache, list: seq<HostPlacement>, live: set<SourceKey>,
                                        budget: Option<nat>, replay: bool)
    requires Coherent(ident, list, live) && Faithful(ident, c)
    ensures Settled(Drain(ident, c, list, live, budget, replay).0, list, live, budget)
    decreases Work(Begin(c, replay), list, live)
  {
    var o := Incremental(Begin(c, replay), list, live, budget);
    CallShrinks(ident, c, list, live, budget, replay);
    FrameFaithful(ident, c, Begin(c, replay));
    var last := IncrementalDrains(ident, Begin(c, replay), list, live, budget, o);
    if o.incomplete {
      DrainSettles(ident, o.cache, list, live, budget, replay);
    } else {
      SettledWithoutReplay(last, list, live, budget);
    }
  }

  /** The drain keeps cache and terminal in step. */
  lemma {:induction false} DrainSynced(fp: Fingerprint, ident: Ident, c: Cache, t: Terminal, lost: set<Key>,
                                       list: seq<HostPlacement>, live: set<SourceKey>, budget: Option<nat>,
                                       replay: bool)
    requires Coherent(ident, list, live) && Synced(fp, ident, c, t, lost) && Wellformed(fp, ident, list)
    ensures var (c', commands) := Drain(ident, c, list, live, budget, replay);
            SyncedAfter(fp, ident, c', t, lost, commands)
    decreases Work(Begin(c, replay), list, live)
  {
    var o := Incremental(Begin(c, replay), list, live, budget);
    CallShrinks(ident, c, list, live, budget, replay);
    SyncedFrame(fp, ident, c, Begin(c, replay), t, lost);
    IncrementalSynced(fp, ident, Begin(c, replay), t, lost, list, live, budget);
    if o.incomplete {
      DrainSynced(fp, ident, o.cache, Interpret(t, o.commands), lost - Displayed(o.commands), list, live, budget,
                  replay);
      var (c', rest) := Drain(ident, o.cache, list, live, budget, replay);
      SyncedTrans(fp, ident, c', t, lost, o.commands, rest);
    }
  }

  // --- Nothing to do ---

  ghost predicate AllCurrent(c: Cache, list: seq<HostPlacement>) {
    forall p :: p in list && p.Visible() ==> c.Current(p)
  }

  lemma IdleVisit(c: Cache, p: HostPlacement, budget: Option<nat>)
    requires p.Visible() ==> c.Current(p)
    ensures VisitPlacement(c, p, budget).Pass?
    ensures var next := VisitPlacement(c, p, budget).cache;
            next == c.(oversized := next.oversized)
  {
  }

  lemma {:induction false} IdleScan(budget: Option<nat>, c: Cache, list: seq<HostPlacement>, index: nat, left: nat)
    requires AllCurrent(c, list) && (left > 0 ==> index < |list|)
    ensures var o := Scan(Visiting(budget), c, list, index, left, [], false); o.commands == [] && !o.incomplete
    decreases left
  {
    if left > 0 {
      IdleVisit(c, list[index], budget);
      IdleScan(budget, Visiting(budget)(c, list[index]).cache, list, NextIndex(list, index), left - 1);
    }
  }

  /** A call that finds everything shown and nothing left over sends nothing. */
  lemma IdleCall(c: Cache, list: seq<HostPlacement>, live: set<SourceKey>, budget: Option<nat>)
    requires AllCurrent(c, list) && DeadSources(c, live) == {} && StaleKeys(c, list) == {}
    ensures var o := Incremental(c, list, live, budget); o.commands == [] && !o.incomplete
  {
    var kept := Retain(c, list, live);
    assert forall p :: p in list ==> p.source in DesiredSources(list);
    assert AllCurrent(kept, list);
    var dead, stale := SortedSources(DeadSources(c, live)), SortedKeys(StaleKeys(kept, list));
    assert StaleKeys(kept, list) == {};
    assert forall x :: x !in dead;
    assert forall x :: x !in stale;
    NothingIn(dead);
    NothingIn(stale);
    IdleScan(budget, kept, list, StartIndex(c, list), |list|);
  }

  lemma NothingIn<T>(s: seq<T>)
    ensures s == [] || exists x :: x in s
  {
    if s != [] { assert s[0] in s; }
  }
}
