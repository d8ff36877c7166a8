/**
 Fair service: a layer that stays eligible is served within as many calls as there are layers, even if
 every other layer changes its content before every call.
 */
module GraphicsFairness {
  import opened Prelude
  import opened KittyProtocol
  import opened GraphicsSpec
  import opened GraphicsMirror
  import opened GraphicsDrain
  import opened GraphicsCollected

  /** The two lists name the same layers, under the same host ids, and show and hide the same ones. */
  predicate SameShape(a: seq<HostPlacement>, b: seq<HostPlacement>) {
    |a| == |b|
    && forall i :: 0 <= i < |a| ==>
         a[i].source == b[i].source && a[i].Key() == b[i].Key() && a[i].Visible() == b[i].Visible()
  }

  predicate DistinctSources(list: seq<HostPlacement>) {
    forall i, j :: 0 <= i < |list| && 0 <= j < |list| && list[i].source == list[j].source ==> i == j
  }

  /** No dead source and no stale placement. */
  ghost predicate Tidy(c: Cache, list: seq<HostPlacement>, live: set<SourceKey>) {
    DeadSources(c, live) == {} && StaleKeys(c, list) == {}
  }

  /** Every quarantine mark is about an image that is too large. */
  predicate HonestMarks(c: Cache, budget: Option<nat>) {
    forall s :: s in c.oversized ==> !SignatureFits(c.oversized[s], budget)
  }

  predicate SignatureFits(signature: ImageSignature, budget: Option<nat>) {
    ImageTransactionFits(HostPlacement(TerminalImage(0, 0), None, 0, 0, signature, None, 0, []), budget)
  }

  /** How many visits a scan at `index` makes before it reaches `target`. */
  function Distance(n: nat, index: nat, target: nat): nat
    requires index < n && target < n
  {
    if index <= target then target - index else target - index + n
  }

  function CursorAt(list: seq<HostPlacement>, index: nat): Option<Cursor>
    requires index < |list|
  {
    Some(Cursor(list[index].source, list[index].placementId, NextIndex(list, index)))
  }

  /** The cache will resume at an index that is closer to `target` than `distance`. */
  ghost predicate ResumesCloser(c: Cache, list: seq<HostPlacement>, target: nat, distance: nat)
    requires target < |list|
  {
    exists j :: 0 <= j < |list| && c.continuation == CursorAt(list, j)
        && Distance(|list|, NextIndex(list, j), target) < distance
  }

  lemma StepServes(visit: Visitor, ident: Ident, c: Cache, list: seq<HostPlacement>, live: set<SourceKey>,
                   budget: Option<nat>, index: nat, v: Visit, next: Cache, passed: set<HostPlacement>)
    requires VisitsWell(visit, budget) && Coherent(ident, list, live) && Faithful(ident, c) && index < |list|
    requires v == visit(c, list[index]) && next == After(v, list, index)
    requires AllDone(c, passed, budget) && forall p :: p in passed ==> p in list
    requires HonestMarks(c, budget)
    ensures Faithful(ident, next) && AllDone(next, passed + {list[index]}, budget) && HonestMarks(next, budget)
    ensures v.Emit? ==> AllDone(v.before, passed, budget) && HonestMarks(v.before, budget)
                        && v.before.continuation == c.continuation
    ensures v.Pass? ==> next.continuation == c.continuation
  {
    StepDrains(visit, ident, c, list, live, budget, index, v, next, passed);
    var c1 := Marked(c, list[index], budget);
    StepAsked(visit, c, list[index], budget);
    StepMarks(c, list, budget, index, c1, v, next);
    if v.Emit? {
      forall p | p in passed ensures Done(v.before, p, budget) {
        BeforeDone(ident, c, list, live, list[index], budget, c1, v, p);
      }
    }
  }


  lemma MarksHonestly(c: Cache, p: HostPlacement, budget: Option<nat>)
    requires HonestMarks(c, budget)
    ensures HonestMarks(Marked(c, p, budget), budget)
  {
  }

  lemma StepMarks(c: Cache, list: seq<HostPlacement>, budget: Option<nat>, index: nat, c1: Cache, v: Visit, next: Cache)
    requires HonestMarks(c, budget) && index < |list| && c1 == Marked(c, list[index], budget)
    requires Visited(c, list[index], budget, c1, v) && next == After(v, list, index)
    ensures HonestMarks(next, budget)
    ensures v.Emit? ==> HonestMarks(v.before, budget) && v.before.continuation == c.continuation
    ensures v.Pass? ==> next.continuation == c.continuation
  {
    MarksHonestly(c, list[index], budget);
    assert next.oversized == c1.oversized;
  }

  lemma BeforeDone(ident: Ident, c: Cache, list: seq<HostPlacement>, live: set<SourceKey>, p: HostPlacement,
                   budget: Option<nat>, c1: Cache, v: Visit, q: HostPlacement)
    requires Coherent(ident, list, live) && p in list && q in list
    requires Visited(c, p, budget, c1, v) && Done(c, q, budget) && v.Emit?
    ensures Done(v.before, q, budget)
  {
    assert Identified(ident, p) && Identified(ident, q) && Apart(p, q);
  }

  /** The rest of a scan that has passed `target`: what is done stays done. */
  lemma {:induction false} ScanKeeps(visit: Visitor, ident: Ident, c: Cache, list: seq<HostPlacement>,
                                     live: set<SourceKey>, budget: Option<nat>, index: nat, left: nat,
                                     commands: seq<Command>, emitted: bool, o: Outcome, passed: set<HostPlacement>)
    requires VisitsWell(visit, budget) && Coherent(ident, list, live) && Faithful(ident, c)
             && (left > 0 ==> index < |list|)
    requires AllDone(c, passed, budget) && forall p :: p in passed ==> p in list
    requires HonestMarks(c, budget)
    requires o == Scan(visit, c, list, index, left, commands, emitted)
    ensures Faithful(ident, o.cache) && AllDone(o.cache, passed, budget) && HonestMarks(o.cache, budget)
    decreases left
  {
    if left > 0 {
      var v := visit(c, list[index]);
      var next := After(v, list, index);
      StepServes(visit, ident, c, list, live, budget, index, v, next, passed);
      if v.Emit? && emitted {
        StepDrains(visit, ident, c, list, live, budget, index, v, next, passed);
      } else {
        ScanKeeps(visit, ident, next, list, live, budget, NextIndex(list, index), left - 1,
                  if v.Pass? then commands else v.commands, emitted || v.Emit?, o, passed + {list[index]});
      }
    }
  }

  /** A scan either serves `target` or stops where the next call resumes closer to it. */
  lemma {:induction false} ScanServes(visit: Visitor, ident: Ident, c: Cache, list: seq<HostPlacement>,
                                      live: set<SourceKey>, budget: Option<nat>, index: nat, left: nat,
                                      commands: seq<Command>, emitted: bool, o: Outcome, target: nat, distance: nat)
    requires VisitsWell(visit, budget) && Coherent(ident, list, live) && Faithful(ident, c) && HonestMarks(c, budget)
    requires index < |list| && target < |list| && Distance(|list|, index, target) < left
    requires Distance(|list|, index, target) <= distance
    requires emitted ==> ResumesCloser(c, list, target, distance)
    requires o == Scan(visit, c, list, index, left, commands, emitted)
    ensures Faithful(ident, o.cache) && HonestMarks(o.cache, budget)
    ensures Done(o.cache, list[target], budget) || ResumesCloser(o.cache, list, target, distance)
    decreases left
  {
    var v := visit(c, list[index]);
    var next := After(v, list, index);
    StepServes(visit, ident, c, list, live, budget, index, v, next, {});
    if v.Emit? && emitted {
      StepDrains(visit, ident, c, list, live, budget, index, v, next, {});
      assert ResumesCloser(v.before, list, target, distance);
    } else if index == target {
      ScanKeeps(visit, ident, next, list, live, budget, NextIndex(list, index), left - 1,
                if v.Pass? then commands else v.commands, emitted || v.Emit?, o, {list[target]});
      assert Done(o.cache, list[target], budget);
    } else {
      if v.Emit? {
        assert next.continuation == CursorAt(list, index);
        assert ResumesCloser(next, list, target, distance);
      } else if emitted {
        assert ResumesCloser(next, list, target, distance);
      }
      ScanServes(visit, ident, next, list, live, budget, NextIndex(list, index), left - 1,
                 if v.Pass? then commands else v.commands, emitted || v.Emit?, o, target, distance);
    }
  }

  /** Without dead sources and stale placements a call goes straight to its scan. */
  lemma TidyFront(c: Cache, list: seq<HostPlacement>, live: set<SourceKey>)
    requires Tidy(c, list, live)
    ensures Front(c, list, live) == Stage(Retain(c, list, live), [], false, false)
  {
    var dead := SortedSources(DeadSources(c, live));
    var kept := Retain(c, list, live);
    var stale := SortedKeys(StaleKeys(kept, list));
  }

  lemma ResumeIndex(c: Cache, list: seq<HostPlacement>, list': seq<HostPlacement>, j: nat)
    requires j < |list| && c.continuation == CursorAt(list, j)
    requires SameShape(list, list') && DistinctSources(list')
    ensures StartIndex(c, list') == NextIndex(list, j)
  {
    var found := Position(list', list[j].source, list[j].placementId);
    assert list'[j].source == list[j].source && list'[j].Key() == list[j].Key();
    assert found == Some(j);
    NextIndexWraps(list, j);
  }

  /** One call: `target` is done, or the next call starts closer to it. */
  lemma CallServes(ident: Ident, c: Cache, list: seq<HostPlacement>, live: set<SourceKey>, budget: Option<nat>,
                   target: nat, o: Outcome, list': seq<HostPlacement>)
    requires Coherent(ident, list, live) && Faithful(ident, c) && Tidy(c, list, live) && HonestMarks(c, budget)
    requires target < |list| && o == Incremental(c, list, live, budget)
    requires SameShape(list, list') && DistinctSources(list')
    ensures Faithful(ident, o.cache) && HonestMarks(o.cache, budget) && Tidy(o.cache, list, live)
    ensures Done(o.cache, list[target], budget)
            || Distance(|list|, StartIndex(o.cache, list'), target) < Distance(|list|, StartIndex(c, list), target)
  {
    var start := StartIndex(c, list);
    var kept := Retain(c, list, live);
    TidyFront(c, list, live);
    RetainOnward(ident, c, list, live);
    VisitingVisitsWell(budget);
    ScanServes(Visiting(budget), ident, kept, list, live, budget, start, |list|, [], false, o, target,
               Distance(|list|, start, target));
    var last := IncrementalDrains(ident, c, list, live, budget, o);
    if o.incomplete {
      var last' := ScanDrains(Visiting(budget), ident, kept, kept, list, live, budget, start, |list|, [], false, o, {});
    }
    if !Done(o.cache, list[target], budget) {
      var j :| 0 <= j < |list| && o.cache.continuation == CursorAt(list, j)
               && Distance(|list|, NextIndex(list, j), target) < Distance(|list|, start, target);
      ResumeIndex(o.cache, list, list', j);
    }
  }

  /** A run of calls over lists of one shape, each list coherent and its layers distinct. */
  ghost predicate FairRun(ident: Ident, caches: seq<Cache>, lists: seq<seq<HostPlacement>>, live: set<SourceKey>,
                          budget: Option<nat>, replay: bool) {
    && |caches| == |lists| + 1
    && (forall k :: 0 <= k < |lists| ==> Coherent(ident, lists[k], live) && DistinctSources(lists[k]))
    && (forall k :: 0 <= k < |lists| ==> SameShape(lists[0], lists[k]))
    && (forall k :: 0 <= k < |lists| ==>
          caches[k + 1] == Incremental(Begin(caches[k], replay), lists[k], live, budget).cache)
  }

  lemma ShapeTidy(c: Cache, a: seq<HostPlacement>, b: seq<HostPlacement>, live: set<SourceKey>)
    requires Tidy(c, a, live) && SameShape(a, b)
    ensures Tidy(c, b, live)
  {
    forall k | k in DesiredKeys(a) ensures k in DesiredKeys(b) {
      var i :| 0 <= i < |a| && a[i].Visible() && a[i].Key() == k;
      assert b[i].Visible() && b[i].Key() == k;
    }
    forall k | k in c.placements ensures k in DesiredKeys(b) {
      assert k !in StaleKeys(c, a);
    }
  }

  /** The state between calls: faithful, tidy, with honest marks. */
  ghost predicate InOrder(ident: Ident, c: Cache, list: seq<HostPlacement>, live: set<SourceKey>, budget: Option<nat>) {
    Faithful(ident, c) && Tidy(c, list, live) && HonestMarks(c, budget)
  }

  function Following(lists: seq<seq<HostPlacement>>, k: nat): seq<HostPlacement>
    requires k < |lists|
  {
    if k + 1 < |lists| then lists[k + 1] else lists[k]
  }

  /** Call `k` of a fair run. */
  lemma RunServes(ident: Ident, caches: seq<Cache>, lists: seq<seq<HostPlacement>>, live: set<SourceKey>,
                  budget: Option<nat>, replay: bool, target: nat, k: nat)
    requires FairRun(ident, caches, lists, live, budget, replay) && k < |lists| && target < |lists[0]|
    requires InOrder(ident, caches[k], lists[k], live, budget)
    ensures InOrder(ident, caches[k + 1], Following(lists, k), live, budget)
    ensures |lists[k]| == |lists[0]| == |Following(lists, k)|
    ensures Done(caches[k + 1], lists[k][target], budget)
            || Distance(|lists[0]|, StartIndex(caches[k + 1], Following(lists, k)), target)
               < Distance(|lists[0]|, StartIndex(caches[k], lists[k]), target)
  {
    var c, list, following := Begin(caches[k], replay), lists[k], Following(lists, k);
    assert SameShape(lists[0], list) && SameShape(lists[0], following);
    assert SameShape(list, following);
    FrameFaithful(ident, caches[k], c);
    CallServes(ident, c, list, live, budget, target, Incremental(c, list, live, budget), following);
    ShapeTidy(caches[k + 1], list, following, live);
  }

  lemma {:induction false} ServedWithin(ident: Ident, caches: seq<Cache>, lists: seq<seq<HostPlacement>>,
                                        live: set<SourceKey>, budget: Option<nat>, replay: bool, target: nat, k: nat)
      returns (served: nat)
    requires FairRun(ident, caches, lists, live, budget, replay) && k < |lists| && target < |lists[0]|
    requires InOrder(ident, caches[k], lists[k], live, budget) && |lists[k]| == |lists[0]|
    requires k + Distance(|lists[0]|, StartIndex(caches[k], lists[k]), target) < |lists|
    ensures k <= served <= k + Distance(|lists[0]|, StartIndex(caches[k], lists[k]), target)
    ensures |lists[served]| == |lists[0]| && Done(caches[served + 1], lists[served][target], budget)
    ensures HonestMarks(caches[served + 1], budget)
    decreases |lists| - k
  {
    RunServes(ident, caches, lists, live, budget, replay, target, k);
    if Done(caches[k + 1], lists[k][target], budget) {
      served := k;
    } else {
      served := ServedWithin(ident, caches, lists, live, budget, replay, target, k + 1);
    }
  }

  /** Within as many calls as there are layers, an eligible layer has been made current. */
  lemma FairService(ident: Ident, caches: seq<Cache>, lists: seq<seq<HostPlacement>>, live: set<SourceKey>,
                    budget: Option<nat>, replay: bool, target: nat) returns (served: nat)
    requires lists != [] && target < |lists[0]| && |lists| >= |lists[0]|
    requires FairRun(ident, caches, lists, live, budget, replay)
    requires Faithful(ident, caches[0]) && Tidy(caches[0], lists[0], live) && HonestMarks(caches[0], budget)
    requires forall k :: 0 <= k < |lists| ==>
               |lists[k]| == |lists[0]| && lists[k][target].Visible() && lists[k][target].data != []
               && ImageTransactionFits(lists[k][target], budget)
    ensures served < |lists[0]| && caches[served + 1].Current(lists[served][target])
  {
    served := ServedWithin(ident, caches, lists, live, budget, replay, target, 0);
    FitsHonestly(caches[served + 1], lists[served][target], budget);
  }

  lemma FitsHonestly(c: Cache, p: HostPlacement, budget: Option<nat>)
    requires HonestMarks(c, budget) && ImageTransactionFits(p, budget)
    ensures !Quarantined(c, p, budget)
  {
  }

  // --- A new view ---

  /** A new view is remembered and makes the next call begin with the first entry; the same view lets the cursor go on.
      Nothing that was sent is forgotten. */
  lemma NewViewStartsOver(c: Cache, view: Option<View>, list: seq<HostPlacement>)
    ensures var noted := UpdateView(c, view);
            && noted.view == view && noted.images == c.images && noted.placements == c.placements
            && noted.sources == c.sources && noted.oversized == c.oversized
            && StartIndex(noted, list) == (if c.view == view then StartIndex(c, list) else 0)
  {
  }
}
