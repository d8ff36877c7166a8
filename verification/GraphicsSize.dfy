/**
 Which images are set aside as too large: exactly those whose bytes on the wire, with a kilobyte for everything else,
 exceed the budget. All others are shown.
 */
module GraphicsSize {
  import opened Prelude
  import opened KittyProtocol
  import opened KittyWire
  import opened GraphicsSpec
  import opened GraphicsMirror
  import opened GraphicsDrain
  import opened GraphicsCollected
  import opened GraphicsFairness
  import opened GraphicsBudget

  /** What a transaction may take that sends `n` bytes of pixels. */
  function TransactionBytes(n: nat): nat { DataBytes(n) + 1024 }

  /** The bytes that carry the pixels, exactly: base64, nine bytes of framing for each chunk, one more for the comma
      behind the control text, and that text. */
  lemma StreamBytes(control: string, data: seq<byte>)
    requires data != []
    ensures |Stream(Transfer(control, data))| == |control| + 1 + 9 * ((|data| + 3071) / 3072) + (|data| + 2) / 3 * 4
    ensures |Stream(Transfer(control, data))| <= |control| + DataBytes(|data|)
  {
    var n := Min(CHUNK, |data|);
    var first, rest := Packet(control + "," + More(data), Base64(data[..n])), Continuation(data[n..]);
    ContinuationLength(data[n..]);
    ChunkJoins(data, n);
    assert ([first] + rest)[1..] == rest;
    ChunksCeil(|data|);
    Base64Length(data);
  }

  /** The size test is exact, in spite of its saturating arithmetic. Only the largest budget lets everything pass. */
  lemma FitsExactly(p: HostPlacement, budget: nat)
    ensures ImageTransactionFits(p, Some(budget))
            <==> TransactionBytes(p.signature.dataLen) <= budget || budget >= USIZE_MAX
  {
  }

  // --- Marks ---

  /** Every mark is about an image that exceeds the budget. */
  predicate MarksTooLarge(c: Cache, budget: nat) {
    forall s :: s in c.oversized ==> TransactionBytes(c.oversized[s].dataLen) > budget
  }

  /** A budget that is given is this one. */
  predicate Either(given: Option<nat>, budget: nat) { given.Some? ==> given.value == budget }

  /** After its visit an entry is set aside if and only if its image exceeds the budget and was not there, or it was set
      aside before. */
  lemma SetAsideExactly(c: Cache, p: HostPlacement, budget: nat, v: Visit)
    requires v == VisitPlacement(c, p, Some(budget)) && MarksTooLarge(c, budget) && budget < USIZE_MAX
    ensures var after := if v.Pass? then v.cache else v.after;
            Quarantined(after, p, Some(budget))
            <==> TransactionBytes(p.signature.dataLen) > budget
                 && (!c.ImageCurrent(p) || Quarantined(c, p, Some(budget)))
  {
    FitsExactly(p, budget);
    VisitMarkLeft(c, p, Some(budget), v);
  }

  /** The marks that a visit leaves, whether or not it emits. */
  lemma VisitMarkLeft(c: Cache, p: HostPlacement, budget: Option<nat>, v: Visit)
    requires v == VisitPlacement(c, p, budget)
    ensures v.Pass? ==> v.cache.oversized == Marked(c, p, budget).oversized
    ensures v.Emit? ==> v.after.oversized == Marked(c, p, budget).oversized == v.before.oversized
  {
    VisitCases(c, p, budget, v);
  }

  ghost predicate KeepsMarks(visit: Visitor, budget: nat) {
    forall c, p {:trigger Asked(c, p)} :: MarksTooLarge(c, budget) ==>
      match visit(c, p)
      case Pass(next) => MarksTooLarge(next, budget)
      case Emit(before, after, _) => MarksTooLarge(before, budget) && MarksTooLarge(after, budget)
  }

  lemma MarkedTooLarge(c: Cache, p: HostPlacement, given: Option<nat>, budget: nat)
    requires MarksTooLarge(c, budget) && Either(given, budget) && budget < USIZE_MAX
    ensures MarksTooLarge(Marked(c, p, given), budget)
  {
    FitsExactly(p, budget);
  }

  lemma VisitingKeepsMarks(given: Option<nat>, budget: nat)
    requires Either(given, budget) && budget < USIZE_MAX
    ensures KeepsMarks(Visiting(given), budget)
  {
    forall c, p | MarksTooLarge(c, budget)
      ensures match Visiting(given)(c, p)
              case Pass(next) => MarksTooLarge(next, budget)
              case Emit(before, after, _) => MarksTooLarge(before, budget) && MarksTooLarge(after, budget)
    {
      MarkedTooLarge(c, p, given, budget);
      VisitMarkLeft(c, p, given, VisitPlacement(c, p, given));
    }
  }

  lemma {:induction false} ScanKeepsMarks(visit: Visitor, c: Cache, list: seq<HostPlacement>, index: nat, left: nat,
                                          commands: seq<Command>, emitted: bool, budget: nat)
    requires KeepsMarks(visit, budget) && MarksTooLarge(c, budget) && (left > 0 ==> index < |list|)
    ensures MarksTooLarge(Scan(visit, c, list, index, left, commands, emitted).cache, budget)
    decreases left
  {
    if left > 0 {
      assert Asked(c, list[index]);
      match visit(c, list[index])
      case Pass(next) =>
        ScanKeepsMarks(visit, next, list, NextIndex(list, index), left - 1, commands, emitted, budget);
      case Emit(_, after, sent) =>
        if !emitted {
          ScanKeepsMarks(visit, Resume(after, list, index), list, NextIndex(list, index), left - 1, sent, true, budget);
        }
    }
  }

  lemma {:induction false} DropDeadLeavesMarks(c: Cache, dead: seq<SourceKey>, commands: seq<Command>, emitted: bool)
    ensures DropDead(c, dead, commands, emitted).cache.oversized == c.oversized
    decreases |dead|
  {
    if dead != [] {
      var removed := c.(sources := c.sources - {dead[0]});
      if dead[0] !in c.sources {
        DropDeadLeavesMarks(c, dead[1..], commands, emitted);
      } else {
        var id := c.sources[dead[0]];
        if c.ReferencedByOther(dead[0], id) {
          DropDeadLeavesMarks(removed, dead[1..], commands, emitted);
        } else if !emitted {
          DropDeadLeavesMarks(DropImage(removed, id), dead[1..], commands + [DeleteImage(id)], true);
        }
      }
    }
  }

  lemma {:induction false} DropStaleLeavesMarks(c: Cache, stale: seq<Key>, commands: seq<Command>, emitted: bool)
    ensures DropStale(c, stale, commands, emitted).cache.oversized == c.oversized
    decreases |stale|
  {
    if stale != [] && !emitted {
      DropStaleLeavesMarks(DropPlacement(c, stale[0]), stale[1..],
                           commands + [DeletePlacement(stale[0].0, stale[0].1)], true);
    }
  }

  lemma FrontKeepsMarks(c: Cache, list: seq<HostPlacement>, live: set<SourceKey>, budget: nat)
    requires MarksTooLarge(c, budget)
    ensures MarksTooLarge(Front(c, list, live).cache, budget)
  {
    var sources := SortedSources(DeadSources(c, live));
    DropDeadLeavesMarks(c, sources, [], false);
    var dead := DropDead(c, sources, [], false);
    if !dead.stopped {
      var kept := Retain(dead.cache, list, live);
      DropStaleLeavesMarks(kept, SortedKeys(StaleKeys(kept, list)), dead.commands, dead.emitted);
    }
  }

  /** No call sets aside an image that fits the budget. */
  lemma CallKeepsMarks(c: Cache, list: seq<HostPlacement>, live: set<SourceKey>, given: Option<nat>, budget: nat)
    requires MarksTooLarge(c, budget) && Either(given, budget) && budget < USIZE_MAX
    ensures MarksTooLarge(Incremental(c, list, live, given).cache, budget)
  {
    var front := Front(c, list, live);
    FrontKeepsMarks(c, list, live, budget);
    if !front.stopped {
      VisitingKeepsMarks(given, budget);
      ScanKeepsMarks(Visiting(given), front.cache, list, StartIndex(c, list), |list|, front.commands, front.emitted,
                     budget);
    }
  }

  /** Over every run under one budget, whatever else happens in it, only images that exceed the budget are marked. */
  lemma {:induction false} RunKeepsMarks(fp: Fingerprint, ident: Ident, hosts: seq<Host>, steps: seq<Step>, i: nat,
                                         budget: nat)
    requires Run(fp, ident, hosts, steps) && i < |hosts| && budget < USIZE_MAX
    requires forall j :: 0 <= j < |steps| && steps[j].PaintFrame? ==> Either(steps[j].budget, budget)
    ensures MarksTooLarge(hosts[i].cache, budget)
  {
    if i > 0 {
      RunKeepsMarks(fp, ident, hosts, steps, i - 1, budget);
      StepKeepsMarks(hosts[i - 1], steps[i - 1], hosts[i], budget);
    }
  }

  lemma StepKeepsMarks(h: Host, step: Step, h': Host, budget: nat)
    requires Next(h, step, h') && MarksTooLarge(h.cache, budget) && budget < USIZE_MAX
    requires step.PaintFrame? ==> Either(step.budget, budget)
    ensures MarksTooLarge(h'.cache, budget)
  {
    match step
    case PaintFrame(list, live, given) => CallKeepsMarks(h.cache, list, live, given, budget);
    case ReferenceFrame(list, viewChanged) => LegacyLeavesMarks(h.cache, list, viewChanged);
    case _ =>
  }

  lemma {:induction false} LegacyScanLeavesMarks(r: Pass1, list: seq<HostPlacement>, viewChanged: bool)
    ensures LegacyScan(r, list, viewChanged).cache.oversized == r.cache.oversized
    decreases |list|
  {
    if list != [] { LegacyScanLeavesMarks(LegacyVisit(r, list[0], viewChanged), list[1..], viewChanged); }
  }

  lemma LegacyLeavesMarks(c: Cache, list: seq<HostPlacement>, viewChanged: bool)
    ensures Legacy(c, list, viewChanged).oversized == c.oversized
  {
    LegacyScanLeavesMarks(LegacyStart(c, list), list, viewChanged);
  }

  /** The marked sources are wanted, or layers that are still there. */
  predicate MarksWanted(c: Cache, list: seq<HostPlacement>, live: set<SourceKey>) {
    forall s :: s in c.oversized ==> s in live || s in DesiredSources(list)
  }

  ghost predicate MarksOwn(visit: Visitor, list: seq<HostPlacement>, live: set<SourceKey>) {
    forall c, p {:trigger Asked(c, p)} :: MarksWanted(c, list, live) && p in list ==>
      match visit(c, p)
      case Pass(next) => MarksWanted(next, list, live)
      case Emit(before, after, _) => MarksWanted(before, list, live) && MarksWanted(after, list, live)
  }

  lemma VisitingMarksOwn(budget: Option<nat>, list: seq<HostPlacement>, live: set<SourceKey>)
    ensures MarksOwn(Visiting(budget), list, live)
  {
    forall c, p | MarksWanted(c, list, live) && p in list
      ensures match Visiting(budget)(c, p)
              case Pass(next) => MarksWanted(next, list, live)
              case Emit(before, after, _) => MarksWanted(before, list, live) && MarksWanted(after, list, live)
    {
      VisitMarkLeft(c, p, budget, VisitPlacement(c, p, budget));
      assert p.source in DesiredSources(list);
      MarkedWanted(c, p, budget, list, live);
    }
  }

  lemma MarkedWanted(c: Cache, p: HostPlacement, budget: Option<nat>, list: seq<HostPlacement>, live: set<SourceKey>)
    requires MarksWanted(c, list, live) && p.source in DesiredSources(list)
    ensures MarksWanted(Marked(c, p, budget), list, live)
  {
  }

  lemma {:induction false} ScanMarksOwn(visit: Visitor, c: Cache, list: seq<HostPlacement>, live: set<SourceKey>,
                                        index: nat, left: nat, commands: seq<Command>, emitted: bool)
    requires MarksOwn(visit, list, live) && MarksWanted(c, list, live) && (left > 0 ==> index < |list|)
    ensures MarksWanted(Scan(visit, c, list, index, left, commands, emitted).cache, list, live)
    decreases left
  {
    if left > 0 {
      assert Asked(c, list[index]) && list[index] in list;
      match visit(c, list[index])
      case Pass(next) =>
        ScanMarksOwn(visit, next, list, live, NextIndex(list, index), left - 1, commands, emitted);
      case Emit(_, after, sent) =>
        if !emitted {
          ScanMarksOwn(visit, Resume(after, list, index), list, live, NextIndex(list, index), left - 1, sent, true);
        }
    }
  }

  /** A call that completes forgets the marks of sources that are gone. */
  lemma CallForgetsMarks(c: Cache, list: seq<HostPlacement>, live: set<SourceKey>, budget: Option<nat>, o: Outcome)
    requires o == Incremental(c, list, live, budget) && !o.incomplete
    ensures MarksWanted(o.cache, list, live)
  {
    var front := Front(c, list, live);
    var dead := DropDead(c, SortedSources(DeadSources(c, live)), [], false);
    var kept := Retain(dead.cache, list, live);
    DropStaleLeavesMarks(kept, SortedKeys(StaleKeys(kept, list)), dead.commands, dead.emitted);
    VisitingMarksOwn(budget, list, live);
    ScanMarksOwn(Visiting(budget), front.cache, list, live, StartIndex(c, list), |list|, front.commands, front.emitted);
  }

  // --- What fits is shown ---

  lemma {:induction false} DrainKeepsMarks(ident: Ident, c: Cache, list: seq<HostPlacement>, live: set<SourceKey>,
                                           budget: nat, replay: bool)
    requires Coherent(ident, list, live) && Faithful(ident, c) && MarksTooLarge(c, budget) && budget < USIZE_MAX
    ensures MarksTooLarge(Drain(ident, c, list, live, Some(budget), replay).0, budget)
    decreases Work(Begin(c, replay), list, live)
  {
    var o := Incremental(Begin(c, replay), list, live, Some(budget));
    DrainUnfolds(ident, c, list, live, Some(budget), replay, o);
    CallKeepsMarks(Begin(c, replay), list, live, Some(budget), budget);
    if o.incomplete { DrainKeepsMarks(ident, o.cache, list, live, budget, replay); }
  }

  /** An image that fits is no image that was set aside. */
  lemma FitsUnmarked(c: Cache, p: HostPlacement, budget: nat)
    requires MarksTooLarge(c, budget) && TransactionBytes(p.signature.dataLen) <= budget
    ensures !Quarantined(c, p, Some(budget))
  {
  }

  /** Every visible entry with data that fits the budget is shown when the drain ends. */
  lemma DrainShows(ident: Ident, c: Cache, list: seq<HostPlacement>, live: set<SourceKey>, budget: nat, replay: bool,
                   q: HostPlacement)
    requires Coherent(ident, list, live) && Faithful(ident, c) && MarksTooLarge(c, budget) && budget < USIZE_MAX
    requires q in list && q.Visible() && q.data != [] && Carries(q) && TransactionBytes(|q.data|) <= budget
    ensures Drain(ident, c, list, live, Some(budget), replay).0.Current(q)
  {
    DrainServes(ident, c, list, live, Some(budget), replay, q);
    DrainKeepsMarks(ident, c, list, live, budget, replay);
    FitsUnmarked(Drain(ident, c, list, live, Some(budget), replay).0, q, budget);
  }

  /** A layer that stays visible, with data that fits the budget, is shown within as many calls as there are layers. */
  lemma FairShow(ident: Ident, caches: seq<Cache>, lists: seq<seq<HostPlacement>>, live: set<SourceKey>, budget: nat,
                 replay: bool, target: nat) returns (served: nat)
    requires lists != [] && target < |lists[0]| && |lists| >= |lists[0]| && budget < USIZE_MAX
    requires FairRun(ident, caches, lists, live, Some(budget), replay)
    requires Faithful(ident, caches[0]) && Tidy(caches[0], lists[0], live) && MarksTooLarge(caches[0], budget)
    requires forall k :: 0 <= k < |lists| ==>
               |lists[k]| == |lists[0]| && lists[k][target].Visible() && lists[k][target].data != []
               && Carries(lists[k][target]) && TransactionBytes(|lists[k][target].data|) <= budget
    ensures served < |lists[0]| && caches[served + 1].Current(lists[served][target])
  {
    forall s | s in caches[0].oversized ensures !SignatureFits(caches[0].oversized[s], Some(budget)) {
      FitsExactly(HostPlacement(TerminalImage(0, 0), None, 0, 0, caches[0].oversized[s], None, 0, []), budget);
    }
    forall k | 0 <= k < |lists| ensures ImageTransactionFits(lists[k][target], Some(budget)) {
      FitsExactly(lists[k][target], budget);
    }
    served := FairService(ident, caches, lists, live, Some(budget), replay, target);
  }
}
