/** Moving between panes, and finding the split to move when a pane is resized. */
module LayoutNavigation {
  import opened Prelude
  import opened LayoutTree
  import opened LayoutGeometry

  datatype Nav = Left | Right | Up | Down

  function Opposite(nav: Nav): Nav {
    match nav
    case Left => Right
    case Right => Left
    case Up => Down
    case Down => Up
  }

  // --- A rectangle seen along a direction: the main axis is the one of the movement ---

  predicate Sideways(nav: Nav) { nav == Left || nav == Right }

  /** Whether the movement goes towards smaller coordinates. */
  predicate Backward(nav: Nav) { nav == Left || nav == Up }

  function MainLo(r: Rect, nav: Nav): nat { if Sideways(nav) then r.x else r.y }
  function MainLen(r: Rect, nav: Nav): nat { if Sideways(nav) then r.width else r.height }
  function MainHi(r: Rect, nav: Nav): nat { MainLo(r, nav) + MainLen(r, nav) }
  function CrossLo(r: Rect, nav: Nav): nat { if Sideways(nav) then r.y else r.x }
  function CrossLen(r: Rect, nav: Nav): nat { if Sideways(nav) then r.height else r.width }

  /** The edge of `r` that faces the direction. */
  function Edge(r: Rect, nav: Nav): nat { if Backward(nav) then MainLo(r, nav) else MainHi(r, nav) }

  predicate HasCell(r: Rect, nav: Nav, main: nat, cross: nat) {
    if Sideways(nav) then Has(r, main, cross) else Has(r, cross, main)
  }

  // --- The nearest pane in a direction ---

  predicate RangesOverlap(aStart: nat, aLen: nat, bStart: nat, bLen: nat) {
    aStart < bStart + bLen && aStart + aLen > bStart
  }

  /** `p` lies beyond the edge of `f` and alongside it. */
  predicate Candidate(f: PaneInfo, nav: Nav, p: PaneInfo) {
    && p.id != f.id
    && (if Backward(nav) then MainHi(p.rect, nav) <= MainLo(f.rect, nav)
        else MainLo(p.rect, nav) >= MainHi(f.rect, nav))
    && RangesOverlap(CrossLo(p.rect, nav), CrossLen(p.rect, nav), CrossLo(f.rect, nav), CrossLen(f.rect, nav))
  }

  function EdgeDistance(f: PaneInfo, nav: Nav, p: PaneInfo): nat {
    if Backward(nav) then SatSub(MainLo(f.rect, nav), MainHi(p.rect, nav))
        else SatSub(MainLo(p.rect, nav), MainHi(f.rect, nav))
  }

  function OverlapAmount(aStart: nat, aLen: nat, bStart: nat, bLen: nat): nat {
    SatSub(Min(SatAdd(aStart, aLen, 0xFFFF), SatAdd(bStart, bLen, 0xFFFF)), Max(aStart, bStart))
  }

  function CenterDistance(aStart: nat, aLen: nat, bStart: nat, bLen: nat): nat {
    var a, b := SatAdd(SatMul(aStart, 2, 0xFFFF), aLen, 0xFFFF), SatAdd(SatMul(bStart, 2, 0xFFFF), bLen, 0xFFFF);
    if a <= b then b - a else a - b
  }

  datatype Rank = Rank(edge: nat, overlap: nat, center: nat, index: nat)

  function RankOf(f: PaneInfo, nav: Nav, panes: seq<PaneInfo>, i: nat): Rank
    requires i < |panes|
  {
    var p, q := panes[i].rect, f.rect;
    Rank(EdgeDistance(f, nav, panes[i]),
         OverlapAmount(CrossLo(p, nav), CrossLen(p, nav), CrossLo(q, nav), CrossLen(q, nav)),
         CenterDistance(CrossLo(p, nav), CrossLen(p, nav), CrossLo(q, nav), CrossLen(q, nav)), i)
  }

  /** Nearer edge first, then more overlap, then nearer centre, then earlier. */
  predicate RankLess(a: Rank, b: Rank) {
    if a.edge != b.edge then a.edge < b.edge
    else if a.overlap != b.overlap then a.overlap > b.overlap
    else if a.center != b.center then a.center < b.center
    else a.index < b.index
  }

  /** The index of the best candidate among the first `n` panes. */
  function BestOf(f: PaneInfo, nav: Nav, panes: seq<PaneInfo>, n: nat): Option<nat>
    requires n <= |panes|
    ensures BestOf(f, nav, panes, n).Some? ==> BestOf(f, nav, panes, n).value < n
  {
    if n == 0 then None
    else
      var best := BestOf(f, nav, panes, n - 1);
      if !Candidate(f, nav, panes[n - 1]) then best
      else if best.None? || RankLess(RankOf(f, nav, panes, n - 1), RankOf(f, nav, panes, best.value)) then Some(n - 1)
      else best
  }

  function FindInDirection(f: PaneInfo, nav: Nav, panes: seq<PaneInfo>): Option<u32> {
    var best := BestOf(f, nav, panes, |panes|);
    if best.None? then None else Some(panes[best.value].id)
  }

  /** The search is sound and complete: a candidate is found exactly when there is one, and it is the one
      of least rank. */
  lemma {:induction false} BestIsLeast(f: PaneInfo, nav: Nav, panes: seq<PaneInfo>, n: nat)
    requires n <= |panes|
    ensures var best := BestOf(f, nav, panes, n);
            if best.None? then forall i :: 0 <= i < n ==> !Candidate(f, nav, panes[i])
            else && Candidate(f, nav, panes[best.value])
                 && forall i :: 0 <= i < n && i != best.value && Candidate(f, nav, panes[i]) ==>
                      RankLess(RankOf(f, nav, panes, best.value), RankOf(f, nav, panes, i))
  {
    if n > 0 { BestIsLeast(f, nav, panes, n - 1); }
  }

  /** Beyond an interior edge lies a pane that touches it. */
  lemma Neighbour(n: Node, area: Rect, focus: u32, panes: seq<PaneInfo>, k: nat, nav: Nav) returns (j: nat)
    requires RatiosOk(n) && Distinct(Ids(n)) && panes == Panes(n, area, focus) && k < |panes|
    requires panes[k].rect.width > 0 && panes[k].rect.height > 0
    requires Edge(panes[k].rect, nav) != Edge(area, nav)
    ensures j < |panes| && Candidate(panes[k], nav, panes[j]) && EdgeDistance(panes[k], nav, panes[j]) == 0
  {
    var f := panes[k].rect;
    var main := if Backward(nav) then MainLo(f, nav) - 1 else MainHi(f, nav);
    var cross := CrossLo(f, nav);
    PanesInside(n, area, focus);
    assert main >= 0;
    var x, y := if Sideways(nav) then main else cross, if Sideways(nav) then cross else main;
    assert Has(area, x, y) && !Has(f, x, y);
    ExactTiling(n, area, focus, x, y);
    j := CoveredBy(panes, x, y);
    var inner := if Backward(nav) then MainLo(f, nav) else MainHi(f, nav) - 1;
    if HasCell(panes[j].rect, nav, inner, cross) {
      SameCellSamePane(n, area, focus, if Sideways(nav) then inner else cross, if Sideways(nav) then cross else inner,
                       j, k);
    }
  }

  /** Navigation on real layouts: across an edge that is not the edge of the area there is always a pane to
      go to, it is another pane, it touches the edge and lies alongside, and no candidate ranks before it. */
  lemma NavigationComplete(n: Node, area: Rect, focus: u32, k: nat, nav: Nav) returns (best: nat)
    requires RatiosOk(n) && Distinct(Ids(n)) && k < |Panes(n, area, focus)|
    requires Panes(n, area, focus)[k].rect.width > 0 && Panes(n, area, focus)[k].rect.height > 0
    requires Edge(Panes(n, area, focus)[k].rect, nav) != Edge(area, nav)
    ensures var panes := Panes(n, area, focus);
            && best < |panes| && best != k
            && FindInDirection(panes[k], nav, panes) == Some(panes[best].id)
            && Candidate(panes[k], nav, panes[best]) && EdgeDistance(panes[k], nav, panes[best]) == 0
            && forall i :: 0 <= i < |panes| && i != best && Candidate(panes[k], nav, panes[i]) ==>
                 RankLess(RankOf(panes[k], nav, panes, best), RankOf(panes[k], nav, panes, i))
  {
    var panes := Panes(n, area, focus);
    var j := Neighbour(n, area, focus, panes, k, nav);
    BestIsLeast(panes[k], nav, panes, |panes|);
    best := BestOf(panes[k], nav, panes, |panes|).value;
  }

  /** And across an edge of the area there is never one with a cell. */
  lemma NavigationSound(n: Node, area: Rect, focus: u32, k: nat, nav: Nav, i: nat)
    requires RatiosOk(n) && k < |Panes(n, area, focus)| && i < |Panes(n, area, focus)|
    requires Edge(Panes(n, area, focus)[k].rect, nav) == Edge(area, nav)
    requires Panes(n, area, focus)[i].rect.width > 0 && Panes(n, area, focus)[i].rect.height > 0
    ensures !Candidate(Panes(n, area, focus)[k], nav, Panes(n, area, focus)[i])
  {
    PanesInside(n, area, focus);
  }

  // --- The split at an edge ---

  predicate SplitsAlong(d: Direction, nav: Nav) { (d == Horizontal) == Sideways(nav) }

  function SplitEdgeDistance(s: SplitBorder, focused: Rect, nav: Nav): nat {
    var e := Edge(focused, nav);
    if s.pos <= e then e - s.pos else s.pos - e
  }

  /** A split that a resize in this direction may move. */
  predicate Movable(s: SplitBorder, focused: Rect, nav: Nav) {
    && SplitsAlong(s.direction, nav)
    && RangesOverlap(CrossLo(s.area, nav), CrossLen(s.area, nav), CrossLo(focused, nav), CrossLen(focused, nav))
    && SplitEdgeDistance(s, focused, nav) <= 1
  }

  /** The first movable split of least distance among the first `n`. */
  function NearestOf(splits: seq<SplitBorder>, focused: Rect, nav: Nav, n: nat): Option<SplitBorder>
    requires n <= |splits|
  {
    if n == 0 then None
    else
      var best := NearestOf(splits, focused, nav, n - 1);
      var s := splits[n - 1];
      if !Movable(s, focused, nav) then best
      else if best.None? || SplitEdgeDistance(s, focused, nav) < SplitEdgeDistance(best.value, focused, nav)
          then Some(s)
      else best
  }

  function NearestResizeSplit(splits: seq<SplitBorder>, focused: Rect, nav: Nav): Option<SplitBorder> {
    NearestOf(splits, focused, nav, |splits|)
  }

  lemma {:induction false} NearestIsLeast(splits: seq<SplitBorder>, focused: Rect, nav: Nav, n: nat)
    requires n <= |splits|
    ensures var best := NearestOf(splits, focused, nav, n);
            if best.None? then forall i :: 0 <= i < n ==> !Movable(splits[i], focused, nav)
            else && best.value in splits[..n] && Movable(best.value, focused, nav)
                 && forall i :: 0 <= i < n && Movable(splits[i], focused, nav) ==>
                      SplitEdgeDistance(best.value, focused, nav) <= SplitEdgeDistance(splits[i], focused, nav)
  {
    if n > 0 {
      NearestIsLeast(splits, focused, nav, n - 1);
      assert splits[..n] == splits[..n - 1] + [splits[n - 1]];
    }
  }

  /** Every edge of a pane that is not an edge of the area lies on a split. */
  lemma {:induction false} EdgeHasSplit(n: Node, area: Rect, focus: u32, path: Path, p: PaneInfo, nav: Nav)
      returns (s: SplitBorder)
    requires RatiosOk(n) && p in Panes(n, area, focus) && p.rect.width > 0 && p.rect.height > 0
    requires Edge(p.rect, nav) != Edge(area, nav)
    ensures s in Splits(n, area, path) && Movable(s, p.rect, nav) && SplitEdgeDistance(s, p.rect, nav) == 0
  {
    PanesInside(n, area, focus);
    var (a, b) := SplitRect(area, n.direction, n.ratio);
    SplitRectParts(area, n.direction, n.ratio);
    var here := Splits(n, area, path)[0];
    var inFirst := p in Panes(n.first, a, focus);
    if SplitEdgeDistance(here, p.rect, nav) == 0 && SplitsAlong(n.direction, nav) {
      s := here;
    } else if inFirst {
      PanesInside(n.first, a, focus);
      s := EdgeHasSplit(n.first, a, focus, path + [false], p, nav);
    } else {
      PanesInside(n.second, b, focus);
      s := EdgeHasSplit(n.second, b, focus, path + [true], p, nav);
    }
  }

  /** So a resize at an interior edge finds a split exactly there. */
  lemma InteriorEdgeResizes(n: Node, area: Rect, focus: u32, p: PaneInfo, nav: Nav)
    requires RatiosOk(n) && p in Panes(n, area, focus) && p.rect.width > 0 && p.rect.height > 0
    requires Edge(p.rect, nav) != Edge(area, nav)
    ensures var found := NearestResizeSplit(Splits(n, area, []), p.rect, nav);
            found.Some? && found.value in Splits(n, area, []) && SplitsAlong(found.value.direction, nav)
            && SplitEdgeDistance(found.value, p.rect, nav) == 0
  {
    var splits := Splits(n, area, []);
    var s := EdgeHasSplit(n, area, focus, [], p, nav);
    NearestIsLeast(splits, p.rect, nav, |splits|);
    assert splits[..|splits|] == splits;
  }
}
