/** Where an edit takes effect on the screen: what a split does to the panes, and what a ratio means in cells. */
module LayoutEdits {
  import opened Prelude
  import opened LayoutTree
  import opened LayoutGeometry
  import opened LayoutNavigation
  import opened TileLayout

  // --- Ratios ---

  /** The first child gets the whole number of cells that is nearest to its share; of two that are equally near, the
      greater. */
  lemma NearestLength(len: nat, r: real)
    requires 0.0 <= r <= 1.0 && len <= 0xffff
    ensures var n := FirstLength(len, Num(r)) as real;
            len as real * r - 0.5 < n <= len as real * r + 0.5
  {
    var part := len as real * r;
    assert part <= len as real;
    assert Scaled(len, r) <= len;
  }

  /** A ratio that is set is kept if it lies within bounds, and else replaced by the nearest that does. */
  lemma NearestRatio(r: real, x: real)
    requires 0.1 <= x <= 0.9
    ensures Clamp(Num(r)).Num? && 0.1 <= Clamp(Num(r)).r <= 0.9
    ensures 0.1 <= r <= 0.9 ==> Clamp(Num(r)) == Num(r) && ValidSplitRatio(Num(r)) == Num(r)
    ensures if r < x then Clamp(Num(r)).r <= x else x <= Clamp(Num(r)).r
  {
  }

  // --- A split on the screen ---

  /** The new pane lies behind the old one: to the right of it, or below. */
  predicate Behind(direction: Direction, was: Rect, kept: Rect, added: Rect) {
    match direction
    case Horizontal =>
      && kept.x == was.x && added.x == kept.x + kept.width && kept.width + added.width == was.width
      && kept.y == added.y == was.y && kept.height == added.height == was.height
    case Vertical =>
      && kept.y == was.y && added.y == kept.y + kept.height && kept.height + added.height == was.height
      && kept.x == added.x == was.x && kept.width == added.width == was.width
  }

  function Extent(direction: Direction, r: Rect): nat { if direction == Horizontal then r.width else r.height }

  lemma {:induction false} SplitAbsent(n: Node, target: u32, direction: Direction, newId: u32, ratio: Float)
    requires target !in Ids(n)
    ensures SplitAt(n, target, direction, newId, ratio) == n
  {
    if n.Split? {
      SplitAbsent(n.first, target, direction, newId, ratio);
      SplitAbsent(n.second, target, direction, newId, ratio);
    }
  }

  /** A list with its element number `k` replaced by others. */
  function Opened(was: seq<PaneInfo>, k: nat, two: seq<PaneInfo>): seq<PaneInfo>
    requires k < |was|
  {
    was[..k] + two + was[k + 1..]
  }

  lemma OpenedFirst(f: seq<PaneInfo>, s: seq<PaneInfo>, k: nat, two: seq<PaneInfo>)
    requires k < |f|
    ensures Opened(f, k, two) + s == Opened(f + s, k, two) && (f + s)[k] == f[k]
  {
    assert (f + s)[..k] == f[..k] && (f + s)[k + 1..] == f[k + 1..] + s;
  }

  lemma OpenedSecond(f: seq<PaneInfo>, s: seq<PaneInfo>, k: nat, two: seq<PaneInfo>)
    requires k < |s|
    ensures f + Opened(s, k, two) == Opened(f + s, |f| + k, two) && (f + s)[|f| + k] == s[k]
  {
    assert (f + s)[..|f| + k] == f + s[..k] && (f + s)[|f| + k + 1..] == s[k + 1..];
  }

  /** The two panes that share the place of one. */
  function Halves(rect: Rect, focus: u32, target: u32, direction: Direction, newId: u32, ratio: Float): seq<PaneInfo> {
    var (a, b) := SplitRect(rect, direction, ratio);
    [PaneInfo(target, a, target == focus), PaneInfo(newId, b, newId == focus)]
  }

  /** Splitting pane number `k` leaves every other pane where it is, and shares its own place with the new pane. */
  lemma {:induction false} SplitPanes(n: Node, area: Rect, focus: u32, k: nat, direction: Direction, newId: u32,
                                      ratio: Float)
    requires RatiosOk(n) && Distinct(Ids(n)) && k < |Ids(n)|
    ensures |Panes(n, area, focus)| == |Ids(n)|
    ensures var was, target := Panes(n, area, focus), Ids(n)[k];
            Panes(SplitAt(n, target, direction, newId, ratio), area, focus)
            == Opened(was, k, Halves(was[k].rect, focus, target, direction, newId, ratio))
    decreases n, 1
  {
    PanesInside(n, area, focus);
    if n.Pane? {
      SplitHere(n.id, area, focus, direction, newId, ratio);
    } else {
      var m, target := |Ids(n.first)|, Ids(n)[k];
      var (a, b) := SplitRect(area, n.direction, n.ratio);
      DistinctHalves(Ids(n.first), Ids(n.second), k);
      PanesInside(n.first, a, focus);
      PanesInside(n.second, b, focus);
      JoinedPanes(n, area, focus, target, direction, newId, ratio);
      if k < m {
        SplitPanes(n.first, a, focus, k, direction, newId, ratio);
        SplitAbsent(n.second, target, direction, newId, ratio);
        OpenedFirst(Panes(n.first, a, focus), Panes(n.second, b, focus), k,
                    Halves(Panes(n.first, a, focus)[k].rect, focus, target, direction, newId, ratio));
      } else {
        SplitInSecond(n, area, focus, k, direction, newId, ratio);
      }
    }
  }

  lemma SplitInSecond(n: Node, area: Rect, focus: u32, k: nat, direction: Direction, newId: u32, ratio: Float)
    requires RatiosOk(n) && Distinct(Ids(n)) && k < |Ids(n)| && n.Split? && k >= |Ids(n.first)|
    requires |Panes(n, area, focus)| == |Ids(n)|
    ensures var was, target := Panes(n, area, focus), Ids(n)[k];
            Panes(SplitAt(n, target, direction, newId, ratio), area, focus)
            == Opened(was, k, Halves(was[k].rect, focus, target, direction, newId, ratio))
    decreases n, 0
  {
    var m, target := |Ids(n.first)|, Ids(n)[k];
    var (a, b) := SplitRect(area, n.direction, n.ratio);
    DistinctHalves(Ids(n.first), Ids(n.second), k);
    PanesInside(n.first, a, focus);
    PanesInside(n.second, b, focus);
    JoinedPanes(n, area, focus, target, direction, newId, ratio);
    SplitPanes(n.second, b, focus, k - m, direction, newId, ratio);
    SplitAbsent(n.first, target, direction, newId, ratio);
    OpenedSecond(Panes(n.first, a, focus), Panes(n.second, b, focus), k - m,
                 Halves(Panes(n.second, b, focus)[k - m].rect, focus, target, direction, newId, ratio));
  }

  /** The panes of a split tree are those of its split children. */
  lemma JoinedPanes(n: Node, area: Rect, focus: u32, target: u32, direction: Direction, newId: u32, ratio: Float)
    requires n.Split?
    ensures var (a, b) := SplitRect(area, n.direction, n.ratio);
            && Panes(n, area, focus) == Panes(n.first, a, focus) + Panes(n.second, b, focus)
            && Panes(SplitAt(n, target, direction, newId, ratio), area, focus)
               == Panes(SplitAt(n.first, target, direction, newId, ratio), a, focus)
                  + Panes(SplitAt(n.second, target, direction, newId, ratio), b, focus)
  {
  }

  lemma SplitHere(id: u32, area: Rect, focus: u32, direction: Direction, newId: u32, ratio: Float)
    ensures Panes(SplitAt(Pane(id), id, direction, newId, ratio), area, focus)
            == Opened([PaneInfo(id, area, id == focus)], 0, Halves(area, focus, id, direction, newId, ratio))
  {
    var (a, b) := SplitRect(area, direction, ratio);
    assert SplitAt(Pane(id), id, direction, newId, ratio) == Split(direction, ratio, Pane(id), Pane(newId));
    assert Panes(Pane(id), a, focus) == [PaneInfo(id, a, id == focus)];
    assert Panes(Pane(newId), b, focus) == [PaneInfo(newId, b, newId == focus)];
  }

  lemma DistinctHalves(a: seq<u32>, b: seq<u32>, k: nat)
    requires Distinct(a + b) && k < |a + b|
    ensures Distinct(a) && Distinct(b)
    ensures k < |a| ==> a[k] == (a + b)[k] && (a + b)[k] !in b
    ensures k >= |a| ==> b[k - |a|] == (a + b)[k] && (a + b)[k] !in a
  {
    assert forall i :: 0 <= i < |a| ==> (a + b)[i] == a[i];
    assert forall i :: 0 <= i < |b| ==> (a + b)[|a| + i] == b[i];
  }

  /** What the halves are: the new pane behind the old one, which keeps its share to half a cell. */
  lemma HalvesShare(rect: Rect, direction: Direction, r: real)
    requires 0.1 <= r <= 0.9 && Extent(direction, rect) <= 0xffff
    ensures var (a, b) := SplitRect(rect, direction, Num(r));
            Behind(direction, rect, a, b) && Share(direction, rect, a, r)
  {
    SplitRectParts(rect, direction, Num(r));
    NearestLength(Extent(direction, rect), r);
  }

  predicate Share(direction: Direction, was: Rect, kept: Rect, r: real) {
    var whole, part := Extent(direction, was) as real * r, Extent(direction, kept) as real;
    whole - 0.5 < part <= whole + 0.5
  }

  /** What a split makes of the ratio it is asked for: the nearest within bounds, and a half when it is no number. */
  predicate Granted(asked: Float, r: real) {
    if asked.Num? then Bounded(asked.r, r) else r == 0.5
  }

  /** `r` is the number within bounds that is nearest to `x`. */
  predicate Bounded(x: real, r: real) {
    0.1 <= r <= 0.9 && (x < 0.1 ==> r == 0.1) && (x > 0.9 ==> r == 0.9) && (0.1 <= x <= 0.9 ==> r == x)
  }

  /** A split of a pane of the layout: the new pane comes right behind it, on its right for a horizontal split and below
      it for a vertical one, the pane keeps the granted share to half a cell, and every other pane stays where it
      is. */
  lemma SplitPlaces(l: Layout, area: Rect, k: nat, direction: Direction, ratio: Float, r: real,
                    newId: u32)
    requires Inv(l) && k < |Ids(l.root)| && Granted(ratio, r)
    requires area.width <= 0xffff && area.height <= 0xffff
    ensures |Panes(l.root, area, l.focus)| == |Ids(l.root)|
    ensures var was := Panes(l.root, area, l.focus);
            var (after, added) := SplitPane(l, Ids(l.root)[k], direction, ratio, newId);
            var now := Panes(after.root, area, after.focus);
            && added == Some(newId) && |now| == |was| + 1
            && (forall i :: 0 <= i < k ==> now[i] == was[i]) && (forall i :: k < i < |was| ==> now[i + 1] == was[i])
            && now[k].id == was[k].id && now[k + 1].id == newId
            && Behind(direction, was[k].rect, now[k].rect, now[k + 1].rect)
            && Share(direction, was[k].rect, now[k].rect, r)
  {
    assert ValidSplitRatio(ratio) == Num(r);
    SplitPanes(l.root, area, l.focus, k, direction, newId, Num(r));
    PanesInside(l.root, area, l.focus);
    var was := Panes(l.root, area, l.focus);
    HalvesShare(was[k].rect, direction, r);
    OpenedAt(was, k, Halves(was[k].rect, l.focus, Ids(l.root)[k], direction, newId, Num(r)));
  }

  lemma OpenedAt(was: seq<PaneInfo>, k: nat, two: seq<PaneInfo>)
    requires k < |was| && |two| == 2
    ensures var now := Opened(was, k, two);
            && |now| == |was| + 1 && now[k] == two[0] && now[k + 1] == two[1]
            && (forall i :: 0 <= i < k ==> now[i] == was[i]) && (forall i :: k < i < |was| ==> now[i + 1] == was[i])
  {
  }

  /** A resize adds the change to the ratio of the border it moves, or takes it off when the movement is backward, keeps
      the result within bounds, and leaves every other ratio. */
  lemma ResizeMoves(l: Layout, nav: Nav, change: real, area: Rect, path: Path, was: real, other: Path)
    requires ResizeTarget(l, nav, area).Some? && path == ResizeTarget(l, nav, area).value.path && other != path
    requires GetRatioAt(l.root, path) == Some(Num(was))
    ensures var after := ResizeFocused(l, nav, Num(change), area);
            && GetRatioAt(after.root, other) == GetRatioAt(l.root, other)
            && exists r :: GetRatioAt(after.root, path) == Some(Num(r))
                 && Bounded(if nav == Left || nav == Up then was - change else was + change, r)
  {
    var asked := if nav == Left || nav == Up then was - change else was + change;
    assert ResizedRatio(l, path, nav, Num(change)) == Num(asked);
    SetRatioAtChanges(l.root, path, Clamp(Num(asked)));
    SetRatioAtKeeps(l.root, path, Clamp(Num(asked)), other);
    assert Bounded(asked, Clamp(Num(asked)).r);
  }

  // --- Focus ---

  /** Focusing a pane that exists moves the focus there and remembers the pane left; focusing the focused pane or one
      that does not exist changes nothing. */
  lemma FocusMoves(l: Layout, id: u32)
    ensures id in Ids(l.root) ==> FocusPane(l, id).focus == id
    ensures FocusPane(l, id).root == l.root
    ensures id in Ids(l.root) && id != l.focus ==> FocusPane(l, id).prev == Some(l.focus)
    ensures id !in Ids(l.root) || id == l.focus ==> FocusPane(l, id) == l
  {
  }

  /** And closing it brings the focus back. */
  lemma FocusReturns(l: Layout, id: u32)
    requires Inv(l) && id in Ids(l.root) && id != l.focus
    ensures CanClose(FocusPane(l, id)) && ClosePane(FocusPane(l, id), id).1
    ensures ClosePane(FocusPane(l, id), id).0.focus == l.focus
  {
    var moved := FocusPane(l, id);
    CountIsIds(moved.root);
    RemovePaneIds(moved.root, id);
    TwoPanes(Ids(l.root), id, l.focus);
    RemovedKeeps(Ids(l.root), id, l.focus);
  }

  lemma TwoPanes(ids: seq<u32>, a: u32, b: u32)
    requires a in ids && b in ids && a != b
    ensures |ids| > 1
  {
  }

  lemma {:induction false} RemovedKeeps(ids: seq<u32>, target: u32, other: u32)
    requires other in ids && other != target
    ensures other in Removed(ids, target)
  {
    if ids[0] != other {
      assert ids == [ids[0]] + ids[1..];
      RemovedKeeps(ids[1..], target, other);
    }
  }

  // --- Which pane is next ---

  predicate Between(c: nat, lo: nat, hi: nat) { lo <= c < hi }

  /** The lines across the movement that both rectangles have. */
  function Shared(a: Rect, b: Rect, nav: Nav): set<nat> {
    Lines(CrossLo(a, nav), CrossLo(a, nav) + CrossLen(a, nav))
    * Lines(CrossLo(b, nav), CrossLo(b, nav) + CrossLen(b, nav))
  }

  function Lines(lo: nat, hi: nat): set<nat> { set c: nat | c < hi && Between(c, lo, hi) }

  lemma {:induction false} LinesBetween(lo: nat, hi: nat)
    ensures |Lines(lo, hi)| == SatSub(hi, lo)
    decreases SatSub(hi, lo)
  {
    if lo < hi {
      LinesBetween(lo + 1, hi);
      assert Lines(lo, hi) == Lines(lo + 1, hi) + {lo};
    } else {
      assert Lines(lo, hi) == {};
    }
  }

  lemma OverlapIsShared(a: Rect, b: Rect, nav: Nav)
    requires CrossLo(a, nav) + CrossLen(a, nav) <= 0xffff && CrossLo(b, nav) + CrossLen(b, nav) <= 0xffff
    ensures OverlapAmount(CrossLo(a, nav), CrossLen(a, nav), CrossLo(b, nav), CrossLen(b, nav)) == |Shared(a, b, nav)|
  {
    var lo := Max(CrossLo(a, nav), CrossLo(b, nav));
    var hi := Min(CrossLo(a, nav) + CrossLen(a, nav), CrossLo(b, nav) + CrossLen(b, nav));
    LinesBetween(lo, hi);
    assert Shared(a, b, nav) == Lines(lo, hi);
  }

  /** The cells between the edge of the focused pane and a pane beyond it. */
  function Gap(f: Rect, p: Rect, nav: Nav): int {
    match nav
    case Left => f.x - (p.x + p.width)
    case Right => p.x - (f.x + f.width)
    case Up => f.y - (p.y + p.height)
    case Down => p.y - (f.y + f.height)
  }

  /** Twice the distance of the centres across the movement. */
  function OffCentre(f: Rect, p: Rect, nav: Nav): nat {
    var d := if nav == Left || nav == Right then 2 * p.y + p.height - (2 * f.y + f.height)
             else 2 * p.x + p.width - (2 * f.x + f.width);
    if d < 0 then -d else d
  }

  /** A pane one can move to: beyond the edge, and alongside. */
  predicate Reachable(f: PaneInfo, p: PaneInfo, nav: Nav) {
    p.id != f.id && Gap(f.rect, p.rect, nav) >= 0 && Alongside(f.rect, p.rect, nav)
  }

  predicate Alongside(f: Rect, p: Rect, nav: Nav) {
    if nav == Left || nav == Right then f.y < p.y + p.height && p.y < f.y + f.height
    else f.x < p.x + p.width && p.x < f.x + f.width
  }

  /** `a` is preferred to `b`: it is nearer, or as near and shares more lines, or as many and is nearer to the middle,
      or all of these are equal and it comes first. */
  predicate Preferred(f: Rect, a: Rect, b: Rect, nav: Nav, first: bool) {
    || Gap(f, a, nav) < Gap(f, b, nav)
    || (Gap(f, a, nav) == Gap(f, b, nav) &&
        (|| |Shared(a, f, nav)| > |Shared(b, f, nav)|
         || (|Shared(a, f, nav)| == |Shared(b, f, nav)| &&
             (OffCentre(f, a, nav) < OffCentre(f, b, nav) || (OffCentre(f, a, nav) == OffCentre(f, b, nav) && first)))))
  }

  predicate Small(r: Rect) { 2 * (r.x + r.width) <= 0xffff && 2 * (r.y + r.height) <= 0xffff }

  lemma RanksPrefer(f: PaneInfo, nav: Nav, panes: seq<PaneInfo>, i: nat, j: nat)
    requires i < |panes| && j < |panes| && i != j && Small(f.rect) && Small(panes[i].rect) && Small(panes[j].rect)
    requires Candidate(f, nav, panes[i]) && Candidate(f, nav, panes[j])
    ensures RankLess(RankOf(f, nav, panes, i), RankOf(f, nav, panes, j))
            <==> Preferred(f.rect, panes[i].rect, panes[j].rect, nav, i < j)
  {
    OverlapIsShared(panes[i].rect, f.rect, nav);
    OverlapIsShared(panes[j].rect, f.rect, nav);
    RankMeans(f, nav, panes, i);
    RankMeans(f, nav, panes, j);
  }

  lemma RankMeans(f: PaneInfo, nav: Nav, panes: seq<PaneInfo>, i: nat)
    requires i < |panes| && Small(f.rect) && Small(panes[i].rect) && Candidate(f, nav, panes[i])
    ensures var rank := RankOf(f, nav, panes, i);
            rank.edge == Gap(f.rect, panes[i].rect, nav) && rank.center == OffCentre(f.rect, panes[i].rect, nav)
            && rank.index == i
  {
  }

  lemma CandidateMeans(f: PaneInfo, nav: Nav, p: PaneInfo)
    ensures Candidate(f, nav, p) <==> Reachable(f, p, nav)
  {
  }

  /** The pane that a movement finds: one exactly when some pane lies beyond the edge and alongside, and then the one
      that is preferred to all others. */
  lemma MovesToPreferred(f: PaneInfo, nav: Nav, panes: seq<PaneInfo>)
    requires Small(f.rect) && forall i :: 0 <= i < |panes| ==> Small(panes[i].rect)
    ensures var found := FindInDirection(f, nav, panes);
            && (found.None? <==> forall i :: 0 <= i < |panes| ==> !Reachable(f, panes[i], nav))
            && (found.Some? ==>
                  exists best :: 0 <= best < |panes| && found == Some(panes[best].id) && Reachable(f, panes[best], nav)
                    && forall i :: 0 <= i < |panes| && i != best && Reachable(f, panes[i], nav) ==>
                         Preferred(f.rect, panes[best].rect, panes[i].rect, nav, best < i))
  {
    BestIsLeast(f, nav, panes, |panes|);
    forall i | 0 <= i < |panes| ensures Candidate(f, nav, panes[i]) <==> Reachable(f, panes[i], nav) {
      CandidateMeans(f, nav, panes[i]);
    }
    var best := BestOf(f, nav, panes, |panes|);
    if best.Some? {
      forall i | 0 <= i < |panes| && i != best.value && Reachable(f, panes[i], nav)
        ensures Preferred(f.rect, panes[best.value].rect, panes[i].rect, nav, best.value < i)
      {
        RanksPrefer(f, nav, panes, best.value, i);
      }
    }
  }
}
