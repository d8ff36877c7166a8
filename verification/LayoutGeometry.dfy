/** Where panes and split borders lie: the rectangles of a tree tile its area exactly. */
module LayoutGeometry {
  import opened Prelude
  import opened LayoutTree

  datatype Rect = Rect(x: nat, y: nat, width: nat, height: nat)

  predicate Has(r: Rect, x: nat, y: nat) {
    r.x <= x < r.x + r.width && r.y <= y < r.y + r.height
  }

  predicate Inside(r: Rect, area: Rect) {
    && area.x <= r.x && r.x + r.width <= area.x + area.width
    && area.y <= r.y && r.y + r.height <= area.y + area.height
  }

  /** (len * ratio) rounded half away from zero and cast to 16 bits: NaN becomes 0, the rest saturates. */
  function FirstLength(len: nat, ratio: Float): nat {
    match ratio
    case Num(r) => if r < 0.0 then 0 else Min(Scaled(len, r), 0xFFFF)
    case PosInf => if len == 0 then 0 else 0xFFFF
    case NegInf => 0
    case NaN => 0
  }

  function Scaled(len: nat, r: real): nat
    requires r >= 0.0
  {
    ScaledNonNegative(len, r);
    (len as real * r + 0.5).Floor
  }

  lemma ScaledNonNegative(len: nat, r: real)
    requires r >= 0.0
    ensures len as real * r >= 0.0
  {
  }

  /** All that the theorems use of rounding: a stored ratio gives the first child a part of the length. */
  lemma FirstLengthBounded(len: nat, ratio: Float)
    requires RatioOk(ratio)
    ensures FirstLength(len, ratio) <= len
  {
    if ratio.Num? {
      var part := len as real * ratio.r;
      assert part <= len as real * 1.0;
      assert Scaled(len, ratio.r) as real <= part + 0.5;
    }
  }

  function SplitRect(area: Rect, direction: Direction, ratio: Float): (Rect, Rect) {
    match direction
    case Horizontal =>
      var w := FirstLength(area.width, ratio);
      (area.(width := w), Rect(area.x + w, area.y, SatSub(area.width, w), area.height))
    case Vertical =>
      var h := FirstLength(area.height, ratio);
      (area.(height := h), Rect(area.x, area.y + h, area.width, SatSub(area.height, h)))
  }

  /** The two parts of a split share its area without overlap. */
  predicate Parts(area: Rect, direction: Direction, a: Rect, b: Rect) {
    match direction
    case Horizontal =>
      && a.x == area.x && b.x == a.x + a.width && a.width + b.width == area.width
      && a.y == b.y == area.y && a.height == b.height == area.height
    case Vertical =>
      && a.y == area.y && b.y == a.y + a.height && a.height + b.height == area.height
      && a.x == b.x == area.x && a.width == b.width == area.width
  }

  lemma SplitRectParts(area: Rect, direction: Direction, ratio: Float)
    requires RatioOk(ratio)
    ensures var (a, b) := SplitRect(area, direction, ratio); Parts(area, direction, a, b)
  {
    FirstLengthBounded(area.width, ratio);
    FirstLengthBounded(area.height, ratio);
  }

  datatype PaneInfo = PaneInfo(id: u32, rect: Rect, focused: bool)

  function Panes(n: Node, area: Rect, focus: u32): seq<PaneInfo> {
    match n
    case Pane(id) => [PaneInfo(id, area, id == focus)]
    case Split(d, r, first, second) =>
      var (a, b) := SplitRect(area, d, r);
      Panes(first, a, focus) + Panes(second, b, focus)
  }

  datatype SplitBorder = SplitBorder(pos: nat, direction: Direction, ratio: Float, area: Rect, path: Path)

  function Splits(n: Node, area: Rect, path: Path): seq<SplitBorder> {
    match n
    case Pane(_) => []
    case Split(d, r, first, second) =>
      var (a, b) := SplitRect(area, d, r);
      var pos := if d == Horizontal then a.x + a.width else a.y + a.height;
      [SplitBorder(pos, d, r, area, path)] + Splits(first, a, path + [false]) + Splits(second, b, path + [true])
  }

  // --- Exact tiling ---

  /** How many panes cover a cell. */
  function Covering(panes: seq<PaneInfo>, x: nat, y: nat): nat {
    if panes == [] then 0 else (if Has(panes[0].rect, x, y) then 1 else 0) + Covering(panes[1..], x, y)
  }

  lemma {:induction false} CoveringConcat(a: seq<PaneInfo>, b: seq<PaneInfo>, x: nat, y: nat)
    ensures Covering(a + b, x, y) == Covering(a, x, y) + Covering(b, x, y)
  {
    if a == [] {
      assert a + b == b;
    } else {
      CoveringConcat(a[1..], b, x, y);
      assert (a + b)[1..] == a[1..] + b;
    }
  }

  /** Every cell of the area lies in exactly one pane, and no pane has a cell outside. */
  lemma {:induction false} ExactTiling(n: Node, area: Rect, focus: u32, x: nat, y: nat)
    requires RatiosOk(n)
    ensures Covering(Panes(n, area, focus), x, y) == if Has(area, x, y) then 1 else 0
  {
    match n
    case Pane(id) => assert [PaneInfo(id, area, id == focus)][1..] == [];
    case Split(d, r, first, second) =>
      var (a, b) := SplitRect(area, d, r);
      SplitRectParts(area, d, r);
      ExactTiling(first, a, focus, x, y);
      ExactTiling(second, b, focus, x, y);
      CoveringConcat(Panes(first, a, focus), Panes(second, b, focus), x, y);
  }

  /** Every pane lies in the area, also when it is empty; panes are listed as their ids are. */
  lemma {:induction false} PanesInside(n: Node, area: Rect, focus: u32)
    requires RatiosOk(n)
    ensures |Panes(n, area, focus)| == |Ids(n)|
    ensures forall i :: 0 <= i < |Ids(n)| ==>
              var p := Panes(n, area, focus)[i];
              p.id == Ids(n)[i] && p.focused == (p.id == focus) && Inside(p.rect, area)
  {
    match n
    case Pane(_) =>
    case Split(d, r, first, second) =>
      var (a, b) := SplitRect(area, d, r);
      SplitRectParts(area, d, r);
      PanesInside(first, a, focus);
      PanesInside(second, b, focus);
  }

  lemma {:induction false} CoveredBy(panes: seq<PaneInfo>, x: nat, y: nat) returns (i: nat)
    requires Covering(panes, x, y) > 0
    ensures i < |panes| && Has(panes[i].rect, x, y)
  {
    if Has(panes[0].rect, x, y) {
      i := 0;
    } else {
      i := CoveredBy(panes[1..], x, y);
      i := i + 1;
    }
  }

  lemma {:induction false} CoveringCounts(panes: seq<PaneInfo>, x: nat, y: nat, i: nat)
    requires i < |panes| && Has(panes[i].rect, x, y)
    ensures Covering(panes, x, y) >= 1
  {
    if i > 0 { CoveringCounts(panes[1..], x, y, i - 1); }
  }

  lemma {:induction false} CoveredOnce(panes: seq<PaneInfo>, x: nat, y: nat, i: nat, j: nat)
    requires i < j < |panes| && Has(panes[i].rect, x, y) && Has(panes[j].rect, x, y)
    ensures Covering(panes, x, y) >= 2
  {
    if i == 0 {
      CoveringCounts(panes[1..], x, y, j - 1);
    } else {
      CoveredOnce(panes[1..], x, y, i - 1, j - 1);
    }
  }

  /** Two panes with a common cell are one pane. */
  lemma SameCellSamePane(n: Node, area: Rect, focus: u32, x: nat, y: nat, i: nat, j: nat)
    requires RatiosOk(n) && i < |Panes(n, area, focus)| && j < |Panes(n, area, focus)|
    requires Has(Panes(n, area, focus)[i].rect, x, y) && Has(Panes(n, area, focus)[j].rect, x, y)
    ensures i == j
  {
    ExactTiling(n, area, focus, x, y);
    if i < j {
      CoveredOnce(Panes(n, area, focus), x, y, i, j);
    } else if j < i {
      CoveredOnce(Panes(n, area, focus), x, y, j, i);
    }
  }

  // --- Split borders and paths ---

  /** The listed splits are exactly those with a ratio at their path, and list that ratio. */
  lemma {:induction false} SplitsHaveRatios(n: Node, area: Rect, path: Path, s: SplitBorder)
    requires s in Splits(n, area, path)
    ensures |path| <= |s.path| && s.path[..|path|] == path && GetRatioAt(n, s.path[|path|..]) == Some(s.ratio)
  {
    match n
    case Pane(_) =>
    case Split(d, r, first, second) =>
      var (a, b) := SplitRect(area, d, r);
      if s in Splits(first, a, path + [false]) {
        SplitsHaveRatios(first, a, path + [false], s);
        Descend(s.path, path, false);
      } else if s in Splits(second, b, path + [true]) {
        SplitsHaveRatios(second, b, path + [true], s);
        Descend(s.path, path, true);
      }
  }

  lemma Descend(full: Path, path: Path, step: bool)
    requires |path| < |full| && full[..|path| + 1] == path + [step]
    ensures full[..|path|] == path && full[|path|..] == [step] + full[|path| + 1..]
  {
    assert full[..|path|] == full[..|path| + 1][..|path|];
    assert full[|path|] == full[..|path| + 1][|path|];
  }

  lemma {:induction false} RatiosHaveSplits(n: Node, area: Rect, path: Path, below: Path)
    requires GetRatioAt(n, below).Some?
    ensures exists s :: s in Splits(n, area, path) && s.path == path + below
  {
    var (a, b) := SplitRect(area, n.direction, n.ratio);
    if below == [] {
      var s := Splits(n, area, path)[0];
      assert s in Splits(n, area, path) && s.path == path + below;
    } else {
      var head := path + [below[0]];
      var child, part := if below[0] then n.second else n.first, if below[0] then b else a;
      RatiosHaveSplits(child, part, head, below[1..]);
      var s :| s in Splits(child, part, head) && s.path == head + below[1..];
      StepDown(path, below);
      ChildSplits(n, area, path, below[0], s);
    }
  }

  lemma StepDown(path: Path, below: Path)
    requires below != []
    ensures path + [below[0]] + below[1..] == path + below
  {
  }

  lemma ChildSplits(n: Node, area: Rect, path: Path, second: bool, s: SplitBorder)
    requires n.Split?
    requires var (a, b) := SplitRect(area, n.direction, n.ratio);
             s in Splits(if second then n.second else n.first, if second then b else a, path + [second])
    ensures s in Splits(n, area, path)
  {
  }

  /** No path is listed twice. */
  lemma {:induction false} SplitPathsDistinct(n: Node, area: Rect, path: Path)
    ensures forall i, j :: 0 <= i < j < |Splits(n, area, path)| ==>
            Splits(n, area, path)[i].path != Splits(n, area, path)[j].path
  {
    if n.Split? {
      var (a, b) := SplitRect(area, n.direction, n.ratio);
      var all, f, s := Splits(n, area, path), Splits(n.first, a, path + [false]), Splits(n.second, b, path + [true]);
      SplitPathsDistinct(n.first, a, path + [false]);
      SplitPathsDistinct(n.second, b, path + [true]);
      assert |all| == 1 + |f| + |s|;
      forall i | 1 <= i < |all| ensures |all[i].path| > |path| && all[i].path[|path|] == (i > |f|) {
        if i <= |f| {
          assert all[i] == f[i - 1] && all[i] in f;
          SplitsHaveRatios(n.first, a, path + [false], all[i]);
          Descend(all[i].path, path, false);
        } else {
          assert all[i] == s[i - 1 - |f|] && all[i] in s;
          SplitsHaveRatios(n.second, b, path + [true], all[i]);
          Descend(all[i].path, path, true);
        }
      }
      forall i, j | 0 <= i < j < |all| ensures all[i].path != all[j].path {
        if 1 <= i && j <= |f| {
          assert all[i] == f[i - 1] && all[j] == f[j - 1];
        } else if |f| < i {
          assert all[i] == s[i - 1 - |f|] && all[j] == s[j - 1 - |f|];
        }
      }
    }
  }

  /** The listed splits are exactly the split nodes: each path once, with its ratio. */
  lemma SplitsAreTheSplits(n: Node, area: Rect, path: Path)
    ensures (exists s :: s in Splits(n, area, []) && s.path == path) <==> GetRatioAt(n, path).Some?
    ensures forall s :: s in Splits(n, area, []) ==> GetRatioAt(n, s.path) == Some(s.ratio)
  {
    forall s | s in Splits(n, area, []) ensures GetRatioAt(n, s.path) == Some(s.ratio) {
      SplitsHaveRatios(n, area, [], s);
      assert s.path[0..] == s.path;
    }
    if GetRatioAt(n, path).Some? {
      RatiosHaveSplits(n, area, [], path);
      assert [] + path == path;
    }
  }
}
