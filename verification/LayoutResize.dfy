/** What a resize does to the pane it is for: which border moves, and which way. */
module LayoutResize {
  import opened Prelude
  import opened LayoutTree
  import opened LayoutGeometry
  import opened LayoutNavigation
  import opened TileLayout

  // --- Rounding is monotone ---

  lemma ProductGrows(x: real, r: real, r': real)
    requires 0.0 <= x && r <= r'
    ensures x * r <= x * r'
  {
    assert x * (r' - r) >= 0.0;
  }

  lemma ScaledMonotone(len: nat, more: nat, r: real)
    requires len <= more && 0.0 <= r <= 1.0
    ensures Scaled(len, r) <= Scaled(more, r) <= Scaled(len, r) + (more - len)
  {
    var d := (more - len) as real * r;
    assert more as real * r == len as real * r + d;
    ProductGrows((more - len) as real, 0.0, r);
    ProductGrows((more - len) as real, r, 1.0);
    FloorWithin(len as real * r + 0.5, d, more - len);
  }

  lemma FloorOrder(x: real, y: real)
    requires x <= y
    ensures x.Floor <= y.Floor
  {
  }

  lemma FloorWithin(x: real, d: real, n: nat)
    requires 0.0 <= d <= n as real
    ensures x.Floor <= (x + d).Floor <= x.Floor + n
  {
    assert (x + d).Floor as real <= x + d < x.Floor as real + 1.0 + n as real;
  }

  /** Along its length a split gives neither child less when there is more to share. */
  lemma FirstLengthMonotone(len: nat, more: nat, ratio: Float)
    requires len <= more && RatioOk(ratio)
    ensures FirstLength(len, ratio) <= FirstLength(more, ratio)
    ensures len - FirstLength(len, ratio) <= more - FirstLength(more, ratio)
  {
    if ratio.Num? { ScaledMonotone(len, more, ratio.r); }
  }

  lemma ScaledInRatio(len: nat, r: real, r': real)
    requires 0.0 <= r <= r'
    ensures Scaled(len, r) <= Scaled(len, r')
  {
    ProductGrows(len as real, r, r');
    FloorOrder(len as real * r + 0.5, len as real * r' + 0.5);
  }

  lemma FirstLengthInRatio(len: nat, r: Float, r': Float)
    requires RatioUp(r, r')
    ensures FirstLength(len, r) <= FirstLength(len, r')
  {
    if r != r' { ScaledInRatio(len, r.r, r'.r); }
  }

  /** A ratio that did not go down; a NaN stays as it is. */
  predicate RatioUp(r: Float, r': Float) {
    RatioOk(r) && RatioOk(r') && (r == r' || (r.Num? && r'.Num? && r.r <= r'.r))
  }

  // --- Rectangles pushed outwards ---

  /** An interval that grew no shorter while its ends moved backward, or forward. */
  predicate Shifted(lo: nat, len: nat, lo': nat, len': nat, backward: bool) {
    len <= len' && if backward then lo' <= lo && lo' + len' <= lo + len else lo <= lo' && lo + len <= lo' + len'
  }

  /** `b` is `a` with its edges moved in the direction, no shorter, and the same across it. */
  predicate Pushed(a: Rect, b: Rect, nav: Nav) {
    && CrossLo(a, nav) == CrossLo(b, nav) && CrossLen(a, nav) == CrossLen(b, nav)
    && Shifted(MainLo(a, nav), MainLen(a, nav), MainLo(b, nav), MainLen(b, nav), Backward(nav))
  }

  lemma PushedParts(a: Rect, b: Rect, direction: Direction, ratio: Float, nav: Nav)
    requires Pushed(a, b, nav) && RatioOk(ratio)
    ensures Pushed(SplitRect(a, direction, ratio).0, SplitRect(b, direction, ratio).0, nav)
    ensures Pushed(SplitRect(a, direction, ratio).1, SplitRect(b, direction, ratio).1, nav)
  {
    var (a1, a2) := SplitRect(a, direction, ratio);
    var (b1, b2) := SplitRect(b, direction, ratio);
    SplitRectParts(a, direction, ratio);
    SplitRectParts(b, direction, ratio);
    FirstLengthMonotone(a.width, Max(a.width, b.width), ratio);
    FirstLengthMonotone(a.height, Max(a.height, b.height), ratio);
    PushedFrom(a, b, direction, nav, a1, a2, b1, b2);
  }

  lemma PushedFrom(a: Rect, b: Rect, direction: Direction, nav: Nav, a1: Rect, a2: Rect, b1: Rect, b2: Rect)
    requires Pushed(a, b, nav) && Parts(a, direction, a1, a2) && Parts(b, direction, b1, b2)
    requires MainLen(a1, nav) <= MainLen(b1, nav) && MainLen(a2, nav) <= MainLen(b2, nav)
    requires CrossLen(a1, nav) == CrossLen(b1, nav)
    ensures Pushed(a1, b1, nav) && Pushed(a2, b2, nav)
  {
    PartsAlong(a, direction, nav, a1, a2);
    PartsAlong(b, direction, nav, b1, b2);
    if SplitsAlong(direction, nav) {
      ShiftedParts(MainLo(a, nav), MainLen(a1, nav), MainLen(a2, nav), MainLo(b, nav), MainLen(b1, nav),
                   MainLen(b2, nav), Backward(nav));
    }
  }

  lemma ShiftedParts(lo: nat, x: nat, y: nat, lo': nat, x': nat, y': nat, backward: bool)
    requires Shifted(lo, x + y, lo', x' + y', backward) && x <= x' && y <= y'
    ensures Shifted(lo, x, lo', x', backward) && Shifted(lo + x, y, lo' + x', y', backward)
  {
  }

  /** The parts of a split seen along a direction. */
  lemma PartsAlong(area: Rect, direction: Direction, nav: Nav, a: Rect, b: Rect)
    requires Parts(area, direction, a, b)
    ensures if SplitsAlong(direction, nav) then
              && MainLo(a, nav) == MainLo(area, nav) && MainLo(b, nav) == MainLo(area, nav) + MainLen(a, nav)
              && MainLen(a, nav) + MainLen(b, nav) == MainLen(area, nav)
              && CrossLo(a, nav) == CrossLo(b, nav) == CrossLo(area, nav)
              && CrossLen(a, nav) == CrossLen(b, nav) == CrossLen(area, nav)
            else
              && MainLo(a, nav) == MainLo(b, nav) == MainLo(area, nav)
              && MainLen(a, nav) == MainLen(b, nav) == MainLen(area, nav)
              && CrossLo(a, nav) == CrossLo(area, nav) && CrossLo(b, nav) == CrossLo(area, nav) + CrossLen(a, nav)
              && CrossLen(a, nav) + CrossLen(b, nav) == CrossLen(area, nav)
  {
  }

  /** Pushing the area pushes every pane in it. */
  lemma {:induction false} PushedPanes(n: Node, a: Rect, b: Rect, focus: u32, nav: Nav, k: nat)
    requires RatiosOk(n) && Pushed(a, b, nav) && k < |Ids(n)|
    ensures k < |Panes(n, a, focus)| && k < |Panes(n, b, focus)|
    ensures Pushed(Panes(n, a, focus)[k].rect, Panes(n, b, focus)[k].rect, nav)
  {
    if n.Split? {
      PushedParts(a, b, n.direction, n.ratio, nav);
      var (a1, a2) := SplitRect(a, n.direction, n.ratio);
      var (b1, b2) := SplitRect(b, n.direction, n.ratio);
      ChildPanes(n, a, focus, k);
      ChildPanes(n, b, focus, k);
      if k < |Ids(n.first)| {
        PushedPanes(n.first, a1, b1, focus, nav, k);
      } else {
        PushedPanes(n.second, a2, b2, focus, nav, k - |Ids(n.first)|);
      }
    }
  }

  /** Pane number `k` of a split is a pane of one of its children. */
  lemma ChildPanes(n: Node, area: Rect, focus: u32, k: nat)
    requires n.Split? && RatiosOk(n) && k < |Ids(n)|
    ensures var (a, b) := SplitRect(area, n.direction, n.ratio);
            && |Panes(n, area, focus)| == |Ids(n)|
            && |Panes(n.first, a, focus)| == |Ids(n.first)| && |Panes(n.second, b, focus)| == |Ids(n.second)|
            && Panes(n, area, focus)[k] ==
                 if k < |Ids(n.first)| then Panes(n.first, a, focus)[k]
                     else Panes(n.second, b, focus)[k - |Ids(n.first)|]
  {
    var (a, b) := SplitRect(area, n.direction, n.ratio);
    PanesInside(n, area, focus);
    PanesInside(n.first, a, focus);
    PanesInside(n.second, b, focus);
  }

  // --- Where a pane lies with respect to a split ---

  datatype Side = First | Second | Outside

  /** The child of the split at `path` that pane number `k` lies in. */
  function SideOf(n: Node, path: Path, k: nat): Side {
    match n
    case Pane(_) => Outside
    case Split(_, _, first, second) =>
      var m := |Ids(first)|;
      if path == [] then if k < m then First else Second
      else if path[0] then if k < m then Outside else SideOf(second, path[1..], k - m)
      else if k < m then SideOf(first, path[1..], k) else Outside
  }

  /** The subtree at a path, and its area. */
  function At(n: Node, area: Rect, path: Path): Option<(Node, Rect)> {
    if path == [] then Some((n, area))
    else if n.Pane? then None
    else
      var (a, b) := SplitRect(area, n.direction, n.ratio);
      if path[0] then At(n.second, b, path[1..]) else At(n.first, a, path[1..])
  }

  lemma {:induction false} BorderAt(n: Node, area: Rect, path: Path, s: SplitBorder)
    requires s in Splits(n, area, path)
    ensures |path| <= |s.path| && s.path[..|path|] == path
    ensures var at := At(n, area, s.path[|path|..]);
            && at.Some? && at.value.0.Split? && at.value.0.direction == s.direction && at.value.0.ratio == s.ratio
            && at.value.1 == s.area
            && var a := SplitRect(s.area, s.direction, s.ratio).0;
               s.pos == if s.direction == Horizontal then a.x + a.width else a.y + a.height
  {
    match n
    case Pane(_) =>
    case Split(d, r, first, second) =>
      var (a, b) := SplitRect(area, d, r);
      if s in Splits(first, a, path + [false]) {
        BorderAt(first, a, path + [false], s);
        Descend(s.path, path, false);
      } else if s in Splits(second, b, path + [true]) {
        BorderAt(second, b, path + [true], s);
        Descend(s.path, path, true);
      }
  }

  /** The movement that takes a border forward. */
  function Forward(d: Direction): Nav { if d == Horizontal then Right else Down }

  /** How raising a ratio may change a pane, by the side it lies on: the border moves forward, so a pane before
      it is pushed forward, a pane behind it is drawn in from its near edge, and other panes stay. */
  predicate MovedForward(side: Side, was: Rect, now: Rect, d: Direction) {
    match side
    case First => Pushed(was, now, Forward(d))
    case Second => Pushed(now, was, Opposite(Forward(d)))
    case Outside => was == now
  }

  lemma RaisedHere(n: Node, area: Rect, focus: u32, ratio: Float, k: nat)
    requires n.Split? && RatiosOk(n) && k < |Ids(n)| && RatioUp(n.ratio, ratio)
    ensures k < |Panes(n, area, focus)| && k < |Panes(n.(ratio := ratio), area, focus)|
    ensures MovedForward(if k < |Ids(n.first)| then First else Second, Panes(n, area, focus)[k].rect,
                         Panes(n.(ratio := ratio), area, focus)[k].rect, n.direction)
  {
    var nav := Forward(n.direction);
    var (a, b) := SplitRect(area, n.direction, n.ratio);
    var (a', b') := SplitRect(area, n.direction, ratio);
    ChildPanes(n, area, focus, k);
    ChildPanes(n.(ratio := ratio), area, focus, k);
    RaisedParts(area, n.direction, n.ratio, ratio);
    if k < |Ids(n.first)| {
      PushedPanes(n.first, a, a', focus, nav, k);
    } else {
      PushedPanes(n.second, b', b, focus, Opposite(nav), k - |Ids(n.first)|);
    }
  }

  lemma RaisedParts(area: Rect, d: Direction, r: Float, r': Float)
    requires RatioUp(r, r')
    ensures Pushed(SplitRect(area, d, r).0, SplitRect(area, d, r').0, Forward(d))
    ensures Pushed(SplitRect(area, d, r').1, SplitRect(area, d, r).1, Opposite(Forward(d)))
  {
    SplitRectParts(area, d, r);
    SplitRectParts(area, d, r');
    FirstLengthInRatio(area.width, r, r');
    FirstLengthInRatio(area.height, r, r');
  }

  lemma {:induction false} RaisedRatio(n: Node, area: Rect, focus: u32, path: Path, after: Node, ratio: Float, k: nat)
    requires RatiosOk(n) && k < |Ids(n)| && At(n, area, path).Some? && At(n, area, path).value.0.Split?
    requires SetRatioAt(n, path, ratio) == Some(after) && RatioUp(At(n, area, path).value.0.ratio, ratio)
    ensures k < |Panes(n, area, focus)| && k < |Panes(after, area, focus)|
    ensures MovedForward(SideOf(n, path, k), Panes(n, area, focus)[k].rect, Panes(after, area, focus)[k].rect,
                         At(n, area, path).value.0.direction)
  {
    SetRatioAtChanges(n, path, ratio);
    ChildPanes(n, area, focus, k);
    ChildPanes(after, area, focus, k);
    var m := |Ids(n.first)|;
    var (a, b) := SplitRect(area, n.direction, n.ratio);
    if path == [] {
      assert after == n.(ratio := ratio);
      RaisedHere(n, area, focus, ratio, k);
    } else if path[0] {
      if k >= m { RaisedRatio(n.second, b, focus, path[1..], after.second, ratio, k - m); }
    } else if k < m {
      RaisedRatio(n.first, a, focus, path[1..], after.first, ratio, k);
    }
  }

  /** Setting a ratio back to what it was. */
  lemma {:induction false} SetBack(n: Node, area: Rect, path: Path, after: Node, ratio: Float)
    requires At(n, area, path).Some? && At(n, area, path).value.0.Split? && SetRatioAt(n, path, ratio) == Some(after)
    ensures SetRatioAt(after, path, At(n, area, path).value.0.ratio) == Some(n)
    ensures At(after, area, path).Some?
    ensures At(after, area, path).value == (At(n, area, path).value.0.(ratio := ratio), At(n, area, path).value.1)
  {
    var (a, b) := SplitRect(area, n.direction, n.ratio);
    if path != [] {
      if path[0] {
        SetBack(n.second, b, path[1..], after.second, ratio);
      } else {
        SetBack(n.first, a, path[1..], after.first, ratio);
      }
    }
  }

  lemma {:induction false} SideKept(n: Node, path: Path, after: Node, ratio: Float, k: nat)
    requires SetRatioAt(n, path, ratio) == Some(after)
    ensures SideOf(after, path, k) == SideOf(n, path, k)
  {
    if path != [] {
      SetRatioAtChanges(n.first, path[1..], ratio);
      if path[0] {
        if k >= |Ids(n.first)| { SideKept(n.second, path[1..], after.second, ratio, k - |Ids(n.first)|); }
      } else {
        SideKept(n.first, path[1..], after.first, ratio, k);
      }
    }
  }

  // --- The border that a resize picks ---

  /** A border lies in the area of its tree. */
  lemma {:induction false} BorderInside(n: Node, area: Rect, path: Path, s: SplitBorder)
    requires RatiosOk(n) && s in Splits(n, area, path)
    ensures Inside(s.area, area)
    ensures if s.direction == Horizontal then area.x <= s.pos <= area.x + area.width
            else area.y <= s.pos <= area.y + area.height
  {
    var (a, b) := SplitRect(area, n.direction, n.ratio);
    SplitRectParts(area, n.direction, n.ratio);
    if s in Splits(n.first, a, path + [false]) {
      BorderInside(n.first, a, path + [false], s);
    } else if s in Splits(n.second, b, path + [true]) {
      BorderInside(n.second, b, path + [true], s);
    }
  }

  /** The split is a movable one exactly at the edge. */
  predicate AtEdge(s: SplitBorder, focused: Rect, nav: Nav) {
    Movable(s, focused, nav) && SplitEdgeDistance(s, focused, nav) == 0
  }

  /** The side of a border that a pane lies on whose edge in the direction is that border. */
  function Near(nav: Nav): Side { if Backward(nav) then Second else First }

  /** The first split exactly at an edge. */
  function FirstAtEdge(splits: seq<SplitBorder>, focused: Rect, nav: Nav): (s: Option<SplitBorder>)
    ensures s.Some? ==> s.value in splits && AtEdge(s.value, focused, nav)
    ensures s.None? ==> forall t :: t in splits ==> !AtEdge(t, focused, nav)
  {
    if splits == [] then None
    else if AtEdge(splits[0], focused, nav) then Some(splits[0])
    else
      assert splits == [splits[0]] + splits[1..];
      FirstAtEdge(splits[1..], focused, nav)
  }

  lemma {:induction false} FirstConcat(a: seq<SplitBorder>, b: seq<SplitBorder>, focused: Rect, nav: Nav)
    ensures var first := FirstAtEdge(a, focused, nav);
            FirstAtEdge(a + b, focused, nav) == if first.Some? then first else FirstAtEdge(b, focused, nav)
  {
    if a == [] {
      assert a + b == b;
    } else {
      FirstConcat(a[1..], b, focused, nav);
      assert (a + b)[1..] == a[1..] + b;
    }
  }

  /** The search for the nearest split picks the first one at the edge when there is one. */
  lemma {:induction false} NearestIsFirst(splits: seq<SplitBorder>, focused: Rect, nav: Nav, n: nat)
    requires n <= |splits| && FirstAtEdge(splits[..n], focused, nav).Some?
    ensures NearestOf(splits, focused, nav, n) == FirstAtEdge(splits[..n], focused, nav)
  {
    assert splits[..n] == splits[..n - 1] + [splits[n - 1]];
    FirstConcat(splits[..n - 1], [splits[n - 1]], focused, nav);
    if FirstAtEdge(splits[..n - 1], focused, nav).Some? {
      NearestIsFirst(splits, focused, nav, n - 1);
    } else {
      NearestIsLeast(splits, focused, nav, n - 1);
    }
  }

  /** The first border at an edge of a pane is the top one, which the pane then lies against, or it is the first one
      in the child that holds the pane. */
  lemma OwnerBelow(n: Node, area: Rect, focus: u32, path: Path, k: nat, p: Rect, nav: Nav, s: SplitBorder)
    requires n.Split? && RatiosOk(n) && k < |Ids(n)| && k < |Panes(n, area, focus)|
             && p == Panes(n, area, focus)[k].rect
    requires p.width > 0 && p.height > 0 && Edge(p, nav) != Edge(area, nav)
    requires FirstAtEdge(Splits(n, area, path), p, nav) == Some(s)
    ensures var (a, b) := SplitRect(area, n.direction, n.ratio);
            var m := |Ids(n.first)|;
            if AtEdge(Splits(n, area, path)[0], p, nav) then s.path == path && (k < m) == (Near(nav) == First)
            else if k < m then
              && k < |Panes(n.first, a, focus)| && p == Panes(n.first, a, focus)[k].rect && Edge(p, nav) != Edge(a, nav)
              && FirstAtEdge(Splits(n.first, a, path + [false]), p, nav) == Some(s)
            else
              && k - m < |Panes(n.second, b, focus)| && p == Panes(n.second, b, focus)[k - m].rect
                 && Edge(p, nav) != Edge(b, nav)
              && FirstAtEdge(Splits(n.second, b, path + [true]), p, nav) == Some(s)
  {
    var m := |Ids(n.first)|;
    var (a, b) := SplitRect(area, n.direction, n.ratio);
    var top, f, g := Splits(n, area, path)[0], Splits(n.first, a, path + [false]), Splits(n.second, b, path + [true]);
    SplitRectParts(area, n.direction, n.ratio);
    ChildPanes(n, area, focus, k);
    ChildInside(n, a, b, focus, k, p);
    FirstConcat([top], f, p, nav);
    FirstConcat([top] + f, g, p, nav);
    if AtEdge(top, p, nav) {
      TopOwner(n, area, path, p, nav, a, b, k < m);
    } else {
      EdgeElsewhere(n, area, path, p, nav, a, b, k < m);
      SameBranch(n, area, focus, path, k, p, nav, a, b, f);
    }
  }

  /** The first border at an interior edge of a pane, in the order of the list, is one that the pane lies against:
      never one of another branch that happens to have the same coordinate. */
  lemma {:induction false} EdgeOwner(n: Node, area: Rect, focus: u32, path: Path, k: nat, p: Rect, nav: Nav,
                                     s: SplitBorder, rest: Path)
    requires RatiosOk(n) && k < |Ids(n)| && k < |Panes(n, area, focus)| && p == Panes(n, area, focus)[k].rect
    requires p.width > 0 && p.height > 0 && Edge(p, nav) != Edge(area, nav)
    requires FirstAtEdge(Splits(n, area, path), p, nav) == Some(s) && s.path == path + rest
    ensures SideOf(n, rest, k) == Near(nav)
  {
    OwnerBelow(n, area, focus, path, k, p, nav, s);
    var m := |Ids(n.first)|;
    var (a, b) := SplitRect(area, n.direction, n.ratio);
    if AtEdge(Splits(n, area, path)[0], p, nav) {
      assert |rest| == 0;
    } else if k < m {
      SplitsHaveRatios(n.first, a, path + [false], s);
      RestBelow(s.path, path, rest, false);
      EdgeOwner(n.first, a, focus, path + [false], k, p, nav, s, rest[1..]);
    } else {
      SplitsHaveRatios(n.second, b, path + [true], s);
      RestBelow(s.path, path, rest, true);
      EdgeOwner(n.second, b, focus, path + [true], k - m, p, nav, s, rest[1..]);
    }
  }

  lemma RestBelow(full: Path, path: Path, rest: Path, step: bool)
    requires full == path + rest && |path + [step]| <= |full| && full[..|path + [step]|] == path + [step]
    ensures rest != [] && rest[0] == step && full == (path + [step]) + rest[1..]
  {
    assert full[..|path| + 1][|path|] == step;
  }

  /** The first child has a border at the edge, other than the top one, exactly when the pane is in it. */
  lemma SameBranch(n: Node, area: Rect, focus: u32, path: Path, k: nat, p: Rect, nav: Nav, a: Rect, b: Rect,
                   f: seq<SplitBorder>)
    requires n.Split? && RatiosOk(n) && (a, b) == SplitRect(area, n.direction, n.ratio)
             && Parts(area, n.direction, a, b)
    requires p.width > 0 && p.height > 0 && Inside(p, if k < |Ids(n.first)| then a else b)
    requires k < |Ids(n.first)| ==>
               k < |Panes(n.first, a, focus)| && Panes(n.first, a, focus)[k].rect == p && Edge(p, nav) != Edge(a, nav)
    requires f == Splits(n.first, a, path + [false]) && !AtEdge(Splits(n, area, path)[0], p, nav)
    ensures FirstAtEdge(f, p, nav).Some? <==> k < |Ids(n.first)|
  {
    if k < |Ids(n.first)| {
      var t := EdgeHasSplit(n.first, a, focus, path + [false], Panes(n.first, a, focus)[k], nav);
    } else if FirstAtEdge(f, p, nav).Some? {
      var s := FirstAtEdge(f, p, nav).value;
      BorderInside(n.first, a, path + [false], s);
      BranchesApart(n, area, path, p, nav, a, b, s);
    }
  }

  lemma ChildInside(n: Node, a: Rect, b: Rect, focus: u32, k: nat, p: Rect)
    requires n.Split? && RatiosOk(n) && k < |Ids(n)|
    requires |Panes(n.first, a, focus)| == |Ids(n.first)| && |Panes(n.second, b, focus)| == |Ids(n.second)|
    requires p == if k < |Ids(n.first)| then Panes(n.first, a, focus)[k].rect
             else Panes(n.second, b, focus)[k - |Ids(n.first)|].rect
    ensures Inside(p, if k < |Ids(n.first)| then a else b)
  {
    PanesInside(n.first, a, focus);
    PanesInside(n.second, b, focus);
  }

  lemma TopOwner(n: Node, area: Rect, path: Path, p: Rect, nav: Nav, a: Rect, b: Rect, first: bool)
    requires n.Split? && (a, b) == SplitRect(area, n.direction, n.ratio) && Parts(area, n.direction, a, b)
    requires p.width > 0 && p.height > 0 && Inside(p, if first then a else b)
             && AtEdge(Splits(n, area, path)[0], p, nav)
    ensures first == (Near(nav) == First)
  {
    PartsAlong(area, n.direction, nav, a, b);
    TopBorder(n, area, path, p, nav, a);
  }

  /** When the top border is not at an edge of a pane, an edge interior to the whole is interior to the child. */
  lemma EdgeElsewhere(n: Node, area: Rect, path: Path, p: Rect, nav: Nav, a: Rect, b: Rect, first: bool)
    requires n.Split? && (a, b) == SplitRect(area, n.direction, n.ratio) && Parts(area, n.direction, a, b)
    requires p.width > 0 && p.height > 0 && Inside(p, if first then a else b)
    requires Edge(p, nav) != Edge(area, nav) && !AtEdge(Splits(n, area, path)[0], p, nav)
    ensures Edge(p, nav) != Edge(if first then a else b, nav)
  {
    PartsAlong(area, n.direction, nav, a, b);
    TopBorder(n, area, path, p, nav, a);
  }

  /** The top border, seen along a direction it splits. */
  lemma TopBorder(n: Node, area: Rect, path: Path, p: Rect, nav: Nav, a: Rect)
    requires n.Split? && a == SplitRect(area, n.direction, n.ratio).0
    requires p.width > 0 && p.height > 0 && Inside(p, area)
    ensures var top := Splits(n, area, path)[0];
            && top.direction == n.direction
            && (SplitsAlong(n.direction, nav) ==>
                top.pos == MainHi(a, nav) && (AtEdge(top, p, nav) <==> top.pos == Edge(p, nav)))
  {
  }

  /** A border of the first child is not at the edge of a pane of the second, unless the top border is. */
  lemma BranchesApart(n: Node, area: Rect, path: Path, p: Rect, nav: Nav, a: Rect, b: Rect, s: SplitBorder)
    requires n.Split? && (a, b) == SplitRect(area, n.direction, n.ratio) && Parts(area, n.direction, a, b)
    requires p.width > 0 && p.height > 0 && Inside(p, b) && !AtEdge(Splits(n, area, path)[0], p, nav)
    requires Inside(s.area, a)
    requires if s.direction == Horizontal then a.x <= s.pos <= a.x + a.width else a.y <= s.pos <= a.y + a.height
    ensures !AtEdge(s, p, nav)
  {
    PartsAlong(area, n.direction, nav, a, b);
    TopBorder(n, area, path, p, nav, a);
  }

  // --- Resizing the focused pane ---

  /** A change of a non-negative amount; it may be infinite but is not a NaN. */
  predicate Growing(delta: Float) { delta.PosInf? || (delta.Num? && delta.r >= 0.0) }

  predicate Shrinking(delta: Float) { delta.NegInf? || (delta.Num? && delta.r <= 0.0) }

  lemma ClampedSum(r: Float, change: Float)
    requires RatioOk(r)
    ensures Growing(change) ==> RatioUp(r, Clamp(Add(r, change)))
    ensures Shrinking(change) ==> RatioUp(Clamp(Add(r, change)), r)
  {
  }

  lemma {:induction false} FirstFocusedAt(panes: seq<PaneInfo>, k: nat)
    requires k < |panes| && panes[k].focused && forall j :: 0 <= j < k ==> !panes[j].focused
    ensures FirstFocused(panes) == Some(panes[k])
  {
    if k > 0 { FirstFocusedAt(panes[1..], k - 1); }
  }

  /** The focused pane is pane number `k` of the layout. */
  predicate FocusAt(l: Layout, k: nat) {
    k < |Ids(l.root)| && Ids(l.root)[k] == l.focus
  }

  function RectOf(l: Layout, area: Rect, k: nat): Rect {
    var panes := Panes(l.root, area, l.focus);
    if k < |panes| then panes[k].rect else area
  }

  lemma FocusedPane(l: Layout, area: Rect, k: nat)
    requires Inv(l) && FocusAt(l, k)
    ensures k < |Panes(l.root, area, l.focus)| && RectOf(l, area, k) == Panes(l.root, area, l.focus)[k].rect
    ensures FirstFocused(Panes(l.root, area, l.focus)) == Some(Panes(l.root, area, l.focus)[k])
    ensures Inside(RectOf(l, area, k), area)
  {
    PanesInside(l.root, area, l.focus);
    FirstFocusedAt(Panes(l.root, area, l.focus), k);
  }

  /** How a new ratio for a listed split changes pane number `k`, by the side of the split it lies on. */
  lemma RatioMoves(l: Layout, area: Rect, s: SplitBorder, ratio: Float, k: nat)
    requires Inv(l) && s in Splits(l.root, area, []) && RatioOk(ratio) && k < |Ids(l.root)|
    ensures SetRatioAt(l.root, s.path, ratio).Some?
    ensures var after := l.(root := SetRatioAt(l.root, s.path, ratio).value);
            var was, now := RectOf(l, area, k), RectOf(after, area, k);
            && Inside(was, area) && Inside(now, area)
            && (RatioUp(s.ratio, ratio) ==> MovedForward(SideOf(l.root, s.path, k), was, now, s.direction))
            && (RatioUp(ratio, s.ratio) ==> MovedForward(SideOf(l.root, s.path, k), now, was, s.direction))
  {
    BorderAt(l.root, area, [], s);
    assert s.path[0..] == s.path;
    SplitsHaveRatios(l.root, area, [], s);
    SetRatioAtChanges(l.root, s.path, ratio);
    var root := SetRatioAt(l.root, s.path, ratio).value;
    PanesInside(l.root, area, l.focus);
    PanesInside(root, area, l.focus);
    SetBack(l.root, area, s.path, root, ratio);
    SideKept(l.root, s.path, root, ratio, k);
    if RatioUp(s.ratio, ratio) { RaisedRatio(l.root, area, l.focus, s.path, root, ratio, k); }
    if RatioUp(ratio, s.ratio) { RaisedRatio(root, area, l.focus, s.path, l.root, s.ratio, k); }
  }

  /** A resize sets one ratio: that of the split it picked, by the change, within bounds. */
  lemma ResizeSetsRatio(l: Layout, nav: Nav, delta: Float, area: Rect, s: SplitBorder)
    requires Inv(l) && ResizeTarget(l, nav, area) == Some(s) && s in Splits(l.root, area, [])
    ensures RatioOk(s.ratio)
    ensures var ratio := Clamp(Add(s.ratio, if Backward(nav) then Negate(delta) else delta));
            && (delta != NaN ==> RatioOk(ratio)) && SetRatioAt(l.root, s.path, ratio).Some?
            && ResizeFocused(l, nav, delta, area) == l.(root := SetRatioAt(l.root, s.path, ratio).value)
  {
    SplitsHaveRatios(l.root, area, [], s);
    assert s.path[0..] == s.path;
    SplitRatioOk(l.root, area, [], s);
    SetRatioAtChanges(l.root, s.path, Clamp(Add(s.ratio, if Backward(nav) then Negate(delta) else delta)));
  }

  lemma {:induction false} SplitRatioOk(n: Node, area: Rect, path: Path, s: SplitBorder)
    requires RatiosOk(n) && s in Splits(n, area, path)
    ensures RatioOk(s.ratio)
  {
    var (a, b) := SplitRect(area, n.direction, n.ratio);
    if s in Splits(n.first, a, path + [false]) {
      SplitRatioOk(n.first, a, path + [false], s);
    } else if s in Splits(n.second, b, path + [true]) {
      SplitRatioOk(n.second, b, path + [true], s);
    }
  }

  lemma TargetIsListed(l: Layout, nav: Nav, area: Rect)
    ensures var target := ResizeTarget(l, nav, area);
            target.Some? ==> target.value in Splits(l.root, area, []) && SplitsAlong(target.value.direction, nav)
  {
    var splits, focused := Splits(l.root, area, []), FirstFocused(Panes(l.root, area, l.focus));
    if focused.Some? {
      assert splits[..|splits|] == splits;
      NearestIsLeast(splits, focused.value.rect, nav, |splits|);
      NearestIsLeast(splits, focused.value.rect, Opposite(nav), |splits|);
    }
  }

  /** At an interior edge of the focused pane a resize moves a border that the pane lies against, without falling
      back to the opposite edge. */
  lemma InteriorTarget(l: Layout, nav: Nav, area: Rect, k: nat) returns (s: SplitBorder)
    requires Inv(l) && FocusAt(l, k)
    requires RectOf(l, area, k).width > 0 && RectOf(l, area, k).height > 0
    requires Edge(RectOf(l, area, k), nav) != Edge(area, nav)
    ensures ResizeTarget(l, nav, area) == Some(s) && s in Splits(l.root, area, [])
    ensures AtEdge(s, RectOf(l, area, k), nav) && SideOf(l.root, s.path, k) == Near(nav)
  {
    var splits, p := Splits(l.root, area, []), RectOf(l, area, k);
    FocusedPane(l, area, k);
    var t := EdgeHasSplit(l.root, area, l.focus, [], Panes(l.root, area, l.focus)[k], nav);
    assert splits[..|splits|] == splits;
    NearestIsFirst(splits, p, nav, |splits|);
    s := FirstAtEdge(splits, p, nav).value;
    assert s.path == [] + s.path;
    EdgeOwner(l.root, area, l.focus, [], k, p, nav, s, s.path);
  }

  /** A positive change makes the focused pane no smaller at an interior edge: both its edges move in the
      direction or stay, it gets no shorter along it and keeps its extent across. A negative change does the
      reverse. */
  lemma InteriorResize(l: Layout, nav: Nav, delta: Float, area: Rect, k: nat)
    requires Inv(l) && FocusAt(l, k)
    requires RectOf(l, area, k).width > 0 && RectOf(l, area, k).height > 0
    requires Edge(RectOf(l, area, k), nav) != Edge(area, nav)
    ensures var was, now := RectOf(l, area, k), RectOf(ResizeFocused(l, nav, delta, area), area, k);
            && (Growing(delta) ==> Pushed(was, now, nav))
            && (Shrinking(delta) ==> Pushed(now, was, nav))
  {
    if delta != NaN {
      var s := InteriorTarget(l, nav, area, k);
      var change := if Backward(nav) then Negate(delta) else delta;
      var ratio := Clamp(Add(s.ratio, change));
      ResizeSetsRatio(l, nav, delta, area, s);
      ClampedSum(s.ratio, change);
      RatioMoves(l, area, s, ratio, k);
      var was, now := RectOf(l, area, k), RectOf(ResizeFocused(l, nav, delta, area), area, k);
      if RatioUp(s.ratio, ratio) { NearMoves(nav, was, now, s.direction); }
      if RatioUp(ratio, s.ratio) { NearMoves(nav, now, was, s.direction); }
    }
  }

  lemma NearMoves(nav: Nav, a: Rect, b: Rect, d: Direction)
    requires SplitsAlong(d, nav) && MovedForward(Near(nav), a, b, d)
    ensures if Backward(nav) then Pushed(b, a, nav) else Pushed(a, b, nav)
  {
    assert nav == if Backward(nav) then Opposite(Forward(d)) else Forward(d);
  }

  /** A pane with an edge on the edge of the area, and a border moved towards that edge: the pane stays, or keeps that
      edge and gets shorter. */
  lemma OuterMoves(nav: Nav, was: Rect, now: Rect, area: Rect, d: Direction, side: Side)
    requires SplitsAlong(d, nav) && Inside(was, area) && Inside(now, area) && Edge(was, nav) == Edge(area, nav)
    requires if Backward(nav) then MovedForward(side, now, was, d) else MovedForward(side, was, now, d)
    ensures now == was || KeepsEdge(was, now, nav)
  {
    assert nav == if Backward(nav) then Opposite(Forward(d)) else Forward(d);
  }

  /** The rectangle was drawn in from its far edge. */
  predicate KeepsEdge(was: Rect, now: Rect, nav: Nav) {
    && Edge(now, nav) == Edge(was, nav) && MainLen(now, nav) < MainLen(was, nav)
    && CrossLo(now, nav) == CrossLo(was, nav) && CrossLen(now, nav) == CrossLen(was, nav)
  }

  /** And a border moved away from that edge: a pane behind it is drawn away from the edge, any other is pushed. */
  lemma OuterDraws(nav: Nav, was: Rect, now: Rect, d: Direction, side: Side)
    requires SplitsAlong(d, nav)
    requires if Backward(nav) then MovedForward(side, was, now, d) else MovedForward(side, now, was, d)
    ensures if side == Near(nav) then Pushed(now, was, nav) else Pushed(was, now, Opposite(nav))
  {
    assert nav == if Backward(nav) then Opposite(Forward(d)) else Forward(d);
  }

  /** A pane on one side of a split lies in that child. */
  lemma {:induction false} SideInside(n: Node, area: Rect, focus: u32, path: Path, k: nat)
    requires RatiosOk(n) && k < |Ids(n)| && At(n, area, path).Some? && At(n, area, path).value.0.Split?
    ensures k < |Panes(n, area, focus)|
    ensures var (at, within) := At(n, area, path).value;
            var (a, b) := SplitRect(within, at.direction, at.ratio);
            var p := Panes(n, area, focus)[k].rect;
            match SideOf(n, path, k)
            case First => Inside(p, a)
            case Second => Inside(p, b)
            case Outside => true
  {
    ChildPanes(n, area, focus, k);
    var m := |Ids(n.first)|;
    var (a, b) := SplitRect(area, n.direction, n.ratio);
    if path == [] {
      PanesInside(n.first, a, focus);
      PanesInside(n.second, b, focus);
    } else if path[0] {
      if k >= m { SideInside(n.second, b, focus, path[1..], k - m); }
    } else if k < m {
      SideInside(n.first, a, focus, path[1..], k);
    }
  }

  /** A border that a pane at the edge of the area lies against is at that edge itself: there is no room behind it. */
  lemma NearAtEdge(l: Layout, area: Rect, s: SplitBorder, nav: Nav, k: nat)
    requires Inv(l) && s in Splits(l.root, area, []) && SplitsAlong(s.direction, nav) && k < |Ids(l.root)|
    requires Edge(RectOf(l, area, k), nav) == Edge(area, nav) && SideOf(l.root, s.path, k) == Near(nav)
    ensures s.pos == Edge(area, nav)
  {
    BorderAt(l.root, area, [], s);
    assert s.path[0..] == s.path;
    SideInside(l.root, area, l.focus, s.path, k);
    BorderInside(l.root, area, [], s);
    SplitRatioOk(l.root, area, [], s);
    SplitRectParts(s.area, s.direction, s.ratio);
  }

  /** At an edge of the whole area a positive change moves a border towards that edge: the focused pane stays, or it
      keeps that edge and gets shorter. A negative change pushes it away from the edge, and it gets no shorter; unless
      it picks a border at the very edge of the area, with nothing behind it, and draws the pane away with that. */
  lemma OuterResize(l: Layout, nav: Nav, delta: Float, area: Rect, k: nat)
    requires Inv(l) && FocusAt(l, k) && Edge(RectOf(l, area, k), nav) == Edge(area, nav)
    ensures var was, now := RectOf(l, area, k), RectOf(ResizeFocused(l, nav, delta, area), area, k);
            var target := ResizeTarget(l, nav, area);
            && (Growing(delta) ==> now == was || KeepsEdge(was, now, nav))
            && (Shrinking(delta) ==>
                  if target.Some? && SideOf(l.root, target.value.path, k) == Near(nav)
                  then target.value.pos == Edge(area, nav) && Pushed(now, was, nav)
                  else Pushed(was, now, Opposite(nav)))
  {
    TargetIsListed(l, nav, area);
    var target := ResizeTarget(l, nav, area);
    if target.Some? {
      var s := target.value;
      var was, now, side := RectOf(l, area, k), RectOf(ResizeFocused(l, nav, delta, area), area, k),
                            SideOf(l.root, s.path, k);
      if Growing(delta) {
        TargetMoves(l, nav, delta, area, k, s);
        OuterMoves(nav, was, now, area, s.direction, side);
      }
      if Shrinking(delta) {
        TargetMoves(l, nav, delta, area, k, s);
        OuterDraws(nav, was, now, s.direction, side);
        if side == Near(nav) { NearAtEdge(l, area, s, nav, k); }
      }
    }
  }

  /** The border that a resize picks moves in the direction for a positive change, and against it for a negative one. */
  lemma TargetMoves(l: Layout, nav: Nav, delta: Float, area: Rect, k: nat, s: SplitBorder)
    requires Inv(l) && FocusAt(l, k) && delta != NaN
    requires ResizeTarget(l, nav, area) == Some(s) && s in Splits(l.root, area, [])
    ensures var was, now := RectOf(l, area, k), RectOf(ResizeFocused(l, nav, delta, area), area, k);
            var side := SideOf(l.root, s.path, k);
            && Inside(was, area) && Inside(now, area)
            && (Growing(delta) ==>
                  if Backward(nav) then MovedForward(side, now, was, s.direction)
                  else MovedForward(side, was, now, s.direction))
            && (Shrinking(delta) ==>
                  if Backward(nav) then MovedForward(side, was, now, s.direction)
                  else MovedForward(side, now, was, s.direction))
  {
    var change := if Backward(nav) then Negate(delta) else delta;
    ResizeSetsRatio(l, nav, delta, area, s);
    ChangeMoves(l, area, k, s, change);
  }

  /** A border moves forward by a positive change of its ratio, and backward by a negative one. */
  lemma ChangeMoves(l: Layout, area: Rect, k: nat, s: SplitBorder, change: Float)
    requires Inv(l) && s in Splits(l.root, area, []) && k < |Ids(l.root)| && change != NaN && RatioOk(s.ratio)
    requires SetRatioAt(l.root, s.path, Clamp(Add(s.ratio, change))).Some?
    ensures var after := l.(root := SetRatioAt(l.root, s.path, Clamp(Add(s.ratio, change))).value);
            var was, now := RectOf(l, area, k), RectOf(after, area, k);
            var side := SideOf(l.root, s.path, k);
            && Inside(was, area) && Inside(now, area)
            && (Growing(change) ==> MovedForward(side, was, now, s.direction))
            && (Shrinking(change) ==> MovedForward(side, now, was, s.direction))
  {
    ClampedSum(s.ratio, change);
    RatioMoves(l, area, s, Clamp(Add(s.ratio, change)), k);
  }

  /** A positive change makes the focused pane shorter exactly when it is for an edge of the whole area and changes the
      pane at all. */
  lemma ShorterExactly(l: Layout, nav: Nav, delta: Float, area: Rect, k: nat)
    requires Inv(l) && FocusAt(l, k) && Growing(delta)
    requires RectOf(l, area, k).width > 0 && RectOf(l, area, k).height > 0
    ensures var was, now := RectOf(l, area, k), RectOf(ResizeFocused(l, nav, delta, area), area, k);
            MainLen(now, nav) < MainLen(was, nav) <==> Edge(was, nav) == Edge(area, nav) && now != was
  {
    if Edge(RectOf(l, area, k), nav) == Edge(area, nav) {
      OuterResize(l, nav, delta, area, k);
    } else {
      InteriorResize(l, nav, delta, area, k);
    }
  }

  /** A pane at the right edge of the area asked to grow to the right gets narrower. */
  lemma OuterShrinks()
    ensures var l := Layout(Split(Horizontal, Num(0.5), Pane(1), Pane(2)), 2, None);
            var area := Rect(0, 0, 10, 4);
            && Inv(l) && FocusAt(l, 1)
            && RectOf(l, area, 1) == Rect(5, 0, 5, 4)
            && RectOf(ResizeFocused(l, Right, Num(0.1), area), area, 1) == Rect(6, 0, 4, 4)
  {
    var l := Layout(Split(Horizontal, Num(0.5), Pane(1), Pane(2)), 2, None);
    var area := Rect(0, 0, 10, 4);
    var s := SplitBorder(5, Horizontal, Num(0.5), area, []);
    assert Panes(l.root, area, 2) == [PaneInfo(1, Rect(0, 0, 5, 4), false), PaneInfo(2, Rect(5, 0, 5, 4), true)];
    assert Splits(l.root, area, []) == [s];
    FocusedPane(l, area, 1);
    assert !Movable(s, Rect(5, 0, 5, 4), Right) && Movable(s, Rect(5, 0, 5, 4), Left);
    assert NearestOf([s], Rect(5, 0, 5, 4), Right, 0) == None == NearestOf([s], Rect(5, 0, 5, 4), Left, 0);
    var after := ResizeFocused(l, Right, Num(0.1), area);
    assert after.root == Split(Horizontal, Num(0.6), Pane(1), Pane(2));
    assert Panes(after.root, area, 2) == [PaneInfo(1, Rect(0, 0, 6, 4), false), PaneInfo(2, Rect(6, 0, 4, 4), true)];
  }

  /** Three columns shared out nine to one, and eight to two. */
  lemma DrawnLengths()
    ensures FirstLength(3, Num(0.9)) == 3 && FirstLength(3, Num(0.8)) == 2
    ensures Clamp(Add(Num(0.9), Num(-0.1))) == Num(0.8)
  {
    assert (3 as real * 0.9 + 0.5).Floor == 3;
    assert (3 as real * 0.8 + 0.5).Floor == 2;
  }

  lemma TwoColumns(area: Rect, ratio: Float, a: Rect, b: Rect)
    requires (a, b) == SplitRect(area, Horizontal, ratio)
    ensures var root := Split(Horizontal, ratio, Pane(1), Pane(2));
            && Panes(root, area, 1) == [PaneInfo(1, a, true), PaneInfo(2, b, false)]
            && Splits(root, area, []) == [SplitBorder(a.x + a.width, Horizontal, ratio, area, [])]
  {
    assert Panes(Pane(1), a, 1) == [PaneInfo(1, a, true)] && Panes(Pane(2), b, 1) == [PaneInfo(2, b, false)];
    assert Splits(Pane(1), a, [] + [false]) == [] == Splits(Pane(2), b, [] + [true]);
  }

  /** A pane at the right edge of the area, with nothing left behind its border, is asked to shrink there and does. */
  lemma OuterDrawn()
    ensures var l := Layout(Split(Horizontal, Num(0.9), Pane(1), Pane(2)), 1, None);
            var area := Rect(0, 0, 3, 4);
            && Inv(l) && FocusAt(l, 0)
            && RectOf(l, area, 0) == Rect(0, 0, 3, 4)
            && RectOf(ResizeFocused(l, Right, Num(-0.1), area), area, 0) == Rect(0, 0, 2, 4)
  {
    var l := Layout(Split(Horizontal, Num(0.9), Pane(1), Pane(2)), 1, None);
    var area := Rect(0, 0, 3, 4);
    DrawnLengths();
    TwoColumns(area, Num(0.9), Rect(0, 0, 3, 4), Rect(3, 0, 0, 4));
    TwoColumns(area, Num(0.8), Rect(0, 0, 2, 4), Rect(2, 0, 1, 4));
    FocusedPane(l, area, 0);
    var s := SplitBorder(3, Horizontal, Num(0.9), area, []);
    assert Movable(s, Rect(0, 0, 3, 4), Right);
    assert NearestOf([s], Rect(0, 0, 3, 4), Right, 0) == None;
    ResizeSetsRatio(l, Right, Num(-0.1), area, s);
  }
}
