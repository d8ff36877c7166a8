/** The tiling layout as the program keeps it: a tree, the focused pane, and the pane focus came from. */
module TileLayout {
  import opened Prelude
  import opened LayoutTree
  import opened LayoutGeometry
  import opened LayoutNavigation

  datatype Layout = Layout(root: Node, focus: u32, prev: Option<u32>)

  /** What every operation keeps. */
  ghost predicate Inv(l: Layout) {
    && Distinct(Ids(l.root)) && RatiosOk(l.root)
    && l.focus in Ids(l.root)
    && (l.prev.Some? ==> l.prev.value in Ids(l.root) && l.prev.value != l.focus)
  }

  // --- Operations on values ---

  function SetFocus(l: Layout, id: u32): Layout {
    if id == l.focus then l else l.(focus := id, prev := Some(l.focus))
  }

  function SplitPane(l: Layout, target: u32, direction: Direction, ratio: Float, newId: u32): (Layout, Option<u32>) {
    if target !in Ids(l.root) then (l, None)
    else (l.(root := SplitAt(l.root, target, direction, newId, ValidSplitRatio(ratio))), Some(newId))
  }

  function InsertPaneNear(l: Layout, target: u32, moved: u32, direction: Direction, ratio: Float, focus: bool)
      : (Layout, bool)
  {
    if target == moved || target !in Ids(l.root) || moved in Ids(l.root) then (l, false)
    else
      var inserted := l.(root := SplitAt(l.root, target, direction, moved, ValidSplitRatio(ratio)));
      (if focus then SetFocus(inserted, moved) else inserted, true)
  }

  /** Closing the focused pane looks the focus up in the tree, and panics when it is not there. */
  predicate CanClose(l: Layout) {
    CountPanes(l.root) <= 1 || l.focus in Ids(l.root)
  }

  function IndexOf(ids: seq<u32>, id: u32): (i: nat)
    requires id in ids
    ensures i < |ids| && ids[i] == id && id !in ids[..i]
  {
    if ids[0] == id then 0 else
      assert ids == [ids[0]] + ids[1..];
      var i := IndexOf(ids[1..], id);
      assert ids[..i + 1] == [ids[0]] + ids[1..][..i];
      i + 1
  }

  /** The pane after the focused one, or the one before when it is last. */
  function Ordered(ids: seq<u32>, id: u32): u32
    requires id in ids && |ids| > 1
  {
    var pos := IndexOf(ids, id);
    if pos + 1 < |ids| then ids[pos + 1] else ids[pos - 1]
  }

  function FocusAfterClose(l: Layout): u32
    requires l.focus in Ids(l.root) && |Ids(l.root)| > 1
  {
    if l.prev.Some? && l.prev.value != l.focus && l.prev.value in Ids(l.root) then l.prev.value
    else Ordered(Ids(l.root), l.focus)
  }

  /** The tree is taken out before the pane is removed from it; when nothing would be left the placeholder stays. */
  const PLACEHOLDER := Pane(0)

  function CloseFocused(l: Layout): (Layout, bool)
    requires CanClose(l)
  {
    CountIsIds(l.root);
    if CountPanes(l.root) <= 1 then (l, false)
    else
      var left := RemovePane(l.root, l.focus);
      if left.None? then (l.(root := PLACEHOLDER), false)
      else (Layout(left.value, FocusAfterClose(l), None), true)
  }

  function ClosePane(l: Layout, id: u32): (Layout, bool)
    requires l.focus == id ==> CanClose(l)
  {
    if l.focus == id then CloseFocused(l)
    else if CountPanes(l.root) <= 1 || id !in Ids(l.root) then (l, false)
    else
      var left := RemovePane(l.root, id);
      if left.None? then (l.(root := PLACEHOLDER), false)
      else (l.(root := left.value, prev := if l.prev == Some(id) then None else l.prev), true)
  }

  function FocusPane(l: Layout, id: u32): Layout {
    if id in Ids(l.root) then SetFocus(l, id) else l
  }

  function SwapPanes(l: Layout, a: u32, b: u32): (Layout, bool) {
    if a == b || a !in Ids(l.root) || b !in Ids(l.root) then (l, false)
    else (l.(root := SwapIds(l.root, a, b)), true)
  }

  function SetRatio(l: Layout, path: Path, ratio: Float): (Layout, bool) {
    var root := SetRatioAt(l.root, path, Clamp(ratio));
    if root.Some? then (l.(root := root.value), true) else (l, false)
  }

  function FirstFocused(panes: seq<PaneInfo>): Option<PaneInfo> {
    if panes == [] then None else if panes[0].focused then Some(panes[0]) else FirstFocused(panes[1..])
  }

  /** The split a resize moves: one at the edge in the direction, else one at the opposite edge. */
  function ResizeTarget(l: Layout, nav: Nav, area: Rect): Option<SplitBorder> {
    var focused := FirstFocused(Panes(l.root, area, l.focus));
    var splits := Splits(l.root, area, []);
    if focused.None? then None
    else
      var near := NearestResizeSplit(splits, focused.value.rect, nav);
      if near.Some? then near else NearestResizeSplit(splits, focused.value.rect, Opposite(nav))
  }

  function ResizedRatio(l: Layout, path: Path, nav: Nav, delta: Float): Float {
    var current := GetRatioAt(l.root, path);
    Add(if current.Some? then current.value else Num(0.5), if Backward(nav) then Negate(delta) else delta)
  }

  function ResizeFocused(l: Layout, nav: Nav, delta: Float, area: Rect): Layout {
    var split := ResizeTarget(l, nav, area);
    if split.None? then l
    else SetRatio(l, split.value.path, ResizedRatio(l, split.value.path, nav, delta)).0
  }

  /** Equality of two lists of ratios, number by number. */
  predicate SameRatios(a: seq<(Path, Float)>, b: seq<(Path, Float)>) {
    |a| == |b| && forall i :: 0 <= i < |a| ==> a[i].0 == b[i].0 && FloatEq(a[i].1, b[i].1)
  }

  function ResizePane(l: Layout, id: u32, nav: Nav, delta: Float, area: Rect): (Layout, bool) {
    if id !in Ids(l.root) then (l, false)
    else
      var resized := ResizeFocused(l.(focus := id), nav, delta, area).(focus := l.focus);
      (resized, !SameRatios(SplitRatios(resized.root, []), SplitRatios(l.root, [])))
  }

  // --- The class ---

  class TileLayout {
    var root: Node
    var focus: u32
    var prevFocus: Option<u32>

    function State(): Layout
      reads this
    {
      Layout(root, focus, prevFocus)
    }

    constructor (id: u32)
      ensures State() == Layout(Pane(id), id, None)
    {
      root, focus, prevFocus := Pane(id), id, None;
    }

    constructor FromSaved(saved: Node, focused: u32)
      ensures State() == Layout(saved, focused, None)
    {
      root, focus, prevFocus := saved, focused, None;
    }

    method SetFocusTo(id: u32)
      modifies `focus, `prevFocus
      ensures State() == SetFocus(old(State()), id)
    {
      if id != focus {
        prevFocus := Some(focus);
        focus := id;
      }
    }

    /** `newId` is the id that the allocator would hand out. */
    method Split(target: u32, direction: Direction, ratio: Float, newId: u32) returns (created: Option<u32>)
      modifies `root
      ensures (State(), created) == SplitPane(old(State()), target, direction, ratio, newId)
    {
      if target !in Ids(root) {
        return None;
      }
      var whole := root;
      root := PLACEHOLDER;
      root := SplitAt(whole, target, direction, newId, ValidSplitRatio(ratio));
      created := Some(newId);
    }

    method Insert(target: u32, moved: u32, direction: Direction, ratio: Float, focused: bool) returns (ok: bool)
      modifies this
      ensures (State(), ok) == InsertPaneNear(old(State()), target, moved, direction, ratio, focused)
    {
      if target == moved {
        return false;
      }
      var ids := Ids(root);
      if target !in ids || moved in ids {
        return false;
      }
      var whole := root;
      root := PLACEHOLDER;
      root := SplitAt(whole, target, direction, moved, ValidSplitRatio(ratio));
      if focused { SetFocusTo(moved); }
      ok := true;
    }

    method CloseTheFocused() returns (ok: bool)
      requires CanClose(State())
      modifies this
      ensures (State(), ok) == CloseFocused(old(State()))
    {
      CountIsIds(root);
      if CountPanes(root) <= 1 {
        return false;
      }
      var target, ids := focus, Ids(root);
      var pos := IndexOf(ids, target);
      var ordered := if pos + 1 < |ids| then ids[pos + 1] else ids[pos - 1];
      var newFocus := ordered;
      if prevFocus.Some? && prevFocus.value != target && prevFocus.value in ids {
        newFocus := prevFocus.value;
      }
      var whole := root;
      root := PLACEHOLDER;
      var left := RemovePane(whole, target);
      if left.None? {
        return false;
      }
      root, focus, prevFocus := left.value, newFocus, None;
      ok := true;
    }

    method Close(id: u32) returns (ok: bool)
      requires focus == id ==> CanClose(State())
      modifies this
      ensures (State(), ok) == ClosePane(old(State()), id)
    {
      if focus == id {
        ok := CloseTheFocused();
        return;
      }
      if CountPanes(root) <= 1 || id !in Ids(root) {
        return false;
      }
      var whole := root;
      root := PLACEHOLDER;
      var left := RemovePane(whole, id);
      if left.None? {
        return false;
      }
      root := left.value;
      if prevFocus == Some(id) { prevFocus := None; }
      ok := true;
    }

    method Focus(id: u32)
      modifies `focus, `prevFocus
      ensures State() == FocusPane(old(State()), id)
    {
      if id in Ids(root) { SetFocusTo(id); }
    }

    method Swap(a: u32, b: u32) returns (ok: bool)
      modifies `root
      ensures (State(), ok) == SwapPanes(old(State()), a, b)
    {
      if a == b || a !in Ids(root) || b !in Ids(root) {
        return false;
      }
      root := SwapIds(root, a, b);
      ok := true;
    }

    method SetRatioOf(path: Path, ratio: Float) returns (ok: bool)
      modifies `root
      ensures (State(), ok) == SetRatio(old(State()), path, ratio)
    {
      var changed := SetRatioAt(root, path, Clamp(ratio));
      if changed.None? {
        return false;
      }
      root := changed.value;
      ok := true;
    }

    method Resize(nav: Nav, delta: Float, area: Rect)
      modifies `root
      ensures State() == ResizeFocused(old(State()), nav, delta, area)
    {
      var focused := FirstFocused(Panes(root, area, focus));
      if focused.None? {
        return;
      }
      var splits := Splits(root, area, []);
      var best := NearestResizeSplit(splits, focused.value.rect, nav);
      if best.None? {
        best := NearestResizeSplit(splits, focused.value.rect, Opposite(nav));
      }
      if best.Some? {
        var path := best.value.path;
        var current := GetRatioAt(root, path);
        var ratio := if current.Some? then current.value else Num(0.5);
        var adjust := if Backward(nav) then Negate(delta) else delta;
        var _ := SetRatioOf(path, Add(ratio, adjust));
      }
    }

    /** Resizes through a focus that it puts back. */
    method ResizeOther(id: u32, nav: Nav, delta: Float, area: Rect) returns (changed: bool)
      modifies `root, `focus
      ensures (State(), changed) == ResizePane(old(State()), id, nav, delta, area)
    {
      if id !in Ids(root) {
        return false;
      }
      var before, previous := SplitRatios(root, []), focus;
      focus := id;
      Resize(nav, delta, area);
      focus := previous;
      changed := !SameRatios(SplitRatios(root, []), before);
    }
  }

  // --- Leaves under edits ---

  lemma {:induction false} InsertedDistinct(ids: seq<u32>, target: u32, newId: u32)
    requires newId !in ids && Distinct(ids)
    ensures Distinct(Inserted(ids, target, newId))
    ensures forall x :: x in Inserted(ids, target, newId) <==> x in ids || (x == newId && target in ids)
    ensures |Inserted(ids, target, newId)| == |ids| + if target in ids then 1 else 0
  {
    if ids != [] {
      var rest := ids[1..];
      assert ids == [ids[0]] + rest && ids[0] !in rest;
      InsertedDistinct(rest, target, newId);
    }
  }

  lemma {:induction false} RemovedDistinct(ids: seq<u32>, target: u32)
    requires Distinct(ids)
    ensures Distinct(Removed(ids, target))
    ensures forall x :: x in Removed(ids, target) <==> x in ids && x != target
    ensures |Removed(ids, target)| == |ids| - if target in ids then 1 else 0
  {
    if ids != [] {
      var rest := ids[1..];
      assert ids == [ids[0]] + rest && ids[0] !in rest;
      RemovedDistinct(rest, target);
    }
  }

  /** Closing takes exactly the closed pane out of the list of panes. It is refused for the last pane only, and
      for a pane that is not there. */
  lemma CloseRemovesOne(l: Layout, id: u32)
    requires Inv(l)
    ensures var (after, ok) := ClosePane(l, id);
            && ok == (CountPanes(l.root) > 1 && id in Ids(l.root))
            && (if ok then Ids(after.root) == Removed(Ids(l.root), id)
                && CountPanes(after.root) == CountPanes(l.root) - 1
                else after == l)
  {
    var (after, ok) := ClosePane(l, id);
    CountIsIds(l.root);
    CountIsIds(after.root);
    RemovePaneIds(l.root, id);
    RemovedDistinct(Ids(l.root), id);
  }

  /** Closing the focused pane goes back to where focus came from, else to a neighbour in order. Closing another
      pane leaves focus where it is and forgets only a history that named that pane. */
  lemma CloseFocus(l: Layout, id: u32)
    requires Inv(l) && CountPanes(l.root) > 1 && id in Ids(l.root)
    ensures var after := ClosePane(l, id).0;
            if id == l.focus then
              && after.prev == None
              && (l.prev.Some? ==> after.focus == l.prev.value)
              && (l.prev.None? ==> forall i :: 0 <= i < |Ids(l.root)| && Ids(l.root)[i] == id ==>
                    after.focus == Ids(l.root)[if i + 1 < |Ids(l.root)| then i + 1 else i - 1])
            else
              after.focus == l.focus && after.prev == (if l.prev == Some(id) then None else l.prev)
  {
    CountIsIds(l.root);
    RemovePaneIds(l.root, id);
    RemovedDistinct(Ids(l.root), id);
  }

  lemma OrderedIsAnother(ids: seq<u32>, id: u32)
    requires Distinct(ids) && id in ids && |ids| > 1
    ensures Ordered(ids, id) in ids && Ordered(ids, id) != id
  {
  }

  lemma CloseKeeps(l: Layout, id: u32)
    requires Inv(l)
    ensures Inv(ClosePane(l, id).0)
  {
    CloseRemovesOne(l, id);
    if CountPanes(l.root) > 1 && id in Ids(l.root) {
      CountIsIds(l.root);
      CloseFocus(l, id);
      RemovePaneIds(l.root, id);
      RemovedDistinct(Ids(l.root), id);
      OrderedIsAnother(Ids(l.root), l.focus);
    }
  }

  lemma SplitKeeps(l: Layout, target: u32, direction: Direction, ratio: Float, newId: u32)
    requires Inv(l) && newId !in Ids(l.root)
    ensures Inv(l.(root := SplitAt(l.root, target, direction, newId, ValidSplitRatio(ratio))))
    ensures target in Ids(l.root) ==> newId in Ids(SplitAt(l.root, target, direction, newId, ValidSplitRatio(ratio)))
  {
    SplitAtIds(l.root, target, direction, newId, ValidSplitRatio(ratio));
    InsertedDistinct(Ids(l.root), target, newId);
  }

  lemma SwapKeeps(l: Layout, a: u32, b: u32)
    requires Inv(l)
    ensures Inv(SwapPanes(l, a, b).0)
  {
    if a != b && a in Ids(l.root) && b in Ids(l.root) {
      SwapIdsAt(l.root, a, b);
      var was, ids := Ids(l.root), Ids(SwapIds(l.root, a, b));
      forall x | x in was ensures x in ids {
        var i := IndexOf(was, Swapped(x, a, b));
        assert ids[i] == x;
      }
    }
  }

  lemma SetRatioKeeps(l: Layout, path: Path, ratio: Float)
    requires Inv(l)
    ensures Inv(SetRatio(l, path, ratio).0)
  {
    SetRatioAtChanges(l.root, path, Clamp(ratio));
  }

  // --- Rollback ---

  /** A split whose pane could not be started is undone without a trace: closing the new pane gives back the whole
      layout, with its ratios, focus and focus history. */
  lemma SplitRollback(l: Layout, target: u32, direction: Direction, ratio: Float, newId: u32)
    requires Inv(l) && target in Ids(l.root) && newId !in Ids(l.root)
    ensures ClosePane(SplitPane(l, target, direction, ratio, newId).0, newId) == (l, true)
  {
    Undo(l, target, direction, ValidSplitRatio(ratio), newId);
  }

  /** So is an insertion that did not take the focus. */
  lemma InsertRollback(l: Layout, target: u32, moved: u32, direction: Direction, ratio: Float)
    requires Inv(l) && InsertPaneNear(l, target, moved, direction, ratio, false).1
    ensures ClosePane(InsertPaneNear(l, target, moved, direction, ratio, false).0, moved) == (l, true)
  {
    Undo(l, target, direction, ValidSplitRatio(ratio), moved);
  }

  /** A focused insertion is undone but for the history: focus comes back, and what it had come from is forgotten. */
  lemma FocusedInsertRollback(l: Layout, target: u32, moved: u32, direction: Direction, ratio: Float)
    requires Inv(l) && InsertPaneNear(l, target, moved, direction, ratio, true).1
    ensures CanClose(InsertPaneNear(l, target, moved, direction, ratio, true).0)
    ensures ClosePane(InsertPaneNear(l, target, moved, direction, ratio, true).0, moved) == (l.(prev := None), true)
  {
    Undo(l, target, direction, ValidSplitRatio(ratio), moved);
    var inserted := InsertPaneNear(l, target, moved, direction, ratio, true).0;
    SplitKeeps(l, target, direction, ratio, moved);
    SplitAtIds(l.root, target, direction, moved, ValidSplitRatio(ratio));
    InsertedDistinct(Ids(l.root), target, moved);
    assert l.focus in Ids(inserted.root);
  }

  lemma Undo(l: Layout, target: u32, direction: Direction, ratio: Float, newId: u32)
    requires Inv(l) && target in Ids(l.root) && newId !in Ids(l.root)
    ensures var split := l.(root := SplitAt(l.root, target, direction, newId, ratio));
            && ClosePane(split, newId) == (l, true)
            && RemovePane(split.root, newId) == Some(l.root) && CountPanes(split.root) > 1
  {
    var split := SplitAt(l.root, target, direction, newId, ratio);
    SplitThenRemove(l.root, target, direction, newId, ratio);
    SplitAtIds(l.root, target, direction, newId, ratio);
    InsertedDistinct(Ids(l.root), target, newId);
    CountIsIds(split);
  }

  // --- Resizing keeps everything but one ratio ---

  /** A resize keeps the panes, their places in the tree, the focus and its history. */
  lemma ResizeKeepsShape(l: Layout, nav: Nav, delta: Float, area: Rect)
    ensures var after := ResizeFocused(l, nav, delta, area);
            && SameShape(l.root, after.root) && Ids(after.root) == Ids(l.root)
            && after.focus == l.focus && after.prev == l.prev
            && (RatiosOk(l.root) ==> RatiosOk(after.root))
  {
    SameShapeReflexive(l.root);
    var split := ResizeTarget(l, nav, area);
    if split.Some? {
      var path, ratio := split.value.path, Clamp(ResizedRatio(l, split.value.path, nav, delta));
      SetRatioAtChanges(l.root, path, ratio);
      if SetRatioAt(l.root, path, ratio).Some? { SetRatioAtShape(l.root, path, ratio); }
    }
  }

  predicate HasNaN(n: Node) {
    n.Split? && (n.ratio == NaN || HasNaN(n.first) || HasNaN(n.second))
  }

  /** Two trees of one shape list the same ratios exactly when they are one tree without a NaN. */
  lemma {:induction false} SameRatiosSameTree(a: Node, b: Node, path: Path)
    requires SameShape(a, b)
    ensures |SplitRatios(a, path)| == |SplitRatios(b, path)|
    ensures SameRatios(SplitRatios(a, path), SplitRatios(b, path)) <==> a == b && !HasNaN(a)
  {
    if a.Split? {
      SameRatiosSameTree(a.first, b.first, path + [false]);
      SameRatiosSameTree(a.second, b.second, path + [true]);
      var f, s := SplitRatios(a.first, path + [false]), SplitRatios(a.second, path + [true]);
      var g, t := SplitRatios(b.first, path + [false]), SplitRatios(b.second, path + [true]);
      var x, y := [(path, a.ratio)], [(path, b.ratio)];
      SameRatiosConcat(x, f, y, g);
      SameRatiosConcat(x + f, s, y + g, t);
      assert SameRatios(x, y) <==> FloatEq(x[0].1, y[0].1);
    }
  }

  lemma SameRatiosConcat(a: seq<(Path, Float)>, b: seq<(Path, Float)>, c: seq<(Path, Float)>, d: seq<(Path, Float)>)
    requires |a| == |c| && |b| == |d|
    ensures SameRatios(a + b, c + d) <==> SameRatios(a, c) && SameRatios(b, d)
  {
    if SameRatios(a + b, c + d) {
      forall i | 0 <= i < |a| ensures a[i].0 == c[i].0 && FloatEq(a[i].1, c[i].1) {
        assert (a + b)[i] == a[i] && (c + d)[i] == c[i];
      }
      forall i | 0 <= i < |b| ensures b[i].0 == d[i].0 && FloatEq(b[i].1, d[i].1) {
        assert (a + b)[|a| + i] == b[i] && (c + d)[|c| + i] == d[i];
      }
    }
  }

  /** What a resize of any pane reports: a change, or a NaN somewhere in the tree, which never equals itself. */
  lemma ResizeReportsChange(l: Layout, id: u32, nav: Nav, delta: Float, area: Rect)
    ensures var (after, changed) := ResizePane(l, id, nav, delta, area);
            && after.focus == l.focus && after.prev == l.prev && SameShape(l.root, after.root)
            && changed == (id in Ids(l.root) && (after != l || HasNaN(l.root)))
  {
    SameShapeReflexive(l.root);
    if id in Ids(l.root) {
      ResizeKeepsShape(l.(focus := id), nav, delta, area);
      var after := ResizePane(l, id, nav, delta, area).0;
      SameShapeSymmetric(l.root, after.root);
      SameRatiosSameTree(after.root, l.root, []);
    }
  }

  /** Two panes side by side whose ratio a caller set to a NaN: there is nothing to resize upwards, the layout stays as
      it is, and a change is reported. */
  lemma NaNReportsChange(delta: Float, area: Rect)
    ensures var (l, ok) := SetRatio(Layout(Split(Horizontal, Num(0.5), Pane(1), Pane(2)), 1, None), [], NaN);
            ok && ResizePane(l, 1, Up, delta, area) == (l, true)
  {
    var l := Layout(Split(Horizontal, NaN, Pane(1), Pane(2)), 1, None);
    var splits := Splits(l.root, area, []);
    var (a, b) := SplitRect(area, Horizontal, NaN);
    assert Splits(Pane(1), a, [false]) == [] == Splits(Pane(2), b, [true]);
    assert [false] == [] + [false] && [true] == [] + [true];
    assert |splits| == 1 && splits[0].direction == Horizontal;
    forall focused: Rect, nav | nav == Up || nav == Down ensures NearestResizeSplit(splits, focused, nav) == None {
      assert !Movable(splits[0], focused, nav);
      assert NearestOf(splits, focused, nav, 0) == None;
    }
    assert ResizeFocused(l, Up, delta, area) == l;
    ResizeReportsChange(l, 1, Up, delta, area);
  }

  lemma {:induction false} SameShapeSymmetric(a: Node, b: Node)
    requires SameShape(a, b)
    ensures SameShape(b, a)
  {
    if a.Split? {
      SameShapeSymmetric(a.first, b.first);
      SameShapeSymmetric(a.second, b.second);
    }
  }

  // --- Every run ---

  datatype Op =
    | Splitting(target: u32, direction: Direction, ratio: Float, newId: u32)
    | Inserting(target: u32, moved: u32, direction: Direction, ratio: Float, focus: bool)
    | ClosingFocused
    | Closing(id: u32)
    | Focusing(id: u32)
    | Swapping(a: u32, b: u32)
    | SettingRatio(path: Path, ratio: Float)
    | Resizing(nav: Nav, delta: Float, area: Rect)
    | ResizingOther(id: u32, nav: Nav, delta: Float, area: Rect)

  /** The allocator hands out ids that no pane has. */
  predicate Fresh(l: Layout, op: Op) {
    op.Splitting? ==> op.newId !in Ids(l.root)
  }

  /** The layout after an operation, or None when the operation panics. */
  function Step(l: Layout, op: Op): Option<Layout> {
    match op
    case Splitting(target, direction, ratio, newId) => Some(SplitPane(l, target, direction, ratio, newId).0)
    case Inserting(target, moved, direction, ratio, focus) =>
      Some(InsertPaneNear(l, target, moved, direction, ratio, focus).0)
    case ClosingFocused => if CanClose(l) then Some(CloseFocused(l).0) else None
    case Closing(id) => if l.focus == id && !CanClose(l) then None else Some(ClosePane(l, id).0)
    case Focusing(id) => Some(FocusPane(l, id))
    case Swapping(a, b) => Some(SwapPanes(l, a, b).0)
    case SettingRatio(path, ratio) => Some(SetRatio(l, path, ratio).0)
    case Resizing(nav, delta, area) => Some(ResizeFocused(l, nav, delta, area))
    case ResizingOther(id, nav, delta, area) => Some(ResizePane(l, id, nav, delta, area).0)
  }

  /** No operation panics on a layout that meets the invariant, and every operation keeps it. */
  lemma StepKeeps(l: Layout, op: Op)
    requires Inv(l) && Fresh(l, op)
    ensures Step(l, op).Some? && Inv(Step(l, op).value)
  {
    match op
    case Splitting(target, direction, ratio, newId) => SplitKeeps(l, target, direction, ratio, newId);
    case Inserting(target, moved, direction, ratio, focus) =>
      if InsertPaneNear(l, target, moved, direction, ratio, focus).1 { SplitKeeps(l, target, direction, ratio, moved); }
    case ClosingFocused => CloseKeeps(l, l.focus);
    case Closing(id) => CloseKeeps(l, id);
    case Focusing(id) =>
    case Swapping(a, b) => SwapKeeps(l, a, b);
    case SettingRatio(path, ratio) => SetRatioKeeps(l, path, ratio);
    case Resizing(nav, delta, area) => ResizeKeepsShape(l, nav, delta, area);
    case ResizingOther(id, nav, delta, area) =>
      if id in Ids(l.root) { ResizeKeepsShape(l.(focus := id), nav, delta, area); }
  }

  /** `end` is the layout after a run, or None when an operation panicked; an allocated id is fresh where it is used. */
  ghost predicate Runs(l: Layout, ops: seq<Op>, end: Option<Layout>)
    decreases |ops|
  {
    if ops == [] then end == Some(l)
    else
      && Fresh(l, ops[0])
      && if Step(l, ops[0]).None? then end == None else Runs(Step(l, ops[0]).value, ops[1..], end)
  }

  /** Over every run from a new layout: no panic, pane ids distinct, focus on a pane, a history that names another
      pane, and panes that tile any area exactly. */
  lemma {:induction false} EveryRun(l: Layout, ops: seq<Op>, end: Option<Layout>)
    requires Inv(l) && Runs(l, ops, end)
    decreases |ops|
    ensures end.Some? && Inv(end.value)
  {
    if ops != [] {
      StepKeeps(l, ops[0]);
      EveryRun(Step(l, ops[0]).value, ops[1..], end);
    }
  }

  lemma EveryRunTiles(id: u32, ops: seq<Op>, end: Layout, area: Rect, x: nat, y: nat)
    requires Runs(Layout(Pane(id), id, None), ops, Some(end))
    ensures Inv(end)
    ensures Covering(Panes(end.root, area, end.focus), x, y) == if Has(area, x, y) then 1 else 0
    ensures forall i :: 0 <= i < |Panes(end.root, area, end.focus)| ==>
            Inside(Panes(end.root, area, end.focus)[i].rect, area)
  {
    EveryRun(Layout(Pane(id), id, None), ops, Some(end));
    ExactTiling(end.root, area, end.focus, x, y);
    PanesInside(end.root, area, end.focus);
  }
}
