/** The binary tree of splits behind a tiling layout, and the edits the layout makes to it. */
module LayoutTree {
  import opened Prelude

  // --- Ratios ---

  /** A floating-point number, with its special values but without rounding. */
  datatype Float = Num(r: real) | PosInf | NegInf | NaN

  function Add(a: Float, b: Float): Float {
    match (a, b)
    case (Num(x), Num(y)) => Num(x + y)
    case (NaN, _) => NaN
    case (_, NaN) => NaN
    case (PosInf, NegInf) => NaN
    case (NegInf, PosInf) => NaN
    case (PosInf, _) => PosInf
    case (NegInf, _) => NegInf
    case (_, PosInf) => PosInf
    case (_, NegInf) => NegInf
  }

  function Negate(a: Float): Float {
    match a
    case Num(x) => Num(-x)
    case PosInf => NegInf
    case NegInf => PosInf
    case NaN => NaN
  }

  /** Equality of numbers: NaN differs from itself. */
  predicate FloatEq(a: Float, b: Float) {
    a == b && a != NaN
  }

  /** `clamp(0.1, 0.9)`: infinities go to a bound, NaN stays NaN. */
  function Clamp(f: Float): Float {
    match f
    case Num(x) => if x < 0.1 then Num(0.1) else if x > 0.9 then Num(0.9) else f
    case PosInf => Num(0.9)
    case NegInf => Num(0.1)
    case NaN => NaN
  }

  function ValidSplitRatio(f: Float): Float {
    if f.Num? then Clamp(f) else Num(0.5)
  }

  /** What a stored ratio can be: within bounds, or NaN when a caller set it so. */
  predicate RatioOk(f: Float) {
    f == NaN || (f.Num? && 0.1 <= f.r <= 0.9)
  }

  // --- The tree ---

  datatype Direction = Horizontal | Vertical

  datatype Node =
    | Pane(id: u32)
    | Split(direction: Direction, ratio: Float, first: Node, second: Node)

  function CountPanes(n: Node): nat {
    match n
    case Pane(_) => 1
    case Split(_, _, first, second) => CountPanes(first) + CountPanes(second)
  }

  /** Pane ids from first to last. */
  function Ids(n: Node): (ids: seq<u32>)
    ensures |ids| > 0
  {
    match n
    case Pane(id) => [id]
    case Split(_, _, first, second) => Ids(first) + Ids(second)
  }

  function SplitAt(n: Node, target: u32, direction: Direction, newId: u32, ratio: Float): Node {
    match n
    case Pane(id) => if id == target then Split(direction, ratio, n, Pane(newId)) else n
    case Split(d, r, first, second) =>
      Split(d, r, SplitAt(first, target, direction, newId, ratio), SplitAt(second, target, direction, newId, ratio))
  }

  function RemovePane(n: Node, target: u32): Option<Node> {
    match n
    case Pane(id) => if id == target then None else Some(n)
    case Split(d, r, first, second) =>
      match (RemovePane(first, target), RemovePane(second, target))
      case (None, s) => s
      case (f, None) => f
      case (Some(f), Some(s)) => Some(Split(d, r, f, s))
  }

  function SwapIds(n: Node, a: u32, b: u32): Node {
    match n
    case Pane(id) => if id == a then Pane(b) else if id == b then Pane(a) else n
    case Split(d, r, first, second) => Split(d, r, SwapIds(first, a, b), SwapIds(second, a, b))
  }

  /** A path from the root: false goes to the first child, true to the second. */
  type Path = seq<bool>

  function GetRatioAt(n: Node, path: Path): Option<Float> {
    match n
    case Pane(_) => None
    case Split(_, r, first, second) =>
      if path == [] then Some(r) else GetRatioAt(if path[0] then second else first, path[1..])
  }

  /** The tree with the ratio at `path` replaced, or None when no split is there. */
  function SetRatioAt(n: Node, path: Path, ratio: Float): Option<Node> {
    match n
    case Pane(_) => None
    case Split(d, r, first, second) =>
      if path == [] then Some(n.(ratio := ratio))
      else if path[0] then
        var s := SetRatioAt(second, path[1..], ratio);
        if s.Some? then Some(n.(second := s.value)) else None
      else
        var f := SetRatioAt(first, path[1..], ratio);
        if f.Some? then Some(n.(first := f.value)) else None
  }

  /** Every split with its path and ratio, parents first. */
  function SplitRatios(n: Node, path: Path): seq<(Path, Float)> {
    match n
    case Pane(_) => []
    case Split(_, r, first, second) =>
      [(path, r)] + SplitRatios(first, path + [false]) + SplitRatios(second, path + [true])
  }

  predicate RatiosOk(n: Node) {
    n.Split? ==> RatioOk(n.ratio) && RatiosOk(n.first) && RatiosOk(n.second)
  }

  // --- Edits ---

  predicate Distinct(ids: seq<u32>) {
    forall i, j :: 0 <= i < j < |ids| ==> ids[i] != ids[j]
  }

  /** The ids of `n` with every `target` followed by `newId`. */
  function Inserted(ids: seq<u32>, target: u32, newId: u32): seq<u32> {
    if ids == [] then [] else WithNew(ids[0], target, newId) + Inserted(ids[1..], target, newId)
  }

  /** The ids other than `target`, in order. */
  function Removed(ids: seq<u32>, target: u32): seq<u32> {
    if ids == [] then [] else Without(ids[0], target) + Removed(ids[1..], target)
  }

  function WithNew(id: u32, target: u32, newId: u32): seq<u32> {
    if id == target then [target, newId] else [id]
  }

  function Without(id: u32, target: u32): seq<u32> {
    if id == target then [] else [id]
  }

  lemma Associate(a: seq<u32>, b: seq<u32>, c: seq<u32>)
    ensures (a + b) + c == a + (b + c)
  {
  }

  lemma {:induction false} InsertedConcat(a: seq<u32>, b: seq<u32>, target: u32, newId: u32)
    ensures Inserted(a + b, target, newId) == Inserted(a, target, newId) + Inserted(b, target, newId)
  {
    if a == [] {
      assert a + b == b;
    } else {
      InsertedConcat(a[1..], b, target, newId);
      assert (a + b)[1..] == a[1..] + b;
      Associate(WithNew(a[0], target, newId), Inserted(a[1..], target, newId), Inserted(b, target, newId));
    }
  }

  lemma {:induction false} RemovedConcat(a: seq<u32>, b: seq<u32>, target: u32)
    ensures Removed(a + b, target) == Removed(a, target) + Removed(b, target)
  {
    if a == [] {
      assert a + b == b;
    } else {
      RemovedConcat(a[1..], b, target);
      assert (a + b)[1..] == a[1..] + b;
      Associate(Without(a[0], target), Removed(a[1..], target), Removed(b, target));
    }
  }

  lemma {:induction false} SplitAtIds(n: Node, target: u32, direction: Direction, newId: u32, ratio: Float)
    ensures Ids(SplitAt(n, target, direction, newId, ratio)) == Inserted(Ids(n), target, newId)
    ensures RatiosOk(n) && RatioOk(ratio) ==> RatiosOk(SplitAt(n, target, direction, newId, ratio))
  {
    match n
    case Pane(id) => assert [id][1..] == [];
    case Split(_, _, first, second) =>
      SplitAtIds(first, target, direction, newId, ratio);
      SplitAtIds(second, target, direction, newId, ratio);
      InsertedConcat(Ids(first), Ids(second), target, newId);
  }

  /** Removing keeps the other ids in order, and fails only when nothing would be left. */
  lemma {:induction false} RemovePaneIds(n: Node, target: u32)
    ensures var r := RemovePane(n, target);
            if r.Some? then Ids(r.value) == Removed(Ids(n), target) && (RatiosOk(n) ==> RatiosOk(r.value))
            else Removed(Ids(n), target) == []
  {
    match n
    case Pane(id) => assert [id][1..] == [];
    case Split(_, _, first, second) =>
      RemovePaneIds(first, target);
      RemovePaneIds(second, target);
      RemovedConcat(Ids(first), Ids(second), target);
  }

  lemma {:induction false} RemoveAbsent(n: Node, target: u32)
    requires target !in Ids(n)
    ensures RemovePane(n, target) == Some(n)
  {
    if n.Split? {
      RemoveAbsent(n.first, target);
      RemoveAbsent(n.second, target);
    }
  }

  /** Rollback: removing a pane that a split just added gives back the tree, ratios and all. */
  lemma {:induction false} SplitThenRemove(n: Node, target: u32, direction: Direction, newId: u32, ratio: Float)
    requires newId !in Ids(n)
    ensures RemovePane(SplitAt(n, target, direction, newId, ratio), newId) == Some(n)
  {
    if n.Split? {
      SplitThenRemove(n.first, target, direction, newId, ratio);
      SplitThenRemove(n.second, target, direction, newId, ratio);
    }
  }

  lemma {:induction false} CountIsIds(n: Node)
    ensures CountPanes(n) == |Ids(n)|
  {
    if n.Split? {
      CountIsIds(n.first);
      CountIsIds(n.second);
    }
  }

  function Swapped(id: u32, a: u32, b: u32): u32 {
    if id == a then b else if id == b then a else id
  }

  lemma {:induction false} SwapIdsAt(n: Node, a: u32, b: u32)
    ensures |Ids(SwapIds(n, a, b))| == |Ids(n)| && (RatiosOk(n) ==> RatiosOk(SwapIds(n, a, b)))
    ensures forall i :: 0 <= i < |Ids(n)| ==> Ids(SwapIds(n, a, b))[i] == Swapped(Ids(n)[i], a, b)
    ensures SplitRatios(SwapIds(n, a, b), []) == SplitRatios(n, [])
  {
    SwapRatios(n, a, b, []);
    if n.Split? {
      SwapIdsAt(n.first, a, b);
      SwapIdsAt(n.second, a, b);
    }
  }

  lemma {:induction false} SwapRatios(n: Node, a: u32, b: u32, path: Path)
    ensures SplitRatios(SwapIds(n, a, b), path) == SplitRatios(n, path)
  {
    if n.Split? {
      SwapRatios(n.first, a, b, path + [false]);
      SwapRatios(n.second, a, b, path + [true]);
    }
  }

  /** Swapping twice restores the tree. */
  lemma {:induction false} SwapTwice(n: Node, a: u32, b: u32)
    ensures SwapIds(SwapIds(n, a, b), a, b) == n
  {
    if n.Split? {
      SwapTwice(n.first, a, b);
      SwapTwice(n.second, a, b);
    }
  }

  // --- Ratios by path ---

  /** Setting a ratio succeeds exactly where there is one, changes that one and nothing else. */
  lemma {:induction false} SetRatioAtChanges(n: Node, path: Path, ratio: Float)
    ensures SetRatioAt(n, path, ratio).Some? <==> GetRatioAt(n, path).Some?
    ensures SetRatioAt(n, path, ratio).Some? ==>
              var m := SetRatioAt(n, path, ratio).value;
              && Ids(m) == Ids(n)
              && (RatiosOk(n) && RatioOk(ratio) ==> RatiosOk(m))
              && GetRatioAt(m, path) == Some(ratio)
  {
    if n.Split? && path != [] {
      SetRatioAtChanges(if path[0] then n.second else n.first, path[1..], ratio);
    }
  }

  lemma {:induction false} SetRatioAtKeeps(n: Node, path: Path, ratio: Float, other: Path)
    requires SetRatioAt(n, path, ratio).Some? && other != path
    ensures GetRatioAt(SetRatioAt(n, path, ratio).value, other) == GetRatioAt(n, other)
  {
    if path != [] && other != [] && path[0] == other[0] {
      assert path == [path[0]] + path[1..] && other == [other[0]] + other[1..];
      SetRatioAtKeeps(if path[0] then n.second else n.first, path[1..], ratio, other[1..]);
    }
  }

  /** Two trees of one shape: the same panes in the same places under splits of the same directions. */
  predicate SameShape(a: Node, b: Node) {
    match (a, b)
    case (Pane(x), Pane(y)) => x == y
    case (Split(d, _, f, s), Split(e, _, g, t)) => d == e && SameShape(f, g) && SameShape(s, t)
    case _ => false
  }

  lemma {:induction false} SameShapeReflexive(n: Node)
    ensures SameShape(n, n)
  {
    if n.Split? {
      SameShapeReflexive(n.first);
      SameShapeReflexive(n.second);
    }
  }

  lemma {:induction false} SetRatioAtShape(n: Node, path: Path, ratio: Float)
    requires SetRatioAt(n, path, ratio).Some?
    ensures SameShape(n, SetRatioAt(n, path, ratio).value)
  {
    SameShapeReflexive(n);
    if path != [] {
      SetRatioAtShape(if path[0] then n.second else n.first, path[1..], ratio);
    }
  }
}
