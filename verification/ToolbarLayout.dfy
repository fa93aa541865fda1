// Docking of the two fullscreen toolbars (src/fullscreenToolbarLayout.ts), over real coordinates.
module ToolbarLayout {
  import opened Prelude

  datatype Dock =
    | TopLeft | TopCenter | TopRight
    | LeftCenter | RightCenter
    | BottomLeft | BottomCenter | BottomRight

  const DOCKS: seq<Dock> :=
    [TopLeft, TopCenter, TopRight, LeftCenter, RightCenter, BottomLeft, BottomCenter, BottomRight]

  datatype Size = Size(width: real, height: real)

  datatype Point = Point(x: real, y: real)

  datatype Rect = Rect(x: real, y: real, width: real, height: real)

  datatype Docks = Docks(hardware: Dock, functions: Dock)

  datatype ToolbarKind = Hardware | Function

  const MARGIN: real := 8.0

  function DockPosition(dock: Dock, container: Size, toolbar: Size, margin: real): Point {
    var centerX := (container.width - toolbar.width) / 2.0;
    var right := container.width - toolbar.width - margin;
    var centerY := (container.height - toolbar.height) / 2.0;
    var bottom := container.height - toolbar.height - margin;
    match dock
    case LeftCenter => Point(margin, RealMax(margin, centerY))
    case RightCenter => Point(RealMax(margin, right), RealMax(margin, centerY))
    case TopLeft => Point(RealMax(margin, margin), margin)
    case TopCenter => Point(RealMax(margin, centerX), margin)
    case TopRight => Point(RealMax(margin, right), margin)
    case BottomLeft => Point(RealMax(margin, margin), RealMax(margin, bottom))
    case BottomCenter => Point(RealMax(margin, centerX), RealMax(margin, bottom))
    case BottomRight => Point(RealMax(margin, right), RealMax(margin, bottom))
  }

  function ToolbarRect(dock: Dock, container: Size, toolbar: Size): Rect {
    var p := DockPosition(dock, container, toolbar, MARGIN);
    Rect(p.x, p.y, toolbar.width, toolbar.height)
  }

  function Center(dock: Dock, container: Size, toolbar: Size): Point {
    var p := DockPosition(dock, container, toolbar, MARGIN);
    Point(p.x + toolbar.width / 2.0, p.y + toolbar.height / 2.0)
  }

  /** Length of the common part of [a, a + la] and [b, b + lb]. */
  function Overlap1D(a: real, la: real, b: real, lb: real): (r: real)
    ensures r >= 0.0
  {
    RealMax(0.0, RealMin(a + la, b + lb) - RealMax(a, b))
  }

  function OverlapArea(first: Rect, second: Rect): (r: real)
    ensures r >= 0.0
  {
    var width := Overlap1D(first.x, first.width, second.x, second.width);
    var height := Overlap1D(first.y, first.height, second.y, second.height);
    width * height
  }

  function TotalOverlap(rect: Rect, occupied: seq<Rect>): real {
    if occupied == [] then 0.0
    else TotalOverlap(rect, occupied[..|occupied| - 1]) + OverlapArea(rect, occupied[|occupied| - 1])
  }

  function Product(a: real, b: real): (r: real)
    ensures a > 0.0 && b > 0.0 ==> r > 0.0
    ensures a < 0.0 && b < 0.0 ==> r > 0.0
    ensures a == 0.0 ==> r == 0.0
  {
    a * b
  }

  function SquaredDistance(p: Point, q: Point): (r: real)
    ensures r >= 0.0
    ensures r == 0.0 <==> p == q
  {
    assert p.x - q.x == 0.0 && p.y - q.y == 0.0 ==> p == q;
    Product(p.x - q.x, p.x - q.x) + Product(p.y - q.y, p.y - q.y)
  }

  // ----- the search for the nearest dock -----

  datatype Score = Score(overlap: real, distance: real)

  predicate Better(a: Score, b: Score) {
    a.overlap < b.overlap || (a.overlap == b.overlap && a.distance < b.distance)
  }

  /** What a dock costs for a toolbar dropped at `point`. */
  function ScoreOf(dock: Dock, point: Point, container: Size, toolbar: Size, occupied: seq<Rect>): Score {
    Score(TotalOverlap(ToolbarRect(dock, container, toolbar), occupied),
          SquaredDistance(point, Center(dock, container, toolbar)))
  }

  /** DOCKS[n] is the first dock of least score among those not excluded. */
  ghost predicate IsNearest(n: nat, point: Point, container: Size, toolbar: Size, excluded: set<Dock>, occupied: seq<Rect>) {
    && n < |DOCKS|
    && DOCKS[n] !in excluded
    && forall m :: 0 <= m < |DOCKS| && DOCKS[m] !in excluded ==>
         var best := ScoreOf(DOCKS[n], point, container, toolbar, occupied);
         var other := ScoreOf(DOCKS[m], point, container, toolbar, occupied);
         !Better(other, best) && (m < n ==> Better(best, other))
  }

  /** The nearest dock among DOCKS[from..], preferring earlier ones on ties. */
  function Nearest(from: nat, point: Point, container: Size, toolbar: Size, excluded: set<Dock>, occupied: seq<Rect>): (n: Option<nat>)
    requires from <= |DOCKS|
    ensures n.None? <==> forall m :: from <= m < |DOCKS| ==> DOCKS[m] in excluded
    ensures n.Some? ==>
              && from <= n.value < |DOCKS| && DOCKS[n.value] !in excluded
              && forall m :: from <= m < |DOCKS| && DOCKS[m] !in excluded ==>
                   var best := ScoreOf(DOCKS[n.value], point, container, toolbar, occupied);
                   var other := ScoreOf(DOCKS[m], point, container, toolbar, occupied);
                   !Better(other, best) && (m < n.value ==> Better(best, other))
    decreases |DOCKS| - from
  {
    if from == |DOCKS| then None
    else
      var rest := Nearest(from + 1, point, container, toolbar, excluded, occupied);
      if DOCKS[from] in excluded then rest
      else if rest.None? then Some(from)
      else
        var here := ScoreOf(DOCKS[from], point, container, toolbar, occupied);
        var there := ScoreOf(DOCKS[rest.value], point, container, toolbar, occupied);
        if Better(there, here) then rest else Some(from)
  }

  function NearestDock(point: Point, container: Size, toolbar: Size, excluded: set<Dock>, occupied: seq<Rect>): (dock: Dock)
    ensures (forall m :: 0 <= m < |DOCKS| ==> DOCKS[m] in excluded) ==> dock == TopCenter
    ensures (exists m :: 0 <= m < |DOCKS| && DOCKS[m] !in excluded) ==>
              exists n: nat :: IsNearest(n, point, container, toolbar, excluded, occupied) && dock == DOCKS[n]
  {
    var n := Nearest(0, point, container, toolbar, excluded, occupied);
    assert n.Some? ==> IsNearest(n.value, point, container, toolbar, excluded, occupied);
    if n.None? then TopCenter else DOCKS[n.value]
  }

  lemma NearestIsUnique(n: nat, m: nat, point: Point, container: Size, toolbar: Size, excluded: set<Dock>, occupied: seq<Rect>)
    requires IsNearest(n, point, container, toolbar, excluded, occupied)
    requires IsNearest(m, point, container, toolbar, excluded, occupied)
    ensures n == m
  {
  }

  method NearestFullscreenToolbarDock(
    point: Point, container: Size, toolbar: Size, excluded: set<Dock>, occupied: seq<Rect>)
    returns (nearest: Dock)
    ensures nearest == NearestDock(point, container, toolbar, excluded, occupied)
  {
    nearest := TopCenter;
    var nearestOverlap: Option<real> := None;    // None: positive infinity
    var nearestDistance: Option<real> := None;
    ghost var at := 1;
    for i := 0 to |DOCKS|
      invariant nearestOverlap.Some? == nearestDistance.Some?
      invariant nearestOverlap.None? ==> nearest == TopCenter && forall m :: 0 <= m < i ==> DOCKS[m] in excluded
      invariant nearestOverlap.Some? ==>
                  && 0 <= at < i && nearest == DOCKS[at] && DOCKS[at] !in excluded
                  && ScoreOf(nearest, point, container, toolbar, occupied) == Score(nearestOverlap.value, nearestDistance.value)
      invariant nearestOverlap.Some? ==>
                  forall m :: 0 <= m < i && DOCKS[m] !in excluded ==>
                    var best := ScoreOf(DOCKS[at], point, container, toolbar, occupied);
                    var other := ScoreOf(DOCKS[m], point, container, toolbar, occupied);
                    !Better(other, best) && (m < at ==> Better(best, other))
    {
      var dock := DOCKS[i];
      if dock !in excluded {
        var overlap := TotalOverlap(ToolbarRect(dock, container, toolbar), occupied);
        var distance := SquaredDistance(point, Center(dock, container, toolbar));
        if nearestOverlap.None? || overlap < nearestOverlap.value
           || (overlap == nearestOverlap.value && distance < nearestDistance.value) {
          nearest, nearestOverlap, nearestDistance := dock, Some(overlap), Some(distance);
          at := i;
        }
      }
    }
    if nearestOverlap.Some? {
      assert IsNearest(at, point, container, toolbar, excluded, occupied);
      ghost var n: nat :| IsNearest(n, point, container, toolbar, excluded, occupied)
                    && NearestDock(point, container, toolbar, excluded, occupied) == DOCKS[n];
      NearestIsUnique(at, n, point, container, toolbar, excluded, occupied);
    }
  }

  // ----- placing the pair -----

  function PairOverlap(docks: Docks, container: Size, hardware: Size, functions: Size): real {
    OverlapArea(ToolbarRect(docks.hardware, container, hardware), ToolbarRect(docks.functions, container, functions))
  }

  function Reconcile(docks: Docks, container: Size, hardware: Size, functions: Size): Docks {
    if PairOverlap(docks, container, hardware, functions) == 0.0 then docks
    else
      Docks(docks.hardware,
            NearestDock(Center(docks.functions, container, functions), container, functions,
                        {docks.hardware}, [ToolbarRect(docks.hardware, container, hardware)]))
  }

  function ResolveDrop(kind: ToolbarKind, point: Point, docks: Docks, container: Size, hardware: Size, functions: Size): Docks {
    if kind == Function then
      Docks(docks.hardware,
            NearestDock(point, container, functions, {docks.hardware}, [ToolbarRect(docks.hardware, container, hardware)]))
    else
      Reconcile(Docks(NearestDock(point, container, hardware, {}, []), docks.functions), container, hardware, functions)
  }

  // ----- facts about overlap -----

  ghost predicate Nested(a: real, la: real, b: real, lb: real) {
    (b <= a && a + la <= b + lb) || (a <= b && b + lb <= a + la)
  }

  lemma NestedOverlap(a: real, la: real, b: real, lb: real)
    requires la >= 0.0 && lb >= 0.0 && Nested(a, la, b, lb)
    ensures Overlap1D(a, la, b, lb) == RealMin(la, lb)
  {
  }

  lemma OverlapIsBounded(a: real, la: real, b: real, lb: real)
    requires la >= 0.0 && lb >= 0.0
    ensures Overlap1D(a, la, b, lb) <= RealMin(la, lb)
  {
  }

  lemma ProductsGrow(a: real, b: real, c: real, d: real)
    requires 0.0 <= a <= c && 0.0 <= b <= d
    ensures a * b <= c * d
  {
    assert a * b <= a * d;
    assert a * d <= c * d;
  }

  ghost predicate NonNegative(s: Size) {
    s.width >= 0.0 && s.height >= 0.0
  }

  ghost predicate Positive(s: Size) {
    s.width > 0.0 && s.height > 0.0
  }

  /** Two toolbars at one dock overlap in exactly the smaller width times the smaller height, whatever the container. */
  lemma SameDockOverlap(dock: Dock, container: Size, a: Size, b: Size)
    requires NonNegative(a) && NonNegative(b)
    ensures OverlapArea(ToolbarRect(dock, container, a), ToolbarRect(dock, container, b))
         == RealMin(a.width, b.width) * RealMin(a.height, b.height)
  {
    var p := ToolbarRect(dock, container, a);
    var q := ToolbarRect(dock, container, b);
    assert Nested(p.x, p.width, q.x, q.width);
    assert Nested(p.y, p.height, q.y, q.height);
    NestedOverlap(p.x, p.width, q.x, q.width);
    NestedOverlap(p.y, p.height, q.y, q.height);
  }

  /** No placement overlaps more than sharing one dock. */
  lemma OverlapAtMostSameDock(first: Rect, second: Rect)
    requires first.width >= 0.0 && first.height >= 0.0 && second.width >= 0.0 && second.height >= 0.0
    ensures OverlapArea(first, second) <= RealMin(first.width, second.width) * RealMin(first.height, second.height)
  {
    OverlapIsBounded(first.x, first.width, second.x, second.width);
    OverlapIsBounded(first.y, first.height, second.y, second.height);
    ProductsGrow(Overlap1D(first.x, first.width, second.x, second.width),
                 Overlap1D(first.y, first.height, second.y, second.height),
                 RealMin(first.width, second.width), RealMin(first.height, second.height));
  }

  lemma DockIndex(dock: Dock) returns (n: nat)
    ensures n < |DOCKS| && DOCKS[n] == dock
  {
    n := match dock
      case TopLeft => 0
      case TopCenter => 1
      case TopRight => 2
      case LeftCenter => 3
      case RightCenter => 4
      case BottomLeft => 5
      case BottomCenter => 6
      case BottomRight => 7;
  }

  lemma OverlapIsSymmetric(first: Rect, second: Rect)
    ensures OverlapArea(first, second) == OverlapArea(second, first)
  {
  }

  lemma NearestExists(free: nat, point: Point, container: Size, toolbar: Size, excluded: set<Dock>, occupied: seq<Rect>)
    returns (n: nat)
    requires free < |DOCKS| && DOCKS[free] !in excluded
    ensures IsNearest(n, point, container, toolbar, excluded, occupied)
    ensures NearestDock(point, container, toolbar, excluded, occupied) == DOCKS[n]
  {
    hide Center, TotalOverlap, SquaredDistance;
    n := Nearest(0, point, container, toolbar, excluded, occupied).value;
  }

  /** The chosen dock is not the hardware's, and no other such dock overlaps the hardware toolbar less. */
  lemma NearestBesides(point: Point, hardwareDock: Dock, container: Size, hardware: Size, functions: Size)
    returns (n: nat)
    ensures var occupied := [ToolbarRect(hardwareDock, container, hardware)];
            var chosen := NearestDock(point, container, functions, {hardwareDock}, occupied);
            && IsNearest(n, point, container, functions, {hardwareDock}, occupied)
            && chosen == DOCKS[n] != hardwareDock
            && forall dock :: dock != hardwareDock ==>
                 PairOverlap(Docks(hardwareDock, chosen), container, hardware, functions)
                 <= PairOverlap(Docks(hardwareDock, dock), container, hardware, functions)
  {
    hide OverlapArea, ToolbarRect, Center, NearestDock, TotalOverlap, SquaredDistance, PairOverlap;
    var occupied := [ToolbarRect(hardwareDock, container, hardware)];
    n := NearestExists(if hardwareDock == TopLeft then 1 else 0, point, container, functions, {hardwareDock}, occupied);
    forall dock | dock != hardwareDock
      ensures PairOverlap(Docks(hardwareDock, DOCKS[n]), container, hardware, functions)
           <= PairOverlap(Docks(hardwareDock, dock), container, hardware, functions)
    {
      LeastOverlap(n, dock, point, hardwareDock, container, hardware, functions);
    }
  }

  lemma LeastOverlap(n: nat, dock: Dock, point: Point, hardwareDock: Dock, container: Size, hardware: Size, functions: Size)
    requires IsNearest(n, point, container, functions, {hardwareDock}, [ToolbarRect(hardwareDock, container, hardware)])
    requires dock != hardwareDock
    ensures PairOverlap(Docks(hardwareDock, DOCKS[n]), container, hardware, functions)
         <= PairOverlap(Docks(hardwareDock, dock), container, hardware, functions)
  {
    hide OverlapArea, ToolbarRect, Center, TotalOverlap, SquaredDistance;
    var rect := ToolbarRect(hardwareDock, container, hardware);
    var m := DockIndex(dock);
    assert DOCKS[m] !in {hardwareDock};
    SingleOccupied(ToolbarRect(DOCKS[n], container, functions), rect);
    SingleOccupied(ToolbarRect(dock, container, functions), rect);
  }

  lemma SingleOccupied(rect: Rect, other: Rect)
    ensures TotalOverlap(rect, [other]) == OverlapArea(other, rect)
  {
    assert [other][..0] == [];
    OverlapIsSymmetric(rect, other);
  }

  // ----- main results -----

  /** A drop never leaves both toolbars at one dock. */
  lemma DropSeparatesDocks(kind: ToolbarKind, point: Point, docks: Docks, container: Size, hardware: Size, functions: Size)
    requires Positive(hardware) && Positive(functions)
    ensures var r := ResolveDrop(kind, point, docks, container, hardware, functions);
            r.hardware != r.functions
  {
    if kind == Function {
      var _ := NearestBesides(point, docks.hardware, container, hardware, functions);
    } else {
      ReconcileSeparatesDocks(Docks(NearestDock(point, container, hardware, {}, []), docks.functions), container, hardware, functions);
    }
  }

  /** Without an overlap the docks stay; with one, the function toolbar goes to the nearest dock to its own center. */
  ghost predicate IsReconciled(after: Docks, docks: Docks, container: Size, hardware: Size, functions: Size) {
    if PairOverlap(docks, container, hardware, functions) == 0.0 then after == docks
    else
      && after.hardware == docks.hardware
      && exists n: nat ::
           IsNearest(n, Center(docks.functions, container, functions), container, functions,
                     {docks.hardware}, [ToolbarRect(docks.hardware, container, hardware)])
           && after.functions == DOCKS[n]
  }

  lemma ReconcileGoesToNearest(docks: Docks, container: Size, hardware: Size, functions: Size)
    ensures IsReconciled(Reconcile(docks, container, hardware, functions), docks, container, hardware, functions)
  {
    hide TotalOverlap, ToolbarRect, Center, SquaredDistance, NearestDock, Better, PairOverlap;
    if PairOverlap(docks, container, hardware, functions) != 0.0 {
      var n := NearestBesides(Center(docks.functions, container, functions), docks.hardware, container, hardware, functions);
    }
  }

  /** The dropped toolbar goes to the dock nearest to the drop; the other one is then reconciled with it. */
  lemma DropGoesToNearest(kind: ToolbarKind, point: Point, docks: Docks, container: Size, hardware: Size, functions: Size)
    returns (n: nat)
    ensures n < |DOCKS|
    ensures var r := ResolveDrop(kind, point, docks, container, hardware, functions);
            if kind == Function then
              && r.hardware == docks.hardware && r.functions == DOCKS[n]
              && IsNearest(n, point, container, functions, {docks.hardware}, [ToolbarRect(docks.hardware, container, hardware)])
            else
              && r.hardware == DOCKS[n] && IsNearest(n, point, container, hardware, {}, [])
              && IsReconciled(r, Docks(r.hardware, docks.functions), container, hardware, functions)
  {
    hide TotalOverlap, ToolbarRect, Center, SquaredDistance, NearestDock, Better;
    if kind == Function {
      n := NearestBesides(point, docks.hardware, container, hardware, functions);
    } else {
      assert DOCKS[0] !in {};
      n := NearestExists(0, point, container, hardware, {}, []);
      ReconcileGoesToNearest(Docks(DOCKS[n], docks.functions), container, hardware, functions);
    }
  }

  lemma ReconcileSeparatesDocks(docks: Docks, container: Size, hardware: Size, functions: Size)
    requires Positive(hardware) && Positive(functions)
    ensures Reconcile(docks, container, hardware, functions).hardware == docks.hardware
    ensures Reconcile(docks, container, hardware, functions).functions != docks.hardware
  {
    SameDockOverlap(docks.hardware, container, hardware, functions);
    if PairOverlap(docks, container, hardware, functions) != 0.0 {
      var _ := NearestBesides(Center(docks.functions, container, functions), docks.hardware, container, hardware, functions);
    }
  }

  /** Reconciling reaches a fixed point in one step, with ties and coinciding docks, for any sizes. */
  lemma ReconcileIsIdempotent(docks: Docks, container: Size, hardware: Size, functions: Size)
    ensures var r := Reconcile(docks, container, hardware, functions);
            Reconcile(r, container, hardware, functions) == r
  {
    var r := Reconcile(docks, container, hardware, functions);
    if PairOverlap(docks, container, hardware, functions) != 0.0 && PairOverlap(r, container, hardware, functions) != 0.0 {
      var from := Center(docks.functions, container, functions);
      var n := NearestBesides(from, docks.hardware, container, hardware, functions);
      var settled := Center(r.functions, container, functions);
      var k := NearestBesides(settled, docks.hardware, container, hardware, functions);
      StillNearest(n, from, container, functions, {docks.hardware}, [ToolbarRect(docks.hardware, container, hardware)]);
      NearestIsUnique(n, k, settled, container, functions, {docks.hardware}, [ToolbarRect(docks.hardware, container, hardware)]);
    }
  }

  /** The nearest dock to a point is also the nearest dock to its own center: an earlier dock with the same center would have won before. */
  lemma StillNearest(n: nat, from: Point, container: Size, toolbar: Size, excluded: set<Dock>, occupied: seq<Rect>)
    requires IsNearest(n, from, container, toolbar, excluded, occupied)
    ensures IsNearest(n, Center(DOCKS[n], container, toolbar), container, toolbar, excluded, occupied)
  {
    var settled := Center(DOCKS[n], container, toolbar);
    forall m | 0 <= m < |DOCKS| && DOCKS[m] !in excluded
      ensures var best := ScoreOf(DOCKS[n], settled, container, toolbar, occupied);
              var other := ScoreOf(DOCKS[m], settled, container, toolbar, occupied);
              !Better(other, best) && (m < n ==> Better(best, other))
    {
      if Center(DOCKS[m], container, toolbar) == settled {
        assert ScoreOf(DOCKS[m], from, container, toolbar, occupied).distance
            == ScoreOf(DOCKS[n], from, container, toolbar, occupied).distance;
      }
    }
  }

  /** Reconciling yields the least overlap any function dock could give, so it never makes things worse. */
  lemma ReconcileMinimisesOverlap(docks: Docks, container: Size, hardware: Size, functions: Size)
    requires NonNegative(hardware) && NonNegative(functions)
    ensures forall dock ::
              PairOverlap(Reconcile(docks, container, hardware, functions), container, hardware, functions)
              <= PairOverlap(Docks(docks.hardware, dock), container, hardware, functions)
  {
    hide OverlapArea, DockPosition, Center, NearestDock;
    var r := Reconcile(docks, container, hardware, functions);
    if PairOverlap(docks, container, hardware, functions) != 0.0 {
      var _ := NearestBesides(Center(docks.functions, container, functions), docks.hardware, container, hardware, functions);
      SameDockOverlap(docks.hardware, container, hardware, functions);
      OverlapAtMostSameDock(ToolbarRect(r.hardware, container, hardware), ToolbarRect(r.functions, container, functions));
    } else {
      assert docks == Docks(docks.hardware, docks.functions);
    }
  }

  /** The toolbars end up disjoint exactly when some dock other than the hardware's allows it. */
  lemma ReconcileSeparatesIffPossible(docks: Docks, container: Size, hardware: Size, functions: Size)
    requires Positive(hardware) && Positive(functions)
    ensures PairOverlap(Reconcile(docks, container, hardware, functions), container, hardware, functions) == 0.0
       <==> exists dock :: dock != docks.hardware
                           && PairOverlap(Docks(docks.hardware, dock), container, hardware, functions) == 0.0
  {
    var r := Reconcile(docks, container, hardware, functions);
    ReconcileMinimisesOverlap(docks, container, hardware, functions);
    ReconcileSeparatesDocks(docks, container, hardware, functions);
    assert r == Docks(docks.hardware, r.functions);
  }

  // ----- where docks are -----

  predicate AtLeft(dock: Dock) { dock in {TopLeft, LeftCenter, BottomLeft} }

  predicate AtRight(dock: Dock) { dock in {TopRight, RightCenter, BottomRight} }

  predicate AtTop(dock: Dock) { dock in {TopLeft, TopCenter, TopRight} }

  predicate AtBottom(dock: Dock) { dock in {BottomLeft, BottomCenter, BottomRight} }

  /**
   * A toolbar that fits sits a margin away from the edges its dock names, with equal room on both sides
   * otherwise, and inside the container; one that does not fit is a margin away from the top or left.
   */
  lemma DockTouchesItsEdges(dock: Dock, container: Size, toolbar: Size, margin: real)
    ensures var p := DockPosition(dock, container, toolbar, margin);
            p.x >= margin && p.y >= margin
    ensures toolbar.width + 2.0 * margin <= container.width && toolbar.height + 2.0 * margin <= container.height ==>
              var p := DockPosition(dock, container, toolbar, margin);
              var roomRight := container.width - (p.x + toolbar.width);
              var roomBelow := container.height - (p.y + toolbar.height);
              && roomRight >= margin && roomBelow >= margin
              && (if AtLeft(dock) then p.x == margin else if AtRight(dock) then roomRight == margin else p.x == roomRight)
              && (if AtTop(dock) then p.y == margin else if AtBottom(dock) then roomBelow == margin else p.y == roomBelow)
    ensures toolbar.width + 2.0 * margin > container.width ==> DockPosition(dock, container, toolbar, margin).x == margin
    ensures toolbar.height + 2.0 * margin > container.height ==> DockPosition(dock, container, toolbar, margin).y == margin
  {
    var p := DockPosition(dock, container, toolbar, margin);
    match dock
    case LeftCenter => assert AtLeft(dock);
    case RightCenter => assert AtRight(dock);
    case _ => assert AtTop(dock) || AtBottom(dock);
  }

  // ----- what an overlap is -----

  predicate Inside(p: Point, r: Rect) {
    r.x < p.x < r.x + r.width && r.y < p.y < r.y + r.height
  }

  /** The overlap area is positive exactly when some point lies strictly inside both rectangles. */
  lemma OverlapIffCommonPoint(first: Rect, second: Rect)
    ensures OverlapArea(first, second) > 0.0 <==> exists p :: Inside(p, first) && Inside(p, second)
  {
    var left, right := RealMax(first.x, second.x), RealMin(first.x + first.width, second.x + second.width);
    var top, bottom := RealMax(first.y, second.y), RealMin(first.y + first.height, second.y + second.height);
    if left < right && top < bottom {
      var p := Point((left + right) / 2.0, (top + bottom) / 2.0);
      assert Inside(p, first) && Inside(p, second);
      assert Product(right - left, bottom - top) > 0.0;
    } else {
      assert Overlap1D(first.x, first.width, second.x, second.width) == 0.0
          || Overlap1D(first.y, first.height, second.y, second.height) == 0.0;
    }
  }

  // ----- attached toolbars -----

  datatype Positions = Positions(hardware: Point, functions: Point)

  /** `attachedFullscreenToolbarPositions`: side by side at the left and right docks when there is room, else stacked. */
  function Attached(dock: Dock, container: Size, hardware: Size, functions: Size, gap: real, margin: real): Positions {
    var sideways := dock == LeftCenter || dock == RightCenter;
    var atBottom := dock == BottomLeft || dock == BottomCenter || dock == BottomRight;
    var availableWidth := RealMax(0.0, container.width - margin * 2.0);
    var groupWidth := hardware.width + gap + functions.width;
    if sideways && groupWidth <= availableWidth then
      var top := RealMax(margin, (container.height - RealMax(hardware.height, functions.height)) / 2.0);
      if dock == RightCenter then
        var left := RealMax(margin, container.width - groupWidth - margin);
        Positions(Point(left + functions.width + gap, top), Point(left, top))
      else Positions(Point(margin, top), Point(margin + hardware.width + gap, top))
    else
      var groupHeight := hardware.height + gap + functions.height;
      var groupTop := if atBottom then RealMax(margin, container.height - groupHeight - margin)
                      else if sideways then RealMax(margin, (container.height - groupHeight) / 2.0)
                      else margin;
      var hardwareX := AlignX(dock, container, hardware.width, margin);
      var functionX := AlignX(dock, container, functions.width, margin);
      if atBottom then Positions(Point(hardwareX, groupTop + functions.height + gap), Point(functionX, groupTop))
      else Positions(Point(hardwareX, groupTop), Point(functionX, groupTop + hardware.height + gap))
  }

  function AlignX(dock: Dock, container: Size, width: real, margin: real): real {
    match dock
    case TopRight => RealMax(margin, container.width - width - margin)
    case RightCenter => RealMax(margin, container.width - width - margin)
    case BottomRight => RealMax(margin, container.width - width - margin)
    case TopCenter => RealMax(margin, (container.width - width) / 2.0)
    case LeftCenter => RealMax(margin, (container.width - width) / 2.0)
    case BottomCenter => RealMax(margin, (container.width - width) / 2.0)
    case TopLeft => margin
    case BottomLeft => margin
  }

  /** Attached toolbars are kept exactly `gap` apart, along one axis, however small the container. */
  lemma AttachedKeepGap(dock: Dock, container: Size, hardware: Size, functions: Size, gap: real, margin: real)
    ensures var p := Attached(dock, container, hardware, functions, gap, margin);
            || p.functions.x == p.hardware.x + hardware.width + gap
            || p.hardware.x == p.functions.x + functions.width + gap
            || p.functions.y == p.hardware.y + hardware.height + gap
            || p.hardware.y == p.functions.y + functions.height + gap
    ensures gap >= 0.0 ==>
              var p := Attached(dock, container, hardware, functions, gap, margin);
              OverlapArea(Rect(p.hardware.x, p.hardware.y, hardware.width, hardware.height),
                          Rect(p.functions.x, p.functions.y, functions.width, functions.height)) == 0.0
  {
    var p := Attached(dock, container, hardware, functions, gap, margin);
    var h := Rect(p.hardware.x, p.hardware.y, hardware.width, hardware.height);
    var f := Rect(p.functions.x, p.functions.y, functions.width, functions.height);
    if gap >= 0.0 {
      assert Overlap1D(h.x, h.width, f.x, f.width) == 0.0 || Overlap1D(h.y, h.height, f.y, f.height) == 0.0;
    }
  }

  // ----- what nearness is -----

  /** The center is as far from the left edge as from the right, and from the top as from the bottom. */
  lemma CenterIsMiddle(dock: Dock, container: Size, toolbar: Size)
    ensures var r := ToolbarRect(dock, container, toolbar);
            var c := Center(dock, container, toolbar);
            && r.width == toolbar.width && r.height == toolbar.height
            && Point(r.x, r.y) == DockPosition(dock, container, toolbar, 8.0)
            && c.x - r.x == r.x + r.width - c.x && c.y - r.y == r.y + r.height - c.y
  {
  }

  /** Squared distances obey Pythagoras, and along an axis are the square of the difference. */
  lemma DistanceIsEuclidean(p: Point, q: Point)
    ensures SquaredDistance(p, q) == SquaredDistance(p, Point(q.x, p.y)) + SquaredDistance(Point(q.x, p.y), q)
    ensures p.y == q.y ==> SquaredDistance(p, q) == (p.x - q.x) * (p.x - q.x)
    ensures p.x == q.x ==> SquaredDistance(p, q) == (p.y - q.y) * (p.y - q.y)
  {
  }

  /** Overlap with several rectangles adds up. */
  lemma TotalOverlapAdds(rect: Rect, occupied: seq<Rect>, other: Rect)
    ensures TotalOverlap(rect, []) == 0.0
    ensures TotalOverlap(rect, occupied + [other]) == TotalOverlap(rect, occupied) + OverlapArea(rect, other)
  {
    assert (occupied + [other])[..|occupied|] == occupied;
  }

  /** The chosen dock against any other: less overlap, or as much and closer, or as close and earlier in the list. */
  lemma NearestComesFirst(n: nat, m: nat, point: Point, container: Size, toolbar: Size, excluded: set<Dock>, occupied: seq<Rect>)
    requires IsNearest(n, point, container, toolbar, excluded, occupied)
    requires m < |DOCKS| && m != n && DOCKS[m] !in excluded
    ensures var mine := TotalOverlap(ToolbarRect(DOCKS[n], container, toolbar), occupied);
            var its := TotalOverlap(ToolbarRect(DOCKS[m], container, toolbar), occupied);
            var near := SquaredDistance(point, Center(DOCKS[n], container, toolbar));
            var far := SquaredDistance(point, Center(DOCKS[m], container, toolbar));
            mine < its || (mine == its && (near < far || (near == far && n < m)))
    ensures DOCKS == [TopLeft, TopCenter, TopRight, LeftCenter, RightCenter, BottomLeft, BottomCenter, BottomRight]
  {
    hide TotalOverlap, ToolbarRect, Center, SquaredDistance;
  }

  /** Side by side at the two side docks when the pair fits across, stacked otherwise. */
  predicate SideBySide(dock: Dock, container: Size, hardware: Size, functions: Size, gap: real, margin: real) {
    dock in {LeftCenter, RightCenter} && hardware.width + gap + functions.width <= RealMax(0.0, container.width - margin * 2.0)
  }

  /** Side by side the hardware toolbar is the outer one, a margin from the edge of its dock; both start at one height. */
  lemma AttachedSideBySide(dock: Dock, container: Size, hardware: Size, functions: Size, gap: real, margin: real)
    requires SideBySide(dock, container, hardware, functions, gap, margin) && container.width >= margin * 2.0
    ensures var p := Attached(dock, container, hardware, functions, gap, margin);
            var tallest := RealMax(hardware.height, functions.height);
            && p.hardware.y == p.functions.y
            && (if dock == LeftCenter then p.hardware.x == margin && p.functions.x == margin + hardware.width + gap
                else p.hardware.x + hardware.width == container.width - margin && p.functions.x + functions.width + gap == p.hardware.x)
            && (if tallest + 2.0 * margin <= container.height then p.hardware.y == container.height - (p.hardware.y + tallest)
                else p.hardware.y == margin)
  {
  }

  /** Stacked, the hardware toolbar is above except at the bottom docks, where it is below, and the pair touches the edges of its dock. */
  lemma AttachedStacked(dock: Dock, container: Size, hardware: Size, functions: Size, gap: real, margin: real)
    requires !SideBySide(dock, container, hardware, functions, gap, margin)
    ensures var p := Attached(dock, container, hardware, functions, gap, margin);
            var height := hardware.height + gap + functions.height;
            var top := if AtBottom(dock) then p.functions.y else p.hardware.y;
            && (if AtBottom(dock) then p.hardware.y == top + functions.height + gap else p.functions.y == top + hardware.height + gap)
            && (AtTop(dock) || height + 2.0 * margin > container.height ==> top == margin)
            && (!AtTop(dock) && height + 2.0 * margin <= container.height ==>
                  if AtBottom(dock) then top + height == container.height - margin else top == container.height - (top + height))
            && IsAligned(p.hardware.x, hardware.width, dock, container, margin)
            && IsAligned(p.functions.x, functions.width, dock, container, margin)
  {
    AlignXIsAligned(dock, container, hardware.width, margin);
    AlignXIsAligned(dock, container, functions.width, margin);
  }

  /** At the margin, against the right margin, or in the middle: the left side dock has no left edge here. */
  ghost predicate IsAligned(x: real, width: real, dock: Dock, container: Size, margin: real) {
    if dock in {TopLeft, BottomLeft} || width + 2.0 * margin > container.width then x == margin
    else if AtRight(dock) then x + width == container.width - margin
    else x == container.width - (x + width)
  }

  lemma AlignXIsAligned(dock: Dock, container: Size, width: real, margin: real)
    ensures IsAligned(AlignX(dock, container, width, margin), width, dock, container, margin)
  {
  }
}
