/**
 * Rotating the selected schematic items: the selected symbols, the
 * floating net points among the selected points and the end points of the
 * selected lines, and the selected net labels are rotated by one angle
 * about one center, the mean of their positions snapped to the grid.
 *
 * Snapping to the grid and rotating a point about a center are not part
 * of this model; they are the parameters `snap` and `rotated`. So are the
 * positions of symbols (`symbolPos`), which live outside the net model.
 */
module RotateCmd {
  import opened Base
  import opened Items
  import opened Children

  // ---------------------------------------------------------------------------
  // The selection
  // ---------------------------------------------------------------------------

  /** Both end points of each line, in order. */
  function LineEnds(lines: seq<NetLine>): seq<NetPoint>
  {
    if lines == [] then [] else LineEnds(lines[..|lines| - 1]) + [lines[|lines| - 1].start, lines[|lines| - 1].end]
  }

  lemma {:induction false} LineEndsHas(lines: seq<NetLine>, p: NetPoint)
    ensures p in LineEnds(lines) <==> exists k :: 0 <= k < |lines| && (lines[k].start == p || lines[k].end == p)
  {
    if lines != [] {
      var front := lines[..|lines| - 1];
      LineEndsHas(front, p);
      if exists k :: 0 <= k < |front| && (front[k].start == p || front[k].end == p) {
        var k :| 0 <= k < |front| && (front[k].start == p || front[k].end == p);
        assert front[k] == lines[k];
      }
      if exists k :: 0 <= k < |lines| && (lines[k].start == p || lines[k].end == p) {
        var k :| 0 <= k < |lines| && (lines[k].start == p || lines[k].end == p);
        if k < |front| { assert front[k] == lines[k]; }
      }
    }
  }

  /** The points of the list not attached to a pin, in order. */
  function Floating(pts: seq<NetPoint>): seq<NetPoint>
    reads pts
  {
    if pts == [] then []
    else Floating(pts[..|pts| - 1]) + (if pts[|pts| - 1].pin.None? then [pts[|pts| - 1]] else [])
  }

  lemma {:induction false} FloatingHas(pts: seq<NetPoint>, p: NetPoint)
    ensures p in Floating(pts) <==> p in pts && p.pin.None?
  {
    if pts != [] {
      FloatingHas(pts[..|pts| - 1], p);
      assert pts == pts[..|pts| - 1] + [pts[|pts| - 1]];
    }
  }

  /** The net points the rotation moves: floating ones, selected directly or as an end of a selected line, each once. */
  function MovedPoints(selectedPoints: seq<NetPoint>, selectedLines: seq<NetLine>): seq<NetPoint>
    reads selectedPoints, LineEnds(selectedLines)
  {
    InsertAll([], Floating(selectedPoints + LineEnds(selectedLines)))
  }

  /** Only floating points are moved, each once: those selected and those at an end of a selected line. */
  lemma MovedPointsHas(selectedPoints: seq<NetPoint>, selectedLines: seq<NetLine>)
    ensures Distinct(MovedPoints(selectedPoints, selectedLines))
    ensures forall p :: p in MovedPoints(selectedPoints, selectedLines) <==>
              p.pin.None? && (p in selectedPoints || exists k :: 0 <= k < |selectedLines| && (selectedLines[k].start == p || selectedLines[k].end == p))
  {
    var all := selectedPoints + LineEnds(selectedLines);
    InsertAllElements([], Floating(all));
    forall p ensures p in MovedPoints(selectedPoints, selectedLines) <==>
              p.pin.None? && (p in selectedPoints || exists k :: 0 <= k < |selectedLines| && (selectedLines[k].start == p || selectedLines[k].end == p))
    {
      FloatingHas(all, p);
      LineEndsHas(selectedLines, p);
    }
  }

  // ---------------------------------------------------------------------------
  // The center
  // ---------------------------------------------------------------------------

  function SymbolsSum(symbols: seq<Symbol>, symbolPos: Symbol -> Point): Point
  {
    if symbols == [] then Point(0, 0)
    else AddPoints(SymbolsSum(symbols[..|symbols| - 1], symbolPos), symbolPos(symbols[|symbols| - 1]))
  }

  function PointsSum(pts: seq<NetPoint>): Point
    reads pts
  {
    if pts == [] then Point(0, 0) else AddPoints(PointsSum(pts[..|pts| - 1]), pts[|pts| - 1].position)
  }

  function LabelsSum(labels: seq<NetLabel>): Point
    reads labels
  {
    if labels == [] then Point(0, 0) else AddPoints(LabelsSum(labels[..|labels| - 1]), labels[|labels| - 1].position)
  }

  /** The sum of all positions, symbols first, then net points, then labels. */
  function PositionsSum(symbols: seq<Symbol>, symbolPos: Symbol -> Point, pts: seq<NetPoint>, labels: seq<NetLabel>): Point
    reads pts, labels
  {
    AddPoints(AddPoints(SymbolsSum(symbols, symbolPos), PointsSum(pts)), LabelsSum(labels))
  }

  /**
   * The mean position (each coordinate of the sum divided by the count,
   * truncated toward zero): within one count of the sum once multiplied back.
   */
  function Mean(sum: Point, count: int): Point
    requires count > 0
  {
    DividePoint(sum, count)
  }

  lemma MeanBounds(sum: Point, count: int)
    requires count > 0
    ensures var m := Mean(sum, count);
            sum.x - count < m.x * count < sum.x + count
            && sum.y - count < m.y * count < sum.y + count
            && (sum.x >= 0 ==> m.x * count <= sum.x) && (sum.x <= 0 ==> sum.x <= m.x * count)
            && (sum.y >= 0 ==> m.y * count <= sum.y) && (sum.y <= 0 ==> sum.y <= m.y * count)
  {
    TruncDivBounds(sum.x, count);
    TruncDivBounds(sum.y, count);
  }

  /** A single item is its own mean. */
  lemma MeanOfOne(p: Point)
    ensures Mean(p, 1) == p
  {
  }

  /** Mean of equal positions: every item at `p` gives `p` back. */
  lemma MeanOfEqual(p: Point, n: int)
    requires n > 0
    ensures Mean(Point(p.x * n, p.y * n), n) == p
  {
    var m := Mean(Point(p.x * n, p.y * n), n);
    MeanBounds(Point(p.x * n, p.y * n), n);
    MulCancel(m.x, p.x, n);
    MulCancel(m.y, p.y, n);
  }

  lemma MulCancel(a: int, b: int, n: int)
    requires n > 0 && b * n - n < a * n < b * n + n
    ensures a == b
  {
    if a < b {
      MulMono(a, b - 1, n);
    } else if a > b {
      MulMono(b + 1, a, n);
    }
  }

  lemma MulMono(a: int, b: int, n: int)
    requires a <= b && n > 0
    ensures a * n <= b * n
  {
    assert b * n - a * n == (b - a) * n;
  }

  // ---------------------------------------------------------------------------
  // The children
  // ---------------------------------------------------------------------------

  function SymbolRotations(symbols: seq<Symbol>, angle: Angle, center: Point): seq<Child>
  {
    if symbols == [] then []
    else SymbolRotations(symbols[..|symbols| - 1], angle, center) + [SymbolRotate(symbols[|symbols| - 1], angle, center)]
  }

  lemma {:induction false} SymbolRotationsElements(symbols: seq<Symbol>, angle: Angle, center: Point)
    ensures |SymbolRotations(symbols, angle, center)| == |symbols|
    ensures forall i :: 0 <= i < |symbols| ==> SymbolRotations(symbols, angle, center)[i] == SymbolRotate(symbols[i], angle, center)
  {
    if symbols != [] {
      SymbolRotationsElements(symbols[..|symbols| - 1], angle, center);
    }
  }

  function PointMoves(pts: seq<NetPoint>, angle: Angle, center: Point, rotated: (Point, Angle, Point) -> Point): seq<Child>
    reads pts
  {
    if pts == [] then []
    else PointMoves(pts[..|pts| - 1], angle, center, rotated)
         + [NetPointSetPosition(pts[|pts| - 1], rotated(pts[|pts| - 1].position, angle, center))]
  }

  lemma {:induction false} PointMovesElements(pts: seq<NetPoint>, angle: Angle, center: Point, rotated: (Point, Angle, Point) -> Point)
    ensures |PointMoves(pts, angle, center, rotated)| == |pts|
    ensures forall i :: 0 <= i < |pts| ==>
              PointMoves(pts, angle, center, rotated)[i] == NetPointSetPosition(pts[i], rotated(pts[i].position, angle, center))
  {
    if pts != [] {
      PointMovesElements(pts[..|pts| - 1], angle, center, rotated);
    }
  }

  function LabelRotations(labels: seq<NetLabel>, angle: Angle, center: Point): seq<Child>
  {
    if labels == [] then []
    else LabelRotations(labels[..|labels| - 1], angle, center) + [LabelRotate(labels[|labels| - 1], angle, center)]
  }

  lemma {:induction false} LabelRotationsElements(labels: seq<NetLabel>, angle: Angle, center: Point)
    ensures |LabelRotations(labels, angle, center)| == |labels|
    ensures forall i :: 0 <= i < |labels| ==> LabelRotations(labels, angle, center)[i] == LabelRotate(labels[i], angle, center)
  {
    if labels != [] {
      LabelRotationsElements(labels[..|labels| - 1], angle, center);
    }
  }

  /** The center of rotation of the selection: its mean position snapped to the grid. */
  function Center(symbols: seq<Symbol>, symbolPos: Symbol -> Point, pts: seq<NetPoint>, labels: seq<NetLabel>,
                  snap: Point -> Point): Point
    requires |symbols| + |pts| + |labels| > 0
    reads pts, labels
  {
    snap(Mean(PositionsSum(symbols, symbolPos, pts, labels), |symbols| + |pts| + |labels|))
  }

  /**
   * The composite: nothing to do (and false) for an empty selection;
   * otherwise one edit per item, symbols, then net points, then labels.
   */
  function RotatePlan(symbols: seq<Symbol>, symbolPos: Symbol -> Point, pts: seq<NetPoint>, labels: seq<NetLabel>,
                      angle: Angle, snap: Point -> Point, rotated: (Point, Angle, Point) -> Point): Plan
    reads pts, labels
  {
    if |symbols| + |pts| + |labels| == 0 then Plan([], None, false)
    else
      var center := Center(symbols, symbolPos, pts, labels, snap);
      Plan(SymbolRotations(symbols, angle, center) + PointMoves(pts, angle, center, rotated) + LabelRotations(labels, angle, center),
           None, true)
  }

  /** An empty selection gives no children and false; any other gives children and true. */
  lemma RotateEmpty(symbols: seq<Symbol>, symbolPos: Symbol -> Point, pts: seq<NetPoint>, labels: seq<NetLabel>,
                    angle: Angle, snap: Point -> Point, rotated: (Point, Angle, Point) -> Point)
    ensures var p := RotatePlan(symbols, symbolPos, pts, labels, angle, snap, rotated);
            p.abort.None? && (p.result <==> p.children != [])
            && (p.children == [] <==> symbols == [] && pts == [] && labels == [])
  {
    if |symbols| + |pts| + |labels| > 0 {
      var center := Center(symbols, symbolPos, pts, labels, snap);
      SymbolRotationsElements(symbols, angle, center);
      PointMovesElements(pts, angle, center, rotated);
      LabelRotationsElements(labels, angle, center);
    }
  }

  /**
   * Exactly one edit per selected item, in selection order, all with the
   * same angle and the same center; a net point goes to its old position
   * rotated about that center.
   */
  lemma RotateChildren(symbols: seq<Symbol>, symbolPos: Symbol -> Point, pts: seq<NetPoint>, labels: seq<NetLabel>,
                       angle: Angle, snap: Point -> Point, rotated: (Point, Angle, Point) -> Point)
    requires |symbols| + |pts| + |labels| > 0
    ensures var log := RotatePlan(symbols, symbolPos, pts, labels, angle, snap, rotated).children;
            var center := Center(symbols, symbolPos, pts, labels, snap);
            var n := |symbols|;
            var m := |symbols| + |pts|;
            |log| == |symbols| + |pts| + |labels|
            && (forall i :: 0 <= i < |symbols| ==> log[i] == SymbolRotate(symbols[i], angle, center))
            && (forall i :: 0 <= i < |pts| ==> log[n + i] == NetPointSetPosition(pts[i], rotated(pts[i].position, angle, center)))
            && (forall i :: 0 <= i < |labels| ==> log[m + i] == LabelRotate(labels[i], angle, center))
  {
    var center := Center(symbols, symbolPos, pts, labels, snap);
    SymbolRotationsElements(symbols, angle, center);
    PointMovesElements(pts, angle, center, rotated);
    LabelRotationsElements(labels, angle, center);
    ThreeBlocks(SymbolRotations(symbols, angle, center), PointMoves(pts, angle, center, rotated), LabelRotations(labels, angle, center));
  }

  /** Where the elements of three concatenated blocks end up. */
  lemma ThreeBlocks(a: seq<Child>, b: seq<Child>, c: seq<Child>)
    ensures forall i :: 0 <= i < |a| ==> (a + b + c)[i] == a[i]
    ensures forall i :: 0 <= i < |b| ==> (a + b + c)[|a| + i] == b[i]
    ensures forall i :: 0 <= i < |c| ==> (a + b + c)[|a| + |b| + i] == c[i]
  {
  }

  // ---------------------------------------------------------------------------
  // performExecute
  // ---------------------------------------------------------------------------

  /** The loops summing up the positions and counting the items. */
  method SumPositions(symbols: seq<Symbol>, symbolPos: Symbol -> Point, pts: seq<NetPoint>, labels: seq<NetLabel>)
    returns (center: Point, count: int)
    ensures center == PositionsSum(symbols, symbolPos, pts, labels) && count == |symbols| + |pts| + |labels|
  {
    center := Point(0, 0);
    count := 0;
    for i := 0 to |symbols|
      invariant center == SymbolsSum(symbols[..i], symbolPos) && count == i
    {
      assert symbols[..i + 1][..i] == symbols[..i];
      center := AddPoints(center, symbolPos(symbols[i]));
      count := count + 1;
    }
    assert symbols[..|symbols|] == symbols;
    ghost var s := center;
    for i := 0 to |pts|
      invariant center == AddPoints(s, PointsSum(pts[..i])) && count == |symbols| + i
    {
      assert pts[..i + 1][..i] == pts[..i];
      center := AddPoints(center, pts[i].position);
      count := count + 1;
    }
    assert pts[..|pts|] == pts;
    ghost var t := center;
    for i := 0 to |labels|
      invariant center == AddPoints(t, LabelsSum(labels[..i])) && count == |symbols| + |pts| + i
    {
      assert labels[..i + 1][..i] == labels[..i];
      center := AddPoints(center, labels[i].position);
      count := count + 1;
    }
    assert labels[..|labels|] == labels;
  }

  method AppendSymbolRotations(acc: seq<Child>, symbols: seq<Symbol>, angle: Angle, center: Point) returns (r: seq<Child>)
    ensures r == acc + SymbolRotations(symbols, angle, center)
  {
    r := acc;
    for i := 0 to |symbols|
      invariant r == acc + SymbolRotations(symbols[..i], angle, center)
    {
      assert symbols[..i + 1][..i] == symbols[..i];
      r := r + [SymbolRotate(symbols[i], angle, center)];
    }
    assert symbols[..|symbols|] == symbols;
  }

  method AppendPointMoves(acc: seq<Child>, pts: seq<NetPoint>, angle: Angle, center: Point, rotated: (Point, Angle, Point) -> Point)
    returns (r: seq<Child>)
    ensures r == acc + PointMoves(pts, angle, center, rotated)
  {
    r := acc;
    for i := 0 to |pts|
      invariant r == acc + PointMoves(pts[..i], angle, center, rotated)
    {
      assert pts[..i + 1][..i] == pts[..i];
      r := r + [NetPointSetPosition(pts[i], rotated(pts[i].position, angle, center))];
    }
    assert pts[..|pts|] == pts;
  }

  method AppendLabelRotations(acc: seq<Child>, labels: seq<NetLabel>, angle: Angle, center: Point) returns (r: seq<Child>)
    ensures r == acc + LabelRotations(labels, angle, center)
  {
    r := acc;
    for i := 0 to |labels|
      invariant r == acc + LabelRotations(labels[..i], angle, center)
    {
      assert labels[..i + 1][..i] == labels[..i];
      r := r + [LabelRotate(labels[i], angle, center)];
    }
    assert labels[..|labels|] == labels;
  }

  /**
   * performExecute of the composite, given what the selection query returns:
   * the selected symbols, the moved net points (see MovedPoints) and the
   * selected labels.
   */
  method Execute(symbols: seq<Symbol>, symbolPos: Symbol -> Point, pts: seq<NetPoint>, labels: seq<NetLabel>,
                     angle: Angle, snap: Point -> Point, rotated: (Point, Angle, Point) -> Point)
    returns (p: Plan)
    ensures p == RotatePlan(symbols, symbolPos, pts, labels, angle, snap, rotated)
  {
    var sum, count := SumPositions(symbols, symbolPos, pts, labels);
    if count == 0 {
      return Plan([], None, false);
    }
    var center := snap(Mean(sum, count));
    assert center == Center(symbols, symbolPos, pts, labels, snap);
    var log := RotationLog(symbols, pts, labels, angle, center, rotated);
    SymbolRotationsElements(symbols, angle, center);
    PointMovesElements(pts, angle, center, rotated);
    LabelRotationsElements(labels, angle, center);
    p := Plan(log, None, |log| > 0);
  }

  /** The three loops of performExecute: symbols, then net points, then labels, each rotated about `center`. */
  method RotationLog(symbols: seq<Symbol>, pts: seq<NetPoint>, labels: seq<NetLabel>, angle: Angle, center: Point,
                     rotated: (Point, Angle, Point) -> Point)
    returns (log: seq<Child>)
    ensures log == SymbolRotations(symbols, angle, center) + PointMoves(pts, angle, center, rotated)
                   + LabelRotations(labels, angle, center)
  {
    log := AppendSymbolRotations([], symbols, angle, center);
    log := AppendPointMoves(log, pts, angle, center, rotated);
    ghost var front := log;
    log := AppendLabelRotations(log, labels, angle, center);
    assert front == SymbolRotations(symbols, angle, center) + PointMoves(pts, angle, center, rotated);
  }
}
