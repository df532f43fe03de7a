/**
 * Combining two schematic net points into one: the point `loser` goes
 * away and `result` takes its place.
 *
 * When the two points lie in different segments, the losing segment is
 * taken off its page and its contents are re-created in the resulting
 * segment: each of its points (except `loser`, which maps to `result`) as a
 * new point on the same pin or at the same position, each of its lines
 * between the new points, each of its labels at the same position.
 *
 * When both lie in the same segment, each line at `loser` is removed and,
 * unless its other end is `result`, re-created from `result` to that other
 * end; then `loser` is removed.
 */
module CombineNetPointsCmd {
  import opened Base
  import opened Items
  import opened Children

  // ---------------------------------------------------------------------------
  // Two segments: copying the losing segment into the resulting one
  // ---------------------------------------------------------------------------

  /** Where a copy of the point goes: on its pin when it has one, else at its position. */
  function PlacementOf(p: NetPoint): (r: Placement)
    reads p
    ensures r.OnPin? <==> p.pin.Some?
    ensures r.OnPin? ==> Some(r.pin) == p.pin
    ensures r.AtPosition? ==> r.position == p.position
  {
    if p.pin.Some? then OnPin(p.pin.value) else AtPosition(p.position)
  }

  /** What a point of the losing segment stands for afterwards: `result` for `loser`, else its copy. */
  function RefOf(p: NetPoint, loser: NetPoint, result: NetPoint): PointRef
  {
    if p == loser then Existing(result) else CopyOf(p)
  }

  /** The child copying one point into `target`. */
  function PointCopy(p: NetPoint, target: NetSegment): Child
    reads p
  {
    AddElements(ExistingSegment(target), [NewPoint(p, PlacementOf(p))], [])
  }

  function PointCopies(pts: seq<NetPoint>, loser: NetPoint, target: NetSegment): seq<Child>
    reads pts
  {
    if pts == [] then []
    else PointCopies(pts[..|pts| - 1], loser, target)
         + (if pts[|pts| - 1] == loser then [] else [PointCopy(pts[|pts| - 1], target)])
  }

  lemma {:induction false} PointCopiesHas(pts: seq<NetPoint>, loser: NetPoint, target: NetSegment, c: Child)
    ensures c in PointCopies(pts, loser, target) <==>
              c.AddElements? && |c.points| == 1 && c.points[0].source in pts && c.points[0].source != loser
              && c == PointCopy(c.points[0].source, target)
  {
    if pts != [] {
      PointCopiesHas(pts[..|pts| - 1], loser, target, c);
      assert pts == pts[..|pts| - 1] + [pts[|pts| - 1]];
    }
  }

  /** The child copying one line into `target`, between the stand-ins of its end points. */
  function LineCopy(l: NetLine, loser: NetPoint, result: NetPoint, target: NetSegment): Child
  {
    AddElements(ExistingSegment(target), [], [LineBetween(RefOf(l.start, loser, result), RefOf(l.end, loser, result))])
  }

  function LineCopies(lines: seq<NetLine>, loser: NetPoint, result: NetPoint, target: NetSegment): seq<Child>
  {
    if lines == [] then []
    else LineCopies(lines[..|lines| - 1], loser, result, target) + [LineCopy(lines[|lines| - 1], loser, result, target)]
  }

  lemma {:induction false} LineCopiesHas(lines: seq<NetLine>, loser: NetPoint, result: NetPoint, target: NetSegment, c: Child)
    ensures c in LineCopies(lines, loser, result, target) <==> exists l :: l in lines && c == LineCopy(l, loser, result, target)
  {
    if lines != [] {
      LineCopiesHas(lines[..|lines| - 1], loser, result, target, c);
      assert lines == lines[..|lines| - 1] + [lines[|lines| - 1]];
    }
  }

  function LabelCopies(labels: seq<NetLabel>, target: NetSegment): seq<Child>
    reads labels
  {
    if labels == [] then []
    else LabelCopies(labels[..|labels| - 1], target) + [LabelAdd(target, labels[|labels| - 1].position)]
  }

  lemma {:induction false} LabelCopiesHas(labels: seq<NetLabel>, target: NetSegment, c: Child)
    ensures c in LabelCopies(labels, target) <==>
              c.LabelAdd? && c.segment == target && exists k :: 0 <= k < |labels| && labels[k].position == c.position
  {
    if labels != [] && c.LabelAdd? {
      var front := labels[..|labels| - 1];
      LabelCopiesHas(front, target, c);
      if exists k :: 0 <= k < |front| && front[k].position == c.position {
        var k :| 0 <= k < |front| && front[k].position == c.position;
        assert front[k] == labels[k];
      }
      if exists k :: 0 <= k < |labels| && labels[k].position == c.position {
        var k :| 0 <= k < |labels| && labels[k].position == c.position;
        if k < |front| { assert front[k] == labels[k]; }
      }
    } else if labels != [] {
      LabelCopiesHas(labels[..|labels| - 1], target, c);
    }
  }

  /** The children for two different segments: `pts`, `lines`, `labels` are the losing segment's. */
  function CrossLog(loser: NetPoint, result: NetPoint, pts: seq<NetPoint>, lines: seq<NetLine>, labels: seq<NetLabel>): seq<Child>
    reads pts, labels
  {
    [SegmentRemove(loser.segment)] + PointCopies(pts, loser, result.segment)
    + LineCopies(lines, loser, result, result.segment) + LabelCopies(labels, result.segment)
  }

  // ---------------------------------------------------------------------------
  // One segment: re-routing the lines of the losing point
  // ---------------------------------------------------------------------------

  /** The new line from `result` to `other`. */
  function Relink(result: NetPoint, other: NetPoint): Child
  {
    AddElements(ExistingSegment(result.segment), [], [LineBetween(Existing(result), Existing(other))])
  }

  /** Every line ends at `loser`: the lines registered at a point do. */
  predicate AllAt(ls: seq<NetLine>, loser: NetPoint)
  {
    forall l :: l in ls ==> l.OtherPoint(loser).Some?
  }

  /** One line at `loser`: removed, and re-created from `result` unless that would be a loop at `result`. */
  function Rewire(l: NetLine, loser: NetPoint, result: NetPoint): seq<Child>
    requires l.OtherPoint(loser).Some?
  {
    var other := l.OtherPoint(loser).value;
    [RemoveElements(l.segment, [], [l])] + (if other != result then [Relink(result, other)] else [])
  }

  function Rewires(ls: seq<NetLine>, loser: NetPoint, result: NetPoint): seq<Child>
    requires AllAt(ls, loser)
  {
    if ls == [] then [] else Rewires(ls[..|ls| - 1], loser, result) + Rewire(ls[|ls| - 1], loser, result)
  }

  lemma {:induction false} RewiresHas(ls: seq<NetLine>, loser: NetPoint, result: NetPoint, c: Child)
    requires AllAt(ls, loser)
    ensures c in Rewires(ls, loser, result) <==>
              exists l :: l in ls && (c == RemoveElements(l.segment, [], [l])
                                      || (l.OtherPoint(loser).value != result && c == Relink(result, l.OtherPoint(loser).value)))
  {
    if ls != [] {
      var front := ls[..|ls| - 1];
      assert AllAt(front, loser);
      RewiresHas(front, loser, result, c);
      assert ls == front + [ls[|ls| - 1]];
    }
  }

  /** The children for one segment: the lines registered at `loser` re-routed, then `loser` removed. */
  function SameLog(loser: NetPoint, result: NetPoint): seq<Child>
    requires AllAt(loser.lines, loser)
    reads loser
  {
    Rewires(loser.lines, loser, result) + [RemoveElements(loser.segment, [loser], [])]
  }

  /**
   * The composite. It runs its children one at a time and, when one throws,
   * undoes those already run; otherwise it returns true.
   */
  function CombinePointsPlan(loser: NetPoint, result: NetPoint, pts: seq<NetPoint>, lines: seq<NetLine>, labels: seq<NetLabel>): Plan
    requires loser.segment == result.segment ==> AllAt(loser.lines, loser)
    reads loser, pts, labels
  {
    if loser.segment != result.segment then Plan(CrossLog(loser, result, pts, lines, labels), None, true)
    else Plan(SameLog(loser, result), None, true)
  }

  // ---------------------------------------------------------------------------
  // What the children do
  // ---------------------------------------------------------------------------

  /** The stage of the two-segment case a child belongs to. */
  function CrossPhase(c: Child): nat
  {
    match c
    case SegmentRemove(_) => 0
    case AddElements(_, points, _) => if points != [] then 1 else 2
    case LabelAdd(_, _) => 3
    case _ => 4
  }

  lemma {:induction false} PointCopiesPhase(pts: seq<NetPoint>, loser: NetPoint, target: NetSegment)
    ensures forall c :: c in PointCopies(pts, loser, target) ==> CrossPhase(c) == 1
  {
    if pts != [] {
      PointCopiesPhase(pts[..|pts| - 1], loser, target);
    }
  }

  lemma {:induction false} LineCopiesPhase(lines: seq<NetLine>, loser: NetPoint, result: NetPoint, target: NetSegment)
    ensures forall c :: c in LineCopies(lines, loser, result, target) ==> CrossPhase(c) == 2
  {
    if lines != [] {
      LineCopiesPhase(lines[..|lines| - 1], loser, result, target);
    }
  }

  lemma {:induction false} LabelCopiesPhase(labels: seq<NetLabel>, target: NetSegment)
    ensures forall c :: c in LabelCopies(labels, target) ==> CrossPhase(c) == 3
  {
    if labels != [] {
      LabelCopiesPhase(labels[..|labels| - 1], target);
    }
  }

  /**
   * Two segments: the losing segment is removed first; then the points are
   * copied, then the lines, then the labels, everything into the resulting
   * segment.
   */
  lemma CrossOrder(loser: NetPoint, result: NetPoint, pts: seq<NetPoint>, lines: seq<NetLine>, labels: seq<NetLabel>)
    ensures var log := CrossLog(loser, result, pts, lines, labels);
            log[0] == SegmentRemove(loser.segment) && InPhaseOrder(log, CrossPhase)
            && forall i :: 0 < i < |log| ==> CrossPhase(log[i]) > 0
  {
    var target := result.segment;
    var ps := PointCopies(pts, loser, target);
    var ls := LineCopies(lines, loser, result, target);
    var bs := LabelCopies(labels, target);
    PointCopiesPhase(pts, loser, target);
    LineCopiesPhase(lines, loser, result, target);
    LabelCopiesPhase(labels, target);
    CrossChain([SegmentRemove(loser.segment)], ps, ls, bs);
    assert CrossLog(loser, result, pts, lines, labels) == [SegmentRemove(loser.segment)] + ps + ls + bs;
  }

  /** A head of phase 0 followed by blocks of phases 1, 2 and 3. */
  lemma CrossChain(head: seq<Child>, ps: seq<Child>, ls: seq<Child>, bs: seq<Child>)
    requires |head| == 1 && CrossPhase(head[0]) == 0
    requires forall c :: c in ps ==> CrossPhase(c) == 1
    requires forall c :: c in ls ==> CrossPhase(c) == 2
    requires forall c :: c in bs ==> CrossPhase(c) == 3
    ensures var log := head + ps + ls + bs;
            InPhaseOrder(log, CrossPhase) && forall i :: 0 < i < |log| ==> CrossPhase(log[i]) > 0
  {
    assert OrderedUpTo(head, CrossPhase, 0) by {
      assert head[..0] == [];
    }
    OrderedAppend(head, ps, CrossPhase, 0, 1);
    OrderedAppend(head + ps, ls, CrossPhase, 1, 2);
    OrderedAppend(head + ps + ls, bs, CrossPhase, 2, 3);
    OrderedUpToMeans(head + ps + ls + bs, CrossPhase, 3);
    AfterHead(head, ps, ls, bs);
  }

  lemma AfterHead(head: seq<Child>, ps: seq<Child>, ls: seq<Child>, bs: seq<Child>)
    requires |head| == 1
    requires forall c :: c in ps + ls + bs ==> CrossPhase(c) > 0
    ensures forall i :: 0 < i < |head + ps + ls + bs| ==> CrossPhase((head + ps + ls + bs)[i]) > 0
  {
    var log := head + ps + ls + bs;
    var rest := ps + ls + bs;
    assert log == head + rest;
    forall i | 0 < i < |log| ensures CrossPhase(log[i]) > 0 {
      assert log[i] == rest[i - 1] && rest[i - 1] in rest;
    }
  }

  /**
   * Two segments: exactly the points other than `loser` are copied, each on
   * its pin or at its position; every line is copied between the stand-ins
   * of its end points, and a copied end point other than `loser` has its own
   * copy in the log; the labels are copied at their positions.
   */
  lemma CrossContents(loser: NetPoint, result: NetPoint, pts: seq<NetPoint>, lines: seq<NetLine>, labels: seq<NetLabel>)
    requires forall l :: l in lines ==> l.start in pts && l.end in pts
    ensures var log := CrossLog(loser, result, pts, lines, labels);
            (forall q :: PointCopy(q, result.segment) in log <==> q in pts && q != loser)
            && (forall l :: l in lines ==> LineCopy(l, loser, result, result.segment) in log)
            && (forall l, q :: l in lines && (q == l.start || q == l.end) ==>
                  if q == loser then RefOf(q, loser, result) == Existing(result)
                  else RefOf(q, loser, result) == CopyOf(q) && PointCopy(q, result.segment) in log)
            && (forall pos :: LabelAdd(result.segment, pos) in log <==> exists k :: 0 <= k < |labels| && labels[k].position == pos)
  {
    var target := result.segment;
    var log := CrossLog(loser, result, pts, lines, labels);
    var ps := PointCopies(pts, loser, target);
    var ls := LineCopies(lines, loser, result, target);
    var bs := LabelCopies(labels, target);
    assert log == [SegmentRemove(loser.segment)] + ps + ls + bs;
    forall q ensures PointCopy(q, target) in log <==> q in pts && q != loser {
      PointCopiesHas(pts, loser, target, PointCopy(q, target));
      LineCopiesHas(lines, loser, result, target, PointCopy(q, target));
      LabelCopiesHas(labels, target, PointCopy(q, target));
    }
    forall l | l in lines ensures LineCopy(l, loser, result, target) in log {
      LineCopiesHas(lines, loser, result, target, LineCopy(l, loser, result, target));
    }
    forall pos ensures LabelAdd(target, pos) in log <==> exists k :: 0 <= k < |labels| && labels[k].position == pos {
      PointCopiesHas(pts, loser, target, LabelAdd(target, pos));
      LineCopiesHas(lines, loser, result, target, LabelAdd(target, pos));
      LabelCopiesHas(labels, target, LabelAdd(target, pos));
    }
  }

  /**
   * One segment: `loser` is removed as the last child, after every line
   * registered at it; only those lines are removed, and every line added
   * runs from `result` to the other end of one of them, never back to
   * `result` itself; each such other end distinct from `result` gets its line.
   */
  lemma SameContents(loser: NetPoint, result: NetPoint)
    requires AllAt(loser.lines, loser)
    ensures var log := SameLog(loser, result);
            var ls := loser.lines;
            |log| > 0 && log[|log| - 1] == RemoveElements(loser.segment, [loser], [])
            && (forall l :: l in ls ==> RemoveElements(l.segment, [], [l]) in log[..|log| - 1])
            && (forall c :: c in log[..|log| - 1] ==>
                  (c.RemoveElements? && c.netPoints == [] && exists l :: l in ls && c == RemoveElements(l.segment, [], [l]))
                  || (c.AddElements? && exists l :: l in ls && l.OtherPoint(loser).value != result && c == Relink(result, l.OtherPoint(loser).value)))
            && (forall l :: l in ls && l.OtherPoint(loser).value != result ==> Relink(result, l.OtherPoint(loser).value) in log)
  {
    var ls := loser.lines;
    var log := SameLog(loser, result);
    var front := Rewires(ls, loser, result);
    assert log[..|log| - 1] == front;
    forall l | l in ls ensures RemoveElements(l.segment, [], [l]) in front {
      RewiresHas(ls, loser, result, RemoveElements(l.segment, [], [l]));
    }
    forall c | c in front
      ensures (c.RemoveElements? && c.netPoints == [] && exists l :: l in ls && c == RemoveElements(l.segment, [], [l]))
              || (c.AddElements? && exists l :: l in ls && l.OtherPoint(loser).value != result && c == Relink(result, l.OtherPoint(loser).value))
    {
      RewiresHas(ls, loser, result, c);
    }
    forall l | l in ls && l.OtherPoint(loser).value != result ensures Relink(result, l.OtherPoint(loser).value) in log {
      RewiresHas(ls, loser, result, Relink(result, l.OtherPoint(loser).value));
    }
  }

  /** No line of the one-segment case is a loop: every added line has two different ends. */
  lemma SameNoLoops(loser: NetPoint, result: NetPoint)
    requires AllAt(loser.lines, loser)
    ensures forall c :: c in SameLog(loser, result) && c.AddElements? ==>
              |c.lines| == 1 && c.lines[0].LineBetween? && c.lines[0].from == Existing(result)
              && c.lines[0].to.Existing? && c.lines[0].to.point != result
  {
    SameContents(loser, result);
    var log := SameLog(loser, result);
    forall c | c in log && c.AddElements?
      ensures |c.lines| == 1 && c.lines[0].LineBetween? && c.lines[0].from == Existing(result)
              && c.lines[0].to.Existing? && c.lines[0].to.point != result
    {
      assert log == log[..|log| - 1] + [log[|log| - 1]];
      assert c in log[..|log| - 1];
    }
  }

  // ---------------------------------------------------------------------------
  // performExecute
  // ---------------------------------------------------------------------------

  /** The loop copying the points, filling the map from old points to their stand-ins. */
  method CopyPoints(acc: seq<Child>, pts: seq<NetPoint>, loser: NetPoint, result: NetPoint)
    returns (r: seq<Child>, netPointMap: map<NetPoint, PointRef>)
    ensures r == acc + PointCopies(pts, loser, result.segment)
    ensures forall q :: q in netPointMap <==> q in pts
    ensures forall q :: q in netPointMap ==> netPointMap[q] == RefOf(q, loser, result)
  {
    r := acc;
    netPointMap := map[];
    for i := 0 to |pts|
      invariant r == acc + PointCopies(pts[..i], loser, result.segment)
      invariant forall q :: q in netPointMap <==> q in pts[..i]
      invariant forall q :: q in netPointMap ==> netPointMap[q] == RefOf(q, loser, result)
    {
      assert pts[..i + 1] == pts[..i] + [pts[i]];
      assert pts[..i + 1][..i] == pts[..i];
      if pts[i] == loser {
        netPointMap := netPointMap[loser := Existing(result)];
      } else {
        r := r + [AddElements(ExistingSegment(result.segment), [NewPoint(pts[i], PlacementOf(pts[i]))], [])];
        netPointMap := netPointMap[pts[i] := CopyOf(pts[i])];
      }
    }
    assert pts[..|pts|] == pts;
  }

  /** The loop copying the lines, looking their end points up in the map. */
  method CopyLines(acc: seq<Child>, lines: seq<NetLine>, netPointMap: map<NetPoint, PointRef>, loser: NetPoint, result: NetPoint)
    returns (r: seq<Child>)
    requires forall l :: l in lines ==> l.start in netPointMap && l.end in netPointMap
    requires forall q :: q in netPointMap ==> netPointMap[q] == RefOf(q, loser, result)
    ensures r == acc + LineCopies(lines, loser, result, result.segment)
  {
    r := acc;
    for i := 0 to |lines|
      invariant r == acc + LineCopies(lines[..i], loser, result, result.segment)
    {
      assert lines[..i + 1][..i] == lines[..i];
      var p1 := netPointMap[lines[i].start];
      var p2 := netPointMap[lines[i].end];
      r := r + [AddElements(ExistingSegment(result.segment), [], [LineBetween(p1, p2)])];
    }
    assert lines[..|lines|] == lines;
  }

  method CopyLabels(acc: seq<Child>, labels: seq<NetLabel>, target: NetSegment) returns (r: seq<Child>)
    ensures r == acc + LabelCopies(labels, target)
  {
    r := acc;
    for i := 0 to |labels|
      invariant r == acc + LabelCopies(labels[..i], target)
    {
      assert labels[..i + 1][..i] == labels[..i];
      r := r + [LabelAdd(target, labels[i].position)];
    }
    assert labels[..|labels|] == labels;
  }

  /** The loop over the lines registered at the losing point. */
  method AppendRewires(acc: seq<Child>, ls: seq<NetLine>, loser: NetPoint, result: NetPoint) returns (r: seq<Child>)
    requires AllAt(ls, loser)
    ensures r == acc + Rewires(ls, loser, result)
  {
    r := acc;
    for i := 0 to |ls|
      invariant r == acc + Rewires(ls[..i], loser, result)
    {
      assert ls[..i + 1][..i] == ls[..i];
      var otherPoint := ls[i].OtherPoint(loser).value;
      r := r + [RemoveElements(ls[i].segment, [], [ls[i]])];
      if otherPoint != result {
        r := r + [AddElements(ExistingSegment(result.segment), [], [LineBetween(Existing(result), Existing(otherPoint))])];
      }
    }
    assert ls[..|ls|] == ls;
  }

  /**
   * performExecute of the composite; `pts`, `lines` and `labels` list the
   * points, lines and labels of the losing point's segment.
   */
  method Execute(loser: NetPoint, result: NetPoint, pts: seq<NetPoint>, lines: seq<NetLine>, labels: seq<NetLabel>)
    returns (p: Plan)
    requires Distinct(pts) && Elements(pts) == loser.segment.netPoints
    requires Distinct(lines) && Elements(lines) == loser.segment.netLines
    requires Distinct(labels) && Elements(labels) == loser.segment.netLabels
    requires forall l :: l in lines ==> l.start in pts && l.end in pts
    requires loser.segment == result.segment ==> AllAt(loser.lines, loser)
    ensures p == CombinePointsPlan(loser, result, pts, lines, labels)
  {
    var log: seq<Child>;
    if loser.segment != result.segment {
      log := [SegmentRemove(loser.segment)];
      var netPointMap;
      log, netPointMap := CopyPoints(log, pts, loser, result);
      log := CopyLines(log, lines, netPointMap, loser, result);
      log := CopyLabels(log, labels, result.segment);
    } else {
      log := AppendRewires([], loser.lines, loser, result);
      log := log + [RemoveElements(loser.segment, [loser], [])];
    }
    p := Plan(log, None, true);
  }
}
