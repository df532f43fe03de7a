/**
 * Splitting what is left of a net segment into its connected pieces.
 *
 * The flood fill starts at one point and follows the lines registered at each
 * point, as long as the line is still available, into the line's other end
 * point when that is still available and not yet visited. The partition loop
 * repeatedly takes some point that is left, floods from it, and removes what
 * was found. The proofs show that each piece is exactly the connected
 * component of its points, and that the pieces partition the points and lines
 * that were left.
 */
module Connectivity {
  import opened Base
  import opened Items

  /** A line touches a point when the point is one of its two ends. */
  predicate Touches(l: NetLine, q: NetPoint)
  {
    l.start == q || l.end == q
  }

  /** The end of `l` opposite to `q` (a line's getOtherPoint, for a touching line). */
  function Other(l: NetLine, q: NetPoint): (r: NetPoint)
    ensures Touches(l, q) ==> {q, r} == {l.start, l.end} && l.OtherPoint(q) == Some(r)
  {
    if l.start == q then l.end else l.start
  }

  /** Going over a line and back returns to where one started. */
  lemma OtherInvolutive(l: NetLine, q: NetPoint)
    requires Touches(l, q)
    ensures Touches(l, Other(l, q)) && Other(l, Other(l, q)) == q
  {
  }

  /**
   * Lines are registered exactly at their end points: for the available
   * points and lines, a line is in a point's registered list iff it touches it.
   */
  ghost predicate RegisteredAtEnds(pts: set<NetPoint>, lines: set<NetLine>)
    reads pts
  {
    forall q, l :: q in pts && l in lines ==> (l in q.lines <==> Touches(l, q))
  }

  /** Every line ends at points of the set. */
  predicate EndsIn(lines: set<NetLine>, pts: set<NetPoint>)
  {
    forall l :: l in lines ==> l.start in pts && l.end in pts
  }

  /**
   * `ps` is a walk through `pts` along `lines`: step `i` goes from `ps[i]`
   * over `ls[i]` to its other end `ps[i + 1]`.
   */
  ghost predicate IsWalk(older ps: seq<NetPoint>, older ls: seq<NetLine>, pts: set<NetPoint>, lines: set<NetLine>)
  {
    |ps| == |ls| + 1
    && (forall i :: 0 <= i < |ps| ==> ps[i] in pts)
    && (forall i :: 0 <= i < |ls| ==> ls[i] in lines && Touches(ls[i], ps[i]) && ps[i + 1] == Other(ls[i], ps[i]))
  }

  ghost predicate Reachable(a: NetPoint, b: NetPoint, pts: set<NetPoint>, lines: set<NetLine>)
  {
    exists ps, ls :: IsWalk(ps, ls, pts, lines) && ps[0] == a && ps[|ps| - 1] == b
  }

  /** A piece of a segment: its points and its lines. */
  datatype SubSegment = SubSegment(netPoints: set<NetPoint>, netLines: set<NetLine>)

  /**
   * Nothing leaves the piece: every line of `lines` at one of its points
   * belongs to it and ends in it, and each of its lines touches one of its points.
   */
  ghost predicate Closed(c: SubSegment, lines: set<NetLine>)
  {
    (forall q, l :: q in c.netPoints && l in lines && Touches(l, q) ==> l in c.netLines && Other(l, q) in c.netPoints)
    && (forall l :: l in c.netLines ==> l in lines && (l.start in c.netPoints || l.end in c.netPoints))
  }

  /** Any two points of the piece are joined by a walk through `pts` along `lines`. */
  ghost predicate Connected(c: SubSegment, pts: set<NetPoint>, lines: set<NetLine>)
  {
    forall a, b :: a in c.netPoints && b in c.netPoints ==> Reachable(a, b, pts, lines)
  }

  /** A connected component of the graph of `pts` and `lines`. */
  ghost predicate IsComponent(c: SubSegment, pts: set<NetPoint>, lines: set<NetLine>)
  {
    c.netPoints != {} && c.netPoints <= pts && Closed(c, lines) && Connected(c, pts, lines)
  }

  // ---------------------------------------------------------------------------
  // Walks
  // ---------------------------------------------------------------------------

  lemma ReachableRefl(a: NetPoint, pts: set<NetPoint>, lines: set<NetLine>)
    requires a in pts
    ensures Reachable(a, a, pts, lines)
  {
    assert IsWalk([a], [], pts, lines);
  }

  /** One step along a line in front of a walk. */
  lemma ReachablePrepend(a: NetPoint, l: NetLine, b: NetPoint, c: NetPoint, pts: set<NetPoint>, lines: set<NetLine>)
    requires a in pts && l in lines && Touches(l, a) && b == Other(l, a)
    requires Reachable(b, c, pts, lines)
    ensures Reachable(a, c, pts, lines)
  {
    var ps, ls :| IsWalk(ps, ls, pts, lines) && ps[0] == b && ps[|ps| - 1] == c;
    var ps', ls' := [a] + ps, [l] + ls;
    assert IsWalk(ps', ls', pts, lines) by {
      forall i | 0 <= i < |ls'|
        ensures ls'[i] in lines && Touches(ls'[i], ps'[i]) && ps'[i + 1] == Other(ls'[i], ps'[i])
      {
        if i > 0 { assert ls'[i] == ls[i - 1] && ps'[i] == ps[i - 1] && ps'[i + 1] == ps[i]; }
      }
    }
    assert ps'[|ps'| - 1] == ps[|ps| - 1];
  }

  /** Two walks joined end to start. */
  lemma {:induction false} ReachableTrans(a: NetPoint, b: NetPoint, c: NetPoint, pts: set<NetPoint>, lines: set<NetLine>)
    requires Reachable(a, b, pts, lines) && Reachable(b, c, pts, lines)
    ensures Reachable(a, c, pts, lines)
  {
    var ps, ls :| IsWalk(ps, ls, pts, lines) && ps[0] == a && ps[|ps| - 1] == b;
    WalkThenReachable(ps, ls, c, pts, lines);
  }

  lemma {:induction false} WalkThenReachable(ps: seq<NetPoint>, ls: seq<NetLine>, c: NetPoint, pts: set<NetPoint>, lines: set<NetLine>)
    requires IsWalk(ps, ls, pts, lines) && Reachable(ps[|ps| - 1], c, pts, lines)
    ensures Reachable(ps[0], c, pts, lines)
    decreases |ls|
  {
    if |ls| > 0 {
      assert IsWalk(ps[1..], ls[1..], pts, lines) by {
        forall i | 0 <= i < |ls[1..]|
          ensures ls[1..][i] in lines && Touches(ls[1..][i], ps[1..][i]) && ps[1..][i + 1] == Other(ls[1..][i], ps[1..][i])
        {
          assert ls[1..][i] == ls[i + 1] && ps[1..][i] == ps[i + 1] && ps[1..][i + 1] == ps[i + 2];
        }
      }
      WalkThenReachable(ps[1..], ls[1..], c, pts, lines);
      ReachablePrepend(ps[0], ls[0], ps[1], c, pts, lines);
    }
  }

  /** Walking backwards: the graph is undirected. */
  lemma {:induction false} ReachableSym(a: NetPoint, b: NetPoint, pts: set<NetPoint>, lines: set<NetLine>)
    requires Reachable(a, b, pts, lines)
    ensures Reachable(b, a, pts, lines)
  {
    var ps, ls :| IsWalk(ps, ls, pts, lines) && ps[0] == a && ps[|ps| - 1] == b;
    WalkReversed(ps, ls, pts, lines);
  }

  lemma {:induction false} WalkReversed(ps: seq<NetPoint>, ls: seq<NetLine>, pts: set<NetPoint>, lines: set<NetLine>)
    requires IsWalk(ps, ls, pts, lines)
    ensures Reachable(ps[|ps| - 1], ps[0], pts, lines)
    decreases |ls|
  {
    if |ls| == 0 {
      ReachableRefl(ps[0], pts, lines);
    } else {
      var n := |ls|;
      var front, frontLines := ps[..n], ls[..n - 1];
      assert IsWalk(front, frontLines, pts, lines) by {
        forall i | 0 <= i < |frontLines|
          ensures frontLines[i] in lines && Touches(frontLines[i], front[i]) && front[i + 1] == Other(frontLines[i], front[i])
        {
          assert frontLines[i] == ls[i] && front[i] == ps[i] && front[i + 1] == ps[i + 1];
        }
      }
      WalkReversed(front, frontLines, pts, lines);
      // the last step, taken backwards
      OtherInvolutive(ls[n - 1], ps[n - 1]);
      ReachablePrepend(ps[n], ls[n - 1], ps[n - 1], ps[0], pts, lines);
    }
  }

  /** A walk through fewer points along fewer lines is one through more. */
  lemma ReachableMono(a: NetPoint, b: NetPoint, pts: set<NetPoint>, lines: set<NetLine>,
                      pts': set<NetPoint>, lines': set<NetLine>)
    requires Reachable(a, b, pts, lines) && pts <= pts' && lines <= lines'
    ensures Reachable(a, b, pts', lines')
  {
    var ps, ls :| IsWalk(ps, ls, pts, lines) && ps[0] == a && ps[|ps| - 1] == b;
    assert IsWalk(ps, ls, pts', lines');
  }

  /** A closed piece holds everything reachable from its points. */
  lemma {:induction false} ClosedHoldsWalk(c: SubSegment, ps: seq<NetPoint>, ls: seq<NetLine>, pts: set<NetPoint>, lines: set<NetLine>)
    requires Closed(c, lines) && IsWalk(ps, ls, pts, lines) && ps[0] in c.netPoints
    ensures ps[|ps| - 1] in c.netPoints
    decreases |ls|
  {
    if |ls| > 0 {
      assert ps[1] in c.netPoints;
      assert IsWalk(ps[1..], ls[1..], pts, lines) by {
        forall i | 0 <= i < |ls[1..]|
          ensures ls[1..][i] in lines && Touches(ls[1..][i], ps[1..][i]) && ps[1..][i + 1] == Other(ls[1..][i], ps[1..][i])
        {
          assert ls[1..][i] == ls[i + 1] && ps[1..][i] == ps[i + 1] && ps[1..][i + 1] == ps[i + 2];
        }
      }
      ClosedHoldsWalk(c, ps[1..], ls[1..], pts, lines);
    }
  }

  /**
   * A component is maximal: its points are exactly the points reachable
   * from any one of them.
   */
  lemma ComponentIsReachSet(c: SubSegment, pts: set<NetPoint>, lines: set<NetLine>, a: NetPoint, b: NetPoint)
    requires IsComponent(c, pts, lines) && a in c.netPoints
    ensures b in c.netPoints <==> Reachable(a, b, pts, lines)
  {
    if Reachable(a, b, pts, lines) {
      var ps, ls :| IsWalk(ps, ls, pts, lines) && ps[0] == a && ps[|ps| - 1] == b;
      ClosedHoldsWalk(c, ps, ls, pts, lines);
    }
  }

  // ---------------------------------------------------------------------------
  // Flood fill
  // ---------------------------------------------------------------------------

  /**
   * findAllConnectedNetPointsAndNetLines: visits `seed` (which must be
   * available and not yet visited), collects every available line registered
   * at it, and recurses into each such line's other end that is available and
   * not yet visited. `visited`/`found` are the output sets so far.
   *
   * Every point it adds is reachable from the seed, has all its available
   * lines collected and all their available other ends visited; every line it
   * adds touches a point it added.
   */
  method FindAllConnected(seed: NetPoint, availPts: set<NetPoint>, availLines: set<NetLine>,
                          visited: set<NetPoint>, found: set<NetLine>)
    returns (pts: set<NetPoint>, lines: set<NetLine>)
    requires seed in availPts && seed !in visited && visited <= availPts
    requires RegisteredAtEnds(availPts, availLines)
    ensures visited + {seed} <= pts <= availPts
    ensures found <= lines && lines - found <= availLines
    ensures forall q, l :: q in pts - visited && l in availLines && Touches(l, q) ==>
              l in lines && (Other(l, q) in availPts ==> Other(l, q) in pts)
    ensures forall l :: l in lines - found ==> l.start in pts - visited || l.end in pts - visited
    ensures forall q :: q in pts - visited ==> Reachable(seed, q, availPts, availLines)
    decreases availPts - visited
  {
    pts := visited + {seed};
    lines := found;
    ReachableRefl(seed, availPts, availLines);
    var registered := seed.lines;
    var i := 0;
    while i < |registered|
      invariant 0 <= i <= |registered|
      invariant visited + {seed} <= pts <= availPts
      invariant found <= lines && lines - found <= availLines
      invariant forall k :: 0 <= k < i && registered[k] in availLines ==>
                  registered[k] in lines && (Other(registered[k], seed) in availPts ==> Other(registered[k], seed) in pts)
      invariant forall q, l :: q in pts - visited - {seed} && l in availLines && Touches(l, q) ==>
                  l in lines && (Other(l, q) in availPts ==> Other(l, q) in pts)
      invariant forall l :: l in lines - found ==> l.start in pts - visited || l.end in pts - visited
      invariant forall q :: q in pts - visited ==> Reachable(seed, q, availPts, availLines)
    {
      var line := registered[i];
      if line in availLines {
        lines := lines + {line};
        assert Touches(line, seed);
        var p2 := line.OtherPoint(seed).value;
        assert p2 == Other(line, seed);
        if p2 in availPts && p2 !in pts {
          ghost var before := pts;
          pts, lines := FindAllConnected(p2, availPts, availLines, pts, lines);
          forall q | q in pts - before ensures Reachable(seed, q, availPts, availLines) {
            ReachablePrepend(seed, line, p2, q, availPts, availLines);
          }
        }
      }
      i := i + 1;
    }
    forall l | l in availLines && Touches(l, seed)
      ensures l in lines && (Other(l, seed) in availPts ==> Other(l, seed) in pts)
    {
      assert l in registered;
      var k :| 0 <= k < |registered| && registered[k] == l;
    }
  }

  // ---------------------------------------------------------------------------
  // Partition
  // ---------------------------------------------------------------------------

  function PointsOf(comps: seq<SubSegment>): set<NetPoint>
  {
    if comps == [] then {} else PointsOf(comps[..|comps| - 1]) + comps[|comps| - 1].netPoints
  }

  function LinesOf(comps: seq<SubSegment>): set<NetLine>
  {
    if comps == [] then {} else LinesOf(comps[..|comps| - 1]) + comps[|comps| - 1].netLines
  }

  lemma {:induction false} InPointsOf(comps: seq<SubSegment>, q: NetPoint)
    ensures q in PointsOf(comps) <==> exists k :: 0 <= k < |comps| && q in comps[k].netPoints
  {
    if comps != [] {
      InPointsOf(comps[..|comps| - 1], q);
      if q in PointsOf(comps[..|comps| - 1]) {
        var k :| 0 <= k < |comps| - 1 && q in comps[..|comps| - 1][k].netPoints;
        assert comps[..|comps| - 1][k] == comps[k];
      }
      forall k | 0 <= k < |comps| - 1 ensures comps[..|comps| - 1][k] == comps[k] { }
    }
  }

  lemma {:induction false} InLinesOf(comps: seq<SubSegment>, l: NetLine)
    ensures l in LinesOf(comps) <==> exists k :: 0 <= k < |comps| && l in comps[k].netLines
  {
    if comps != [] {
      InLinesOf(comps[..|comps| - 1], l);
      if l in LinesOf(comps[..|comps| - 1]) {
        var k :| 0 <= k < |comps| - 1 && l in comps[..|comps| - 1][k].netLines;
        assert comps[..|comps| - 1][k] == comps[k];
      }
      forall k | 0 <= k < |comps| - 1 ensures comps[..|comps| - 1][k] == comps[k] { }
    }
  }

  /** Pieces share no point and no line. */
  ghost predicate PairwiseDisjoint(comps: seq<SubSegment>)
  {
    forall i, j :: 0 <= i < j < |comps| ==>
      comps[i].netPoints !! comps[j].netPoints && comps[i].netLines !! comps[j].netLines
  }

  /**
   * getNonCohesiveNetSegmentSubSegments: the points and lines left of a
   * segment (`remainingPts`, `remainingLines`) split into their connected
   * components, which are pairwise disjoint and together cover all of them.
   * It requires that the lines left end at points left and are registered
   * exactly at their end points.
   */
  method SubSegments(remainingPts: set<NetPoint>, remainingLines: set<NetLine>) returns (comps: seq<SubSegment>)
    requires RegisteredAtEnds(remainingPts, remainingLines) && EndsIn(remainingLines, remainingPts)
    ensures PointsOf(comps) == remainingPts && LinesOf(comps) == remainingLines
    ensures PairwiseDisjoint(comps)
    ensures forall k :: 0 <= k < |comps| ==> IsComponent(comps[k], remainingPts, remainingLines)
  {
    var pts, lines := remainingPts, remainingLines;
    comps := [];
    while pts != {}
      invariant Partial(comps, pts, lines, remainingPts, remainingLines)
      decreases pts
    {
      comps, pts, lines := TakeComponent(comps, pts, lines, remainingPts, remainingLines);
    }
  }

  /** The loop state of getNonCohesiveNetSegmentSubSegments: components found so far, points and lines still to take. */
  ghost predicate Partial(comps: seq<SubSegment>, pts: set<NetPoint>, lines: set<NetLine>,
                          remainingPts: set<NetPoint>, remainingLines: set<NetLine>)
    reads remainingPts
  {
    && RegisteredAtEnds(remainingPts, remainingLines) && EndsIn(remainingLines, remainingPts)
    && pts <= remainingPts && lines <= remainingLines
    && PointsOf(comps) == remainingPts - pts && LinesOf(comps) == remainingLines - lines
    && EndsIn(lines, pts)
    && PairwiseDisjoint(comps)
    && forall k :: 0 <= k < |comps| ==> IsComponent(comps[k], remainingPts, remainingLines)
  }

  /** One pass of that loop: the flood fill from any point left finds the next component. */
  method TakeComponent(comps0: seq<SubSegment>, pts0: set<NetPoint>, lines0: set<NetLine>,
                       remainingPts: set<NetPoint>, remainingLines: set<NetLine>)
    returns (comps: seq<SubSegment>, pts: set<NetPoint>, lines: set<NetLine>)
    requires pts0 != {} && Partial(comps0, pts0, lines0, remainingPts, remainingLines)
    ensures Partial(comps, pts, lines, remainingPts, remainingLines)
    ensures pts < pts0
  {
    var seed :| seed in pts0;
    assert RegisteredAtEnds(pts0, lines0);
    var cp, cl := FindAllConnected(seed, pts0, lines0, {}, {});
    comps, pts, lines := comps0 + [SubSegment(cp, cl)], pts0 - cp, lines0 - cl;
    PartialStep(comps0, SubSegment(cp, cl), seed, pts0, lines0, remainingPts, remainingLines);
  }

  /** The component found from `seed` extends the loop state. */
  lemma PartialStep(comps: seq<SubSegment>, c: SubSegment, seed: NetPoint, pts: set<NetPoint>, lines: set<NetLine>,
                    remainingPts: set<NetPoint>, remainingLines: set<NetLine>)
    requires Partial(comps, pts, lines, remainingPts, remainingLines)
    requires seed in c.netPoints && c.netPoints <= pts && c.netLines <= lines
    requires forall q, l :: q in c.netPoints && l in lines && Touches(l, q) ==>
               l in c.netLines && (Other(l, q) in pts ==> Other(l, q) in c.netPoints)
    requires forall l :: l in c.netLines ==> l.start in c.netPoints || l.end in c.netPoints
    requires forall q :: q in c.netPoints ==> Reachable(seed, q, pts, lines)
    ensures Partial(comps + [c], pts - c.netPoints, lines - c.netLines, remainingPts, remainingLines)
  {
    NewComponent(comps, c, seed, pts, lines, remainingPts, remainingLines);
    AppendDisjoint(comps, c, pts, lines, remainingPts, remainingLines);
    var all := comps + [c];
    forall k | 0 <= k < |all| ensures IsComponent(all[k], remainingPts, remainingLines) {
      if k < |comps| { assert all[k] == comps[k]; }
    }
  }

  /** The piece the flood fill found is a component of the whole remainder, and the rest stays well formed. */
  lemma NewComponent(comps: seq<SubSegment>, c: SubSegment, seed: NetPoint, pts: set<NetPoint>, lines: set<NetLine>,
                     remainingPts: set<NetPoint>, remainingLines: set<NetLine>)
    requires pts <= remainingPts && lines <= remainingLines
    requires PointsOf(comps) == remainingPts - pts && LinesOf(comps) == remainingLines - lines
    requires EndsIn(remainingLines, remainingPts) && EndsIn(lines, pts)
    requires forall k :: 0 <= k < |comps| ==> IsComponent(comps[k], remainingPts, remainingLines)
    requires seed in c.netPoints && c.netPoints <= pts && c.netLines <= lines
    requires forall q, l :: q in c.netPoints && l in lines && Touches(l, q) ==>
               l in c.netLines && (Other(l, q) in pts ==> Other(l, q) in c.netPoints)
    requires forall l :: l in c.netLines ==> l.start in c.netPoints || l.end in c.netPoints
    requires forall q :: q in c.netPoints ==> Reachable(seed, q, pts, lines)
    ensures IsComponent(c, remainingPts, remainingLines)
    ensures EndsIn(lines - c.netLines, pts - c.netPoints)
  {
    // a remaining line at a point of `c` was not taken by an earlier piece
    forall q, l | q in c.netPoints && l in remainingLines && Touches(l, q)
      ensures l in c.netLines && Other(l, q) in c.netPoints
    {
      if l !in lines {
        InLinesOf(comps, l);
        var k :| 0 <= k < |comps| && l in comps[k].netLines;
        assert Closed(comps[k], remainingLines);
        var e := if l.start in comps[k].netPoints then l.start else l.end;
        assert e in comps[k].netPoints && Touches(l, e);
        assert Other(l, e) in comps[k].netPoints;
        assert q == e || q == Other(l, e);
        InPointsOf(comps, q);
        assert false;
      }
    }
    forall a, b | a in c.netPoints && b in c.netPoints ensures Reachable(a, b, remainingPts, remainingLines) {
      ReachableSym(seed, a, pts, lines);
      ReachableTrans(a, seed, b, pts, lines);
      ReachableMono(a, b, pts, lines, remainingPts, remainingLines);
    }
    forall l | l in lines - c.netLines ensures l.start in pts - c.netPoints && l.end in pts - c.netPoints {
      if l.start in c.netPoints { assert Touches(l, l.start); }
      if l.end in c.netPoints { assert Touches(l, l.end); }
    }
  }

  /** The new piece shares nothing with the earlier ones. */
  lemma AppendDisjoint(comps: seq<SubSegment>, c: SubSegment, pts: set<NetPoint>, lines: set<NetLine>,
                       remainingPts: set<NetPoint>, remainingLines: set<NetLine>)
    requires PairwiseDisjoint(comps)
    requires PointsOf(comps) == remainingPts - pts && LinesOf(comps) == remainingLines - lines
    requires c.netPoints <= pts && c.netLines <= lines
    ensures PairwiseDisjoint(comps + [c])
    ensures PointsOf(comps + [c]) == PointsOf(comps) + c.netPoints
    ensures LinesOf(comps + [c]) == LinesOf(comps) + c.netLines
  {
    var all := comps + [c];
    assert all[..|all| - 1] == comps;
    forall i, j | 0 <= i < j < |all|
      ensures all[i].netPoints !! all[j].netPoints && all[i].netLines !! all[j].netLines
    {
      assert all[i] == comps[i];
      if j < |comps| {
        assert all[j] == comps[j];
      } else {
        NewPieceApart(comps, i, c, pts, lines, remainingPts, remainingLines);
      }
    }
  }

  /** An earlier piece lies outside what the new one was taken from. */
  lemma NewPieceApart(comps: seq<SubSegment>, i: int, c: SubSegment, pts: set<NetPoint>, lines: set<NetLine>,
                      remainingPts: set<NetPoint>, remainingLines: set<NetLine>)
    requires 0 <= i < |comps|
    requires PointsOf(comps) == remainingPts - pts && LinesOf(comps) == remainingLines - lines
    requires c.netPoints <= pts && c.netLines <= lines
    ensures comps[i].netPoints !! c.netPoints && comps[i].netLines !! c.netLines
  {
    forall q | q in comps[i].netPoints ensures q !in c.netPoints {
      InPointsOf(comps, q);
    }
    forall l | l in comps[i].netLines ensures l !in c.netLines {
      InLinesOf(comps, l);
    }
  }
}
