/**
 * Combining two net signals: every item of the net signal to be removed is
 * taken out of its schematic or board, given the resulting net signal, and
 * put back; component signals are moved over; finally the emptied net
 * signal is removed from the circuit.
 */
module CombineNetSignalsCmd {
  import opened Base
  import opened Items
  import opened Children
  import opened BoardDetach

  /** The lines of each board point in turn, repetitions included. */
  function PointsLines(lines: BoardNetPoint -> seq<BoardNetLine>, pts: seq<BoardNetPoint>): seq<BoardNetLine>
  {
    if pts == [] then [] else PointsLines(lines, pts[..|pts| - 1]) + lines(pts[|pts| - 1])
  }

  lemma {:induction false} PointsLinesHas(lines: BoardNetPoint -> seq<BoardNetLine>, pts: seq<BoardNetPoint>, l: BoardNetLine)
    ensures l in PointsLines(lines, pts) <==> exists k :: 0 <= k < |pts| && l in lines(pts[k])
  {
    if pts != [] {
      var front := pts[..|pts| - 1];
      PointsLinesHas(lines, front, l);
      if exists k :: 0 <= k < |front| && l in lines(front[k]) {
        var k :| 0 <= k < |front| && l in lines(front[k]);
        assert front[k] == pts[k];
      }
      if exists k :: 0 <= k < |pts| && l in lines(pts[k]) {
        var k :| 0 <= k < |pts| && l in lines(pts[k]);
        if k < |front| { assert front[k] == pts[k]; }
      }
    }
  }

  /**
   * The board lines taken away temporarily: every line of every board point
   * of the signal, each once, in order of first appearance.
   */
  function BoardLines(c: Circuit, s: NetSignal): (r: seq<BoardNetLine>)
    ensures Distinct(r)
    ensures forall l :: l in r <==> exists k :: 0 <= k < |c.signalBoardPoints(s)| && l in c.boardPointLines(c.signalBoardPoints(s)[k])
  {
    var pts := c.signalBoardPoints(s);
    var r := InsertAll([], PointsLines(c.boardPointLines, pts));
    InsertAllElements([], PointsLines(c.boardPointLines, pts));
    forall l ensures l in r <==> exists k :: 0 <= k < |pts| && l in c.boardPointLines(pts[k]) {
      PointsLinesHas(c.boardPointLines, pts, l);
    }
    r
  }

  /**
   * The children of combining the net signal `removed` into `result`, in the
   * order they run, given the removed signal's schematic segments, vias,
   * board points, the lines at those points and its component signals.
   */
  function CombineLog(segs: seq<NetSegment>, vias: seq<Via>, pts: seq<BoardNetPoint>, lines: seq<BoardNetLine>,
                      cmpSigs: seq<ComponentSignal>, removed: NetSignal, result: NetSignal): seq<Child>
  {
    SegmentRemovals(segs) + LinesRemoval(lines) + PointRemovals(pts) + ViaRemovals(vias)
    + CmpSigMoves(cmpSigs, result)
    + ViaReAdds(vias, result) + PointReAdds(pts, result) + LineReAdds(lines) + SegmentReAdds(segs, result)
    + [NetSignalRemove(removed)]
  }

  /** The composite, read from the circuit; it never aborts by itself and returns true. */
  function CombinePlan(c: Circuit, removed: NetSignal, result: NetSignal): Plan
  {
    Plan(CombineLog(c.signalSegments(removed), c.signalVias(removed), c.signalBoardPoints(removed),
                    BoardLines(c, removed), c.signalCmpSigs(removed), removed, result), None, true)
  }

  /** The schematic segments taken out, one child each. */
  function SegmentRemovals(segs: seq<NetSegment>): seq<Child>
  {
    if segs == [] then [] else SegmentRemovals(segs[..|segs| - 1]) + [SegmentRemove(segs[|segs| - 1])]
  }

  lemma {:induction false} SegmentRemovalsHas(segs: seq<NetSegment>, c: Child)
    ensures c in SegmentRemovals(segs) <==> c.SegmentRemove? && c.segment in segs
  {
    if segs != [] {
      SegmentRemovalsHas(segs[..|segs| - 1], c);
      assert segs == segs[..|segs| - 1] + [segs[|segs| - 1]];
    }
  }

  method AppendSegmentRemovals(acc: seq<Child>, segs: seq<NetSegment>) returns (r: seq<Child>)
    ensures r == acc + SegmentRemovals(segs)
  {
    r := acc;
    var i := 0;
    while i < |segs|
      invariant 0 <= i <= |segs|
      invariant r == acc + SegmentRemovals(segs[..i])
    {
      assert segs[..i + 1][..i] == segs[..i];
      r := r + [SegmentRemove(segs[i])];
      i := i + 1;
    }
    assert segs[..i] == segs;
  }

  /** The board points taken out, one child each. */
  function PointRemovals(pts: seq<BoardNetPoint>): seq<Child>
  {
    if pts == [] then [] else PointRemovals(pts[..|pts| - 1]) + [BoardPointRemove(pts[|pts| - 1])]
  }

  lemma {:induction false} PointRemovalsHas(pts: seq<BoardNetPoint>, c: Child)
    ensures c in PointRemovals(pts) <==> c.BoardPointRemove? && c.boardPoint in pts
  {
    if pts != [] {
      PointRemovalsHas(pts[..|pts| - 1], c);
      assert pts == pts[..|pts| - 1] + [pts[|pts| - 1]];
    }
  }

  method AppendPointRemovals(acc: seq<Child>, pts: seq<BoardNetPoint>) returns (r: seq<Child>)
    ensures r == acc + PointRemovals(pts)
  {
    r := acc;
    var i := 0;
    while i < |pts|
      invariant 0 <= i <= |pts|
      invariant r == acc + PointRemovals(pts[..i])
    {
      assert pts[..i + 1][..i] == pts[..i];
      r := r + [BoardPointRemove(pts[i])];
      i := i + 1;
    }
    assert pts[..i] == pts;
  }

  /** The vias taken out, one child each. */
  function ViaRemovals(vias: seq<Via>): seq<Child>
  {
    if vias == [] then [] else ViaRemovals(vias[..|vias| - 1]) + [ViaRemove(vias[|vias| - 1])]
  }

  lemma {:induction false} ViaRemovalsHas(vias: seq<Via>, c: Child)
    ensures c in ViaRemovals(vias) <==> c.ViaRemove? && c.via in vias
  {
    if vias != [] {
      ViaRemovalsHas(vias[..|vias| - 1], c);
      assert vias == vias[..|vias| - 1] + [vias[|vias| - 1]];
    }
  }

  method AppendViaRemovals(acc: seq<Child>, vias: seq<Via>) returns (r: seq<Child>)
    ensures r == acc + ViaRemovals(vias)
  {
    r := acc;
    var i := 0;
    while i < |vias|
      invariant 0 <= i <= |vias|
      invariant r == acc + ViaRemovals(vias[..i])
    {
      assert vias[..i + 1][..i] == vias[..i];
      r := r + [ViaRemove(vias[i])];
      i := i + 1;
    }
    assert vias[..i] == vias;
  }

  /** Each component signal set to the resulting net signal. */
  function CmpSigMoves(cmpSigs: seq<ComponentSignal>, result: NetSignal): seq<Child>
  {
    if cmpSigs == [] then [] else CmpSigMoves(cmpSigs[..|cmpSigs| - 1], result) + [CompSigSetNetSignal(cmpSigs[|cmpSigs| - 1], Some(result))]
  }

  lemma {:induction false} CmpSigMovesHas(cmpSigs: seq<ComponentSignal>, result: NetSignal, c: Child)
    ensures c in CmpSigMoves(cmpSigs, result) <==> c.CompSigSetNetSignal? && c.cmpSig in cmpSigs && c.netSignal == Some(result)
  {
    if cmpSigs != [] {
      CmpSigMovesHas(cmpSigs[..|cmpSigs| - 1], result, c);
      assert cmpSigs == cmpSigs[..|cmpSigs| - 1] + [cmpSigs[|cmpSigs| - 1]];
    }
  }

  method AppendCmpSigMoves(acc: seq<Child>, cmpSigs: seq<ComponentSignal>, result: NetSignal) returns (r: seq<Child>)
    ensures r == acc + CmpSigMoves(cmpSigs, result)
  {
    r := acc;
    var i := 0;
    while i < |cmpSigs|
      invariant 0 <= i <= |cmpSigs|
      invariant r == acc + CmpSigMoves(cmpSigs[..i], result)
    {
      assert cmpSigs[..i + 1][..i] == cmpSigs[..i];
      r := r + [CompSigSetNetSignal(cmpSigs[i], Some(result))];
      i := i + 1;
    }
    assert cmpSigs[..i] == cmpSigs;
  }

  /** The board lines put back, one child each. */
  function LineReAdds(lines: seq<BoardNetLine>): seq<Child>
  {
    if lines == [] then [] else LineReAdds(lines[..|lines| - 1]) + [BoardLineAdd(lines[|lines| - 1])]
  }

  lemma {:induction false} LineReAddsHas(lines: seq<BoardNetLine>, c: Child)
    ensures c in LineReAdds(lines) <==> c.BoardLineAdd? && c.boardLine in lines
  {
    if lines != [] {
      LineReAddsHas(lines[..|lines| - 1], c);
      assert lines == lines[..|lines| - 1] + [lines[|lines| - 1]];
    }
  }

  method AppendLineReAdds(acc: seq<Child>, lines: seq<BoardNetLine>) returns (r: seq<Child>)
    ensures r == acc + LineReAdds(lines)
  {
    r := acc;
    var i := 0;
    while i < |lines|
      invariant 0 <= i <= |lines|
      invariant r == acc + LineReAdds(lines[..i])
    {
      assert lines[..i + 1][..i] == lines[..i];
      r := r + [BoardLineAdd(lines[i])];
      i := i + 1;
    }
    assert lines[..i] == lines;
  }

  /** Each via given the resulting net signal and put back. */
  function ViaReAdds(vias: seq<Via>, result: NetSignal): seq<Child>
  {
    if vias == [] then []
    else ViaReAdds(vias[..|vias| - 1], result) + [ViaEdit(vias[|vias| - 1], result), ViaAdd(vias[|vias| - 1])]
  }

  lemma {:induction false} ViaReAddsHas(vias: seq<Via>, result: NetSignal, c: Child)
    ensures c in ViaReAdds(vias, result) <==> (c.ViaEdit? && c.via in vias && c.signal == result) || (c.ViaAdd? && c.via in vias)
  {
    if vias != [] {
      ViaReAddsHas(vias[..|vias| - 1], result, c);
      assert vias == vias[..|vias| - 1] + [vias[|vias| - 1]];
    }
  }

  lemma {:induction false} ViaReAddsPaired(vias: seq<Via>, result: NetSignal)
    ensures EditsBeforeAdds(ViaReAdds(vias, result), result)
  {
    if vias != [] {
      var x := vias[|vias| - 1];
      ViaReAddsPaired(vias[..|vias| - 1], result);
      EditsBeforeAddsPair(ViaEdit(x, result), ViaAdd(x), result);
      EditsBeforeAddsConcat(ViaReAdds(vias[..|vias| - 1], result), [ViaEdit(x, result), ViaAdd(x)], result);
    }
  }

  method AppendViaReAdds(acc: seq<Child>, vias: seq<Via>, result: NetSignal) returns (r: seq<Child>)
    ensures r == acc + ViaReAdds(vias, result)
  {
    r := acc;
    var i := 0;
    while i < |vias|
      invariant 0 <= i <= |vias|
      invariant r == acc + ViaReAdds(vias[..i], result)
    {
      assert vias[..i + 1][..i] == vias[..i];
      r := r + [ViaEdit(vias[i], result), ViaAdd(vias[i])];
      i := i + 1;
    }
    assert vias[..i] == vias;
  }

  /** Each board point given the resulting net signal and put back. */
  function PointReAdds(pts: seq<BoardNetPoint>, result: NetSignal): seq<Child>
  {
    if pts == [] then []
    else PointReAdds(pts[..|pts| - 1], result) + [BoardPointEdit(pts[|pts| - 1], result), BoardPointAdd(pts[|pts| - 1])]
  }

  lemma {:induction false} PointReAddsHas(pts: seq<BoardNetPoint>, result: NetSignal, c: Child)
    ensures c in PointReAdds(pts, result) <==> (c.BoardPointEdit? && c.boardPoint in pts && c.signal == result) || (c.BoardPointAdd? && c.boardPoint in pts)
  {
    if pts != [] {
      PointReAddsHas(pts[..|pts| - 1], result, c);
      assert pts == pts[..|pts| - 1] + [pts[|pts| - 1]];
    }
  }

  lemma {:induction false} PointReAddsPaired(pts: seq<BoardNetPoint>, result: NetSignal)
    ensures EditsBeforeAdds(PointReAdds(pts, result), result)
  {
    if pts != [] {
      var x := pts[|pts| - 1];
      PointReAddsPaired(pts[..|pts| - 1], result);
      EditsBeforeAddsPair(BoardPointEdit(x, result), BoardPointAdd(x), result);
      EditsBeforeAddsConcat(PointReAdds(pts[..|pts| - 1], result), [BoardPointEdit(x, result), BoardPointAdd(x)], result);
    }
  }

  method AppendPointReAdds(acc: seq<Child>, pts: seq<BoardNetPoint>, result: NetSignal) returns (r: seq<Child>)
    ensures r == acc + PointReAdds(pts, result)
  {
    r := acc;
    var i := 0;
    while i < |pts|
      invariant 0 <= i <= |pts|
      invariant r == acc + PointReAdds(pts[..i], result)
    {
      assert pts[..i + 1][..i] == pts[..i];
      r := r + [BoardPointEdit(pts[i], result), BoardPointAdd(pts[i])];
      i := i + 1;
    }
    assert pts[..i] == pts;
  }

  /** Each schematic segment given the resulting net signal and put back. */
  function SegmentReAdds(segs: seq<NetSegment>, result: NetSignal): seq<Child>
  {
    if segs == [] then []
    else SegmentReAdds(segs[..|segs| - 1], result) + [SegmentEdit(segs[|segs| - 1], result), SegmentAdd(segs[|segs| - 1])]
  }

  lemma {:induction false} SegmentReAddsHas(segs: seq<NetSegment>, result: NetSignal, c: Child)
    ensures c in SegmentReAdds(segs, result) <==> (c.SegmentEdit? && c.segment in segs && c.signal == result) || (c.SegmentAdd? && c.segment in segs)
  {
    if segs != [] {
      SegmentReAddsHas(segs[..|segs| - 1], result, c);
      assert segs == segs[..|segs| - 1] + [segs[|segs| - 1]];
    }
  }

  lemma {:induction false} SegmentReAddsPaired(segs: seq<NetSegment>, result: NetSignal)
    ensures EditsBeforeAdds(SegmentReAdds(segs, result), result)
  {
    if segs != [] {
      var x := segs[|segs| - 1];
      SegmentReAddsPaired(segs[..|segs| - 1], result);
      EditsBeforeAddsPair(SegmentEdit(x, result), SegmentAdd(x), result);
      EditsBeforeAddsConcat(SegmentReAdds(segs[..|segs| - 1], result), [SegmentEdit(x, result), SegmentAdd(x)], result);
    }
  }

  method AppendSegmentReAdds(acc: seq<Child>, segs: seq<NetSegment>, result: NetSignal) returns (r: seq<Child>)
    ensures r == acc + SegmentReAdds(segs, result)
  {
    r := acc;
    var i := 0;
    while i < |segs|
      invariant 0 <= i <= |segs|
      invariant r == acc + SegmentReAdds(segs[..i], result)
    {
      assert segs[..i + 1][..i] == segs[..i];
      r := r + [SegmentEdit(segs[i], result), SegmentAdd(segs[i])];
      i := i + 1;
    }
    assert segs[..i] == segs;
  }

  /** The edit that has to precede putting an item back. */
  function EditBefore(c: Child, result: NetSignal): Option<Child>
  {
    match c
    case ViaAdd(v) => Some(ViaEdit(v, result))
    case BoardPointAdd(p) => Some(BoardPointEdit(p, result))
    case SegmentAdd(s) => Some(SegmentEdit(s, result))
    case _ => None
  }

  /** Every via, board point and schematic segment is put back right after it was given `result`. */
  predicate EditsBeforeAdds(log: seq<Child>, result: NetSignal)
    decreases |log|
  {
    log == []
    || (EditsBeforeAdds(log[..|log| - 1], result)
        && match EditBefore(log[|log| - 1], result)
           case None => true
           case Some(e) => |log| >= 2 && log[|log| - 2] == e)
  }

  lemma {:induction false} EditsBeforeAddsConcat(a: seq<Child>, b: seq<Child>, result: NetSignal)
    requires EditsBeforeAdds(a, result) && EditsBeforeAdds(b, result)
    ensures EditsBeforeAdds(a + b, result)
  {
    if b == [] {
      assert a + b == a;
    } else {
      var n := |b| - 1;
      EditsBeforeAddsConcat(a, b[..n], result);
      assert (a + b)[..|a + b| - 1] == a + b[..n];
      if n >= 1 { assert (a + b)[|a + b| - 2] == b[n - 1]; }
    }
  }

  lemma EditsBeforeAddsPair(e: Child, a: Child, result: NetSignal)
    requires EditBefore(e, result).None? && EditBefore(a, result) == Some(e)
    ensures EditsBeforeAdds([e, a], result)
  {
    assert [e][..0] == [];
    assert EditsBeforeAdds([e][..0], result);
    assert EditsBeforeAdds([e], result);
    assert [e, a][..1] == [e];
  }

  /** A block with nothing put back in it keeps the pairing. */
  lemma {:induction false} EditsBeforeAddsNoAdds(log: seq<Child>, result: NetSignal)
    requires forall c :: c in log ==> EditBefore(c, result).None?
    ensures EditsBeforeAdds(log, result)
  {
    if log != [] {
      assert forall c :: c in log[..|log| - 1] ==> c in log;
      EditsBeforeAddsNoAdds(log[..|log| - 1], result);
      assert log[|log| - 1] in log;
    }
  }

  /** What the pairing means, position by position. */
  lemma {:induction false} EditsBeforeAddsMeans(log: seq<Child>, result: NetSignal)
    requires EditsBeforeAdds(log, result)
    ensures forall i :: 0 <= i < |log| && EditBefore(log[i], result).Some? ==> 0 < i && log[i - 1] == EditBefore(log[i], result).value
  {
    if log != [] {
      var n := |log| - 1;
      EditsBeforeAddsMeans(log[..n], result);
      forall i | 0 <= i < n && EditBefore(log[i], result).Some?
        ensures 0 < i && log[i - 1] == EditBefore(log[i], result).value
      {
        assert log[..n][i] == log[i];
        if 0 < i { assert log[..n][i - 1] == log[i - 1]; }
      }
    }
  }

  /** The inner "insert into the set" loop over the lines of one board point. */
  method InsertLines(acc: seq<BoardNetLine>, ls: seq<BoardNetLine>) returns (r: seq<BoardNetLine>)
    ensures r == InsertAll(acc, ls)
  {
    r := acc;
    var k := 0;
    while k < |ls|
      invariant 0 <= k <= |ls|
      invariant InsertAll(r, ls[k..]) == InsertAll(acc, ls)
    {
      assert ls[k..][1..] == ls[k + 1..];
      if ls[k] !in r {
        r := r + [ls[k]];
      }
      k := k + 1;
    }
  }

  /** The loops over the board points of the net signal and their lines, collecting the lines once each. */
  method CollectBoardLines(lines: BoardNetPoint -> seq<BoardNetLine>, pts: seq<BoardNetPoint>) returns (r: seq<BoardNetLine>)
    ensures r == InsertAll([], PointsLines(lines, pts))
  {
    r := [];
    var j := 0;
    while j < |pts|
      invariant 0 <= j <= |pts|
      invariant r == InsertAll([], PointsLines(lines, pts[..j]))
    {
      assert pts[..j + 1][..j] == pts[..j];
      InsertAllConcat([], PointsLines(lines, pts[..j]), lines(pts[j]));
      r := InsertLines(r, lines(pts[j]));
      j := j + 1;
    }
    assert pts[..j] == pts;
  }

  /** performExecute of the composite: the ten loops of children, in order. */
  method Execute(c: Circuit, removed: NetSignal, result: NetSignal) returns (p: Plan)
    ensures p == CombinePlan(c, removed, result)
  {
    var segs := c.signalSegments(removed);
    var vias := c.signalVias(removed);
    var pts := c.signalBoardPoints(removed);
    var lines := CollectBoardLines(c.boardPointLines, pts);
    var log := AppendSegmentRemovals([], segs);
    assert log == SegmentRemovals(segs);
    log := AppendLinesRemoval(log, lines);
    log := AppendPointRemovals(log, pts);
    log := AppendViaRemovals(log, vias);
    log := AppendCmpSigMoves(log, c.signalCmpSigs(removed), result);
    log := AppendViaReAdds(log, vias, result);
    log := AppendPointReAdds(log, pts, result);
    log := AppendLineReAdds(log, lines);
    log := AppendSegmentReAdds(log, segs, result);
    log := log + [NetSignalRemove(removed)];
    p := Plan(log, None, true);
  }

  /** The stage of the composite a child belongs to. */
  function Phase(c: Child): nat
  {
    match c
    case SegmentRemove(_) => 0
    case BoardLineRemove(_) => 1
    case BoardPointRemove(_) => 2
    case ViaRemove(_) => 3
    case CompSigSetNetSignal(_, _) => 4
    case ViaEdit(_, _) => 5
    case ViaAdd(_) => 5
    case BoardPointEdit(_, _) => 6
    case BoardPointAdd(_) => 6
    case BoardLineAdd(_) => 7
    case SegmentEdit(_, _) => 8
    case SegmentAdd(_) => 8
    case _ => 9
  }

  lemma RemovalsOrdered(segs: seq<NetSegment>, pts: seq<BoardNetPoint>, lines: seq<BoardNetLine>)
    ensures OrderedUpTo(SegmentRemovals(segs) + LinesRemoval(lines) + PointRemovals(pts), Phase, 2)
  {
    forall c | c in SegmentRemovals(segs) ensures Phase(c) == 0 { SegmentRemovalsHas(segs, c); }
    OrderedAppend([], SegmentRemovals(segs), Phase, 0, 0);
    assert [] + SegmentRemovals(segs) == SegmentRemovals(segs);
    forall c | c in LinesRemoval(lines) ensures Phase(c) == 1 { LinesRemovalHas(lines, c); }
    OrderedAppend(SegmentRemovals(segs), LinesRemoval(lines), Phase, 0, 1);
    forall c | c in PointRemovals(pts) ensures Phase(c) == 2 { PointRemovalsHas(pts, c); }
    OrderedAppend(SegmentRemovals(segs) + LinesRemoval(lines), PointRemovals(pts), Phase, 1, 2);
  }

  lemma MiddleOrdered(prior: seq<Child>, vias: seq<Via>, cmpSigs: seq<ComponentSignal>, result: NetSignal)
    requires OrderedUpTo(prior, Phase, 2)
    ensures OrderedUpTo(prior + ViaRemovals(vias) + CmpSigMoves(cmpSigs, result), Phase, 4)
  {
    forall c | c in ViaRemovals(vias) ensures Phase(c) == 3 { ViaRemovalsHas(vias, c); }
    OrderedAppend(prior, ViaRemovals(vias), Phase, 2, 3);
    forall c | c in CmpSigMoves(cmpSigs, result) ensures Phase(c) == 4 { CmpSigMovesHas(cmpSigs, result, c); }
    OrderedAppend(prior + ViaRemovals(vias), CmpSigMoves(cmpSigs, result), Phase, 3, 4);
  }

  lemma ReAdditionsOrdered(prior: seq<Child>, vias: seq<Via>, pts: seq<BoardNetPoint>, result: NetSignal)
    requires OrderedUpTo(prior, Phase, 4)
    ensures OrderedUpTo(prior + ViaReAdds(vias, result) + PointReAdds(pts, result), Phase, 6)
  {
    forall c | c in ViaReAdds(vias, result) ensures Phase(c) == 5 { ViaReAddsHas(vias, result, c); }
    OrderedAppend(prior, ViaReAdds(vias, result), Phase, 4, 5);
    forall c | c in PointReAdds(pts, result) ensures Phase(c) == 6 { PointReAddsHas(pts, result, c); }
    OrderedAppend(prior + ViaReAdds(vias, result), PointReAdds(pts, result), Phase, 5, 6);
  }

  lemma LastOrdered(prior: seq<Child>, segs: seq<NetSegment>, lines: seq<BoardNetLine>, removed: NetSignal, result: NetSignal)
    requires OrderedUpTo(prior, Phase, 6)
    ensures OrderedUpTo(prior + LineReAdds(lines) + SegmentReAdds(segs, result) + [NetSignalRemove(removed)], Phase, 9)
  {
    forall c | c in LineReAdds(lines) ensures Phase(c) == 7 { LineReAddsHas(lines, c); }
    OrderedAppend(prior, LineReAdds(lines), Phase, 6, 7);
    var log := prior + LineReAdds(lines);
    forall c | c in SegmentReAdds(segs, result) ensures Phase(c) == 8 { SegmentReAddsHas(segs, result, c); }
    OrderedAppend(log, SegmentReAdds(segs, result), Phase, 7, 8);
    log := log + SegmentReAdds(segs, result);
    OrderedAppend(log, [NetSignalRemove(removed)], Phase, 8, 9);
  }

  /**
   * The stages run one after the other: all removals, then the component
   * signals, then the re-additions of vias, board points, board lines and
   * schematic segments, and the removal of the net signal last of all.
   */
  lemma CombineLogPhases(segs: seq<NetSegment>, vias: seq<Via>, pts: seq<BoardNetPoint>, lines: seq<BoardNetLine>,
                         cmpSigs: seq<ComponentSignal>, removed: NetSignal, result: NetSignal)
    ensures var log := CombineLog(segs, vias, pts, lines, cmpSigs, removed, result);
            InPhaseOrder(log, Phase) && |log| > 0 && log[|log| - 1] == NetSignalRemove(removed)
  {
    RemovalsOrdered(segs, pts, lines);
    var log := SegmentRemovals(segs) + LinesRemoval(lines) + PointRemovals(pts);
    MiddleOrdered(log, vias, cmpSigs, result);
    log := log + ViaRemovals(vias) + CmpSigMoves(cmpSigs, result);
    ReAdditionsOrdered(log, vias, pts, result);
    log := log + ViaReAdds(vias, result) + PointReAdds(pts, result);
    LastOrdered(log, segs, lines, removed, result);
    log := log + LineReAdds(lines) + SegmentReAdds(segs, result) + [NetSignalRemove(removed)];
    OrderedUpToMeans(log, Phase, 9);
  }

  /** Which children the log holds: exactly those of its stages. */
  lemma CombineLogHas(segs: seq<NetSegment>, vias: seq<Via>, pts: seq<BoardNetPoint>, lines: seq<BoardNetLine>,
                      cmpSigs: seq<ComponentSignal>, removed: NetSignal, result: NetSignal, c: Child)
    ensures c in CombineLog(segs, vias, pts, lines, cmpSigs, removed, result) <==>
              || (c.SegmentRemove? && c.segment in segs)
              || (c.BoardLineRemove? && c.boardLine in lines)
              || (c.BoardPointRemove? && c.boardPoint in pts)
              || (c.ViaRemove? && c.via in vias)
              || (c.CompSigSetNetSignal? && c.cmpSig in cmpSigs && c.netSignal == Some(result))
              || (c.ViaEdit? && c.via in vias && c.signal == result) || (c.ViaAdd? && c.via in vias)
              || (c.BoardPointEdit? && c.boardPoint in pts && c.signal == result) || (c.BoardPointAdd? && c.boardPoint in pts)
              || (c.BoardLineAdd? && c.boardLine in lines)
              || (c.SegmentEdit? && c.segment in segs && c.signal == result) || (c.SegmentAdd? && c.segment in segs)
              || c == NetSignalRemove(removed)
  {
    SegmentRemovalsHas(segs, c);
    LinesRemovalHas(lines, c);
    PointRemovalsHas(pts, c);
    ViaRemovalsHas(vias, c);
    CmpSigMovesHas(cmpSigs, result, c);
    ViaReAddsHas(vias, result, c);
    PointReAddsHas(pts, result, c);
    LineReAddsHas(lines, c);
    SegmentReAddsHas(segs, result, c);
  }

  /**
   * Everything taken away is put back, and nothing else: the schematic
   * segments, vias and board points of the removed net signal and every
   * line at one of those board points; each component signal of the removed
   * net signal is moved to the resulting one.
   */
  lemma CombineLogReAdds(c: Circuit, removed: NetSignal, result: NetSignal)
    ensures var log := CombinePlan(c, removed, result).children;
            (forall s :: (SegmentRemove(s) in log <==> s in c.signalSegments(removed))
                      && (SegmentAdd(s) in log <==> s in c.signalSegments(removed)))
            && (forall v :: (ViaRemove(v) in log <==> v in c.signalVias(removed))
                         && (ViaAdd(v) in log <==> v in c.signalVias(removed)))
            && (forall p :: (BoardPointRemove(p) in log <==> p in c.signalBoardPoints(removed))
                         && (BoardPointAdd(p) in log <==> p in c.signalBoardPoints(removed)))
            && (forall l :: (BoardLineRemove(l) in log <==> BoardLineAdd(l) in log)
                         && (BoardLineAdd(l) in log <==>
                             exists k :: 0 <= k < |c.signalBoardPoints(removed)|
                                         && l in c.boardPointLines(c.signalBoardPoints(removed)[k])))
            && (forall cs, x :: CompSigSetNetSignal(cs, x) in log <==> cs in c.signalCmpSigs(removed) && x == Some(result))
  {
    var segs := c.signalSegments(removed);
    var vias := c.signalVias(removed);
    var pts := c.signalBoardPoints(removed);
    var lines := BoardLines(c, removed);
    var cmpSigs := c.signalCmpSigs(removed);
    forall s ensures (SegmentRemove(s) in CombineLog(segs, vias, pts, lines, cmpSigs, removed, result) <==> s in segs)
                     && (SegmentAdd(s) in CombineLog(segs, vias, pts, lines, cmpSigs, removed, result) <==> s in segs) {
      CombineLogHas(segs, vias, pts, lines, cmpSigs, removed, result, SegmentRemove(s));
      CombineLogHas(segs, vias, pts, lines, cmpSigs, removed, result, SegmentAdd(s));
    }
    forall v ensures (ViaRemove(v) in CombineLog(segs, vias, pts, lines, cmpSigs, removed, result) <==> v in vias)
                     && (ViaAdd(v) in CombineLog(segs, vias, pts, lines, cmpSigs, removed, result) <==> v in vias) {
      CombineLogHas(segs, vias, pts, lines, cmpSigs, removed, result, ViaRemove(v));
      CombineLogHas(segs, vias, pts, lines, cmpSigs, removed, result, ViaAdd(v));
    }
    forall p ensures (BoardPointRemove(p) in CombineLog(segs, vias, pts, lines, cmpSigs, removed, result) <==> p in pts)
                     && (BoardPointAdd(p) in CombineLog(segs, vias, pts, lines, cmpSigs, removed, result) <==> p in pts) {
      CombineLogHas(segs, vias, pts, lines, cmpSigs, removed, result, BoardPointRemove(p));
      CombineLogHas(segs, vias, pts, lines, cmpSigs, removed, result, BoardPointAdd(p));
    }
    forall l ensures (BoardLineRemove(l) in CombineLog(segs, vias, pts, lines, cmpSigs, removed, result) <==> l in lines)
                     && (BoardLineAdd(l) in CombineLog(segs, vias, pts, lines, cmpSigs, removed, result) <==> l in lines) {
      CombineLogHas(segs, vias, pts, lines, cmpSigs, removed, result, BoardLineRemove(l));
      CombineLogHas(segs, vias, pts, lines, cmpSigs, removed, result, BoardLineAdd(l));
    }
    forall cs, x ensures CompSigSetNetSignal(cs, x) in CombineLog(segs, vias, pts, lines, cmpSigs, removed, result)
                         <==> cs in cmpSigs && x == Some(result) {
      CombineLogHas(segs, vias, pts, lines, cmpSigs, removed, result, CompSigSetNetSignal(cs, x));
    }
  }

  lemma RemovalsUnpaired(segs: seq<NetSegment>, vias: seq<Via>, pts: seq<BoardNetPoint>, lines: seq<BoardNetLine>,
                         cmpSigs: seq<ComponentSignal>, result: NetSignal)
    ensures EditsBeforeAdds(SegmentRemovals(segs) + LinesRemoval(lines) + PointRemovals(pts) + ViaRemovals(vias)
                            + CmpSigMoves(cmpSigs, result), result)
  {
    forall c | c in SegmentRemovals(segs) ensures EditBefore(c, result).None? { SegmentRemovalsHas(segs, c); }
    forall c | c in LinesRemoval(lines) ensures EditBefore(c, result).None? { LinesRemovalHas(lines, c); }
    forall c | c in PointRemovals(pts) ensures EditBefore(c, result).None? { PointRemovalsHas(pts, c); }
    forall c | c in ViaRemovals(vias) ensures EditBefore(c, result).None? { ViaRemovalsHas(vias, c); }
    forall c | c in CmpSigMoves(cmpSigs, result) ensures EditBefore(c, result).None? { CmpSigMovesHas(cmpSigs, result, c); }
    EditsBeforeAddsNoAdds(SegmentRemovals(segs) + LinesRemoval(lines) + PointRemovals(pts) + ViaRemovals(vias)
                          + CmpSigMoves(cmpSigs, result), result);
  }

  lemma ReAdditionsPaired(prior: seq<Child>, segs: seq<NetSegment>, vias: seq<Via>, pts: seq<BoardNetPoint>,
                          lines: seq<BoardNetLine>, removed: NetSignal, result: NetSignal)
    requires EditsBeforeAdds(prior, result)
    ensures EditsBeforeAdds(prior + ViaReAdds(vias, result) + PointReAdds(pts, result) + LineReAdds(lines)
                            + SegmentReAdds(segs, result) + [NetSignalRemove(removed)], result)
  {
    forall c | c in LineReAdds(lines) ensures EditBefore(c, result).None? { LineReAddsHas(lines, c); }
    EditsBeforeAddsNoAdds(LineReAdds(lines), result);
    EditsBeforeAddsNoAdds([NetSignalRemove(removed)], result);
    ViaReAddsPaired(vias, result);
    PointReAddsPaired(pts, result);
    SegmentReAddsPaired(segs, result);
    var log := prior;
    EditsBeforeAddsConcat(log, ViaReAdds(vias, result), result);
    log := log + ViaReAdds(vias, result);
    EditsBeforeAddsConcat(log, PointReAdds(pts, result), result);
    log := log + PointReAdds(pts, result);
    EditsBeforeAddsConcat(log, LineReAdds(lines), result);
    log := log + LineReAdds(lines);
    EditsBeforeAddsConcat(log, SegmentReAdds(segs, result), result);
    log := log + SegmentReAdds(segs, result);
    EditsBeforeAddsConcat(log, [NetSignalRemove(removed)], result);
  }

  /**
   * Each via, board point and schematic segment is put back immediately
   * after it was given the resulting net signal.
   */
  lemma CombineLogEditsBeforeAdds(segs: seq<NetSegment>, vias: seq<Via>, pts: seq<BoardNetPoint>, lines: seq<BoardNetLine>,
                                  cmpSigs: seq<ComponentSignal>, removed: NetSignal, result: NetSignal)
    ensures var log := CombineLog(segs, vias, pts, lines, cmpSigs, removed, result);
            forall i :: 0 <= i < |log| && EditBefore(log[i], result).Some? ==>
              0 < i && log[i - 1] == EditBefore(log[i], result).value
  {
    RemovalsUnpaired(segs, vias, pts, lines, cmpSigs, result);
    var log := SegmentRemovals(segs) + LinesRemoval(lines) + PointRemovals(pts) + ViaRemovals(vias) + CmpSigMoves(cmpSigs, result);
    ReAdditionsPaired(log, segs, vias, pts, lines, removed, result);
    EditsBeforeAddsMeans(CombineLog(segs, vias, pts, lines, cmpSigs, removed, result), result);
  }
}
