/**
 * The pieces the remove-selection composite is made of: disconnecting the
 * component signals that lose their last attached pin, removing a whole net
 * segment, splitting a segment into the connected pieces of what is left,
 * removing net labels, and removing symbols with their components.
 *
 * Each piece is a function giving the children it runs (the specification)
 * and a method with the loops of the source that appends exactly those
 * children to the ones run so far.
 */
module RemoveSelectedSteps {
  import opened Base
  import opened Items
  import opened Children
  import opened BoardDetach
  import opened Connectivity

  // ---------------------------------------------------------------------------
  // Component signals left without an attached pin
  // ---------------------------------------------------------------------------

  /**
   * Some pin of `cs` other than `pin` still holds a net point: one it held
   * when the composite started and that no earlier child has removed.
   */
  predicate OtherPinHeld(c: Circuit, removed: set<NetPoint>, cs: ComponentSignal, pin: SymbolPin)
  {
    exists p :: p in c.cmpSigPins(cs) && p != pin && c.pinNetPoint(p).Some? && c.pinNetPoint(p).value !in removed
  }

  /** The component signal to disconnect when a net point on `pin` goes away, if any. */
  function Disconnectable(c: Circuit, removed: set<NetPoint>, pin: Option<SymbolPin>): Option<ComponentSignal>
  {
    if pin.None? then None
    else match c.pinCmpSig(pin.value)
      case None => None
      case Some(cs) => if OtherPinHeld(c, removed, cs, pin.value) then None else Some(cs)
  }

  /**
   * getCmpSigInstToBeDisconnected for a net point on `pin`: nothing for a
   * point on no pin or on a pin without a component signal, nothing when
   * another pin of that component signal still holds a net point, and the
   * component signal otherwise.
   */
  method CmpSigToBeDisconnected(c: Circuit, removed: set<NetPoint>, pin: Option<SymbolPin>) returns (r: Option<ComponentSignal>)
    ensures r.Some? <==> pin.Some? && c.pinCmpSig(pin.value).Some?
                         && !OtherPinHeld(c, removed, c.pinCmpSig(pin.value).value, pin.value)
    ensures r.Some? ==> r == c.pinCmpSig(pin.value)
    ensures r == Disconnectable(c, removed, pin)
  {
    if pin.None? {
      return None;
    }
    var cs := c.pinCmpSig(pin.value);
    if cs.None? {
      return None;
    }
    var pins := c.cmpSigPins(cs.value);
    var i := 0;
    while i < |pins|
      invariant 0 <= i <= |pins|
      invariant forall k :: 0 <= k < i ==>
                  !(pins[k] != pin.value && c.pinNetPoint(pins[k]).Some? && c.pinNetPoint(pins[k]).value !in removed)
    {
      var np := c.pinNetPoint(pins[i]);
      if pins[i] != pin.value && np.Some? && np.value !in removed {
        return None;
      }
      i := i + 1;
    }
    return cs;
  }

  /** The component signals to disconnect when the net points `pts` go away, in the order of the points. */
  function CmpSigsOf(c: Circuit, removed: set<NetPoint>, pts: seq<NetPoint>): seq<ComponentSignal>
    reads pts
  {
    if pts == [] then []
    else CmpSigsOf(c, removed, pts[..|pts| - 1]) +
         match Disconnectable(c, removed, pts[|pts| - 1].pin)
         case Some(cs) => [cs]
         case None => []
  }

  /** Some point of the list frees `cs`. */
  ghost predicate FreedBy(c: Circuit, removed: set<NetPoint>, pts: seq<NetPoint>, cs: ComponentSignal)
    reads pts
  {
    exists k :: 0 <= k < |pts| && Disconnectable(c, removed, pts[k].pin) == Some(cs)
  }

  /** The list holds exactly the component signals some point frees. */
  lemma {:induction false} CmpSigsOfHas(c: Circuit, removed: set<NetPoint>, pts: seq<NetPoint>, cs: ComponentSignal)
    ensures cs in CmpSigsOf(c, removed, pts) <==> FreedBy(c, removed, pts, cs)
  {
    if pts != [] {
      var n := |pts| - 1;
      var front := pts[..n];
      CmpSigsOfHas(c, removed, front, cs);
      if FreedBy(c, removed, front, cs) {
        var k :| 0 <= k < |front| && Disconnectable(c, removed, front[k].pin) == Some(cs);
        assert front[k] == pts[k];
      }
      if FreedBy(c, removed, pts, cs) {
        var k :| 0 <= k < |pts| && Disconnectable(c, removed, pts[k].pin) == Some(cs);
        if k < n { assert front[k] == pts[k]; }
      }
    }
  }

  /** The loop of removeNetSegment collecting component signals into a list. */
  method AppendCmpSigs(acc: seq<ComponentSignal>, c: Circuit, removed: set<NetPoint>, pts: seq<NetPoint>)
    returns (r: seq<ComponentSignal>)
    ensures r == acc + CmpSigsOf(c, removed, pts)
  {
    r := acc;
    var i := 0;
    while i < |pts|
      invariant 0 <= i <= |pts|
      invariant r == acc + CmpSigsOf(c, removed, pts[..i])
    {
      assert pts[..i + 1][..i] == pts[..i];
      var cs := CmpSigToBeDisconnected(c, removed, pts[i].pin);
      if cs.Some? {
        r := r + [cs.value];
      }
      i := i + 1;
    }
    assert pts[..i] == pts;
  }

  /** Inserting at most one element. */
  lemma InsertOne<T>(acc: seq<T>, one: seq<T>)
    requires |one| <= 1
    ensures InsertAll(acc, one) == if one == [] || one[0] in acc then acc else acc + one
  {
    if one != [] {
      var next := if one[0] in acc then acc else acc + [one[0]];
      assert one[1..] == [];
      assert InsertAll(acc, one) == InsertAll(next, []) == next;
    }
  }

  /** The loop of splitUpNetSegment collecting component signals into a set (insert unless contained). */
  method InsertCmpSigs(acc: seq<ComponentSignal>, c: Circuit, removed: set<NetPoint>, pts: seq<NetPoint>)
    returns (r: seq<ComponentSignal>)
    ensures r == InsertAll(acc, CmpSigsOf(c, removed, pts))
  {
    r := acc;
    var i := 0;
    while i < |pts|
      invariant 0 <= i <= |pts|
      invariant r == InsertAll(acc, CmpSigsOf(c, removed, pts[..i]))
    {
      assert pts[..i + 1][..i] == pts[..i];
      var cs := CmpSigToBeDisconnected(c, removed, pts[i].pin);
      var one := if cs.Some? then [cs.value] else [];
      assert CmpSigsOf(c, removed, pts[..i + 1]) == CmpSigsOf(c, removed, pts[..i]) + one;
      InsertAllConcat(acc, CmpSigsOf(c, removed, pts[..i]), one);
      InsertOne(r, one);
      if cs.Some? && cs.value !in r {
        r := r + [cs.value];
      }
      i := i + 1;
    }
    assert pts[..i] == pts;
  }

  /**
   * Disconnecting each component signal of the list from its net signal, in
   * order, after the children `log`: each disconnection finds the boards as
   * the children before it left them.
   */
  function DisconnectAll(c: Circuit, log: seq<Child>, sigs: seq<ComponentSignal>): seq<Child>
  {
    if sigs == [] then []
    else
      var front := DisconnectAll(c, log, sigs[..|sigs| - 1]);
      front + DisconnectAfter(log + front, c, sigs[|sigs| - 1], None)
  }

  lemma DisconnectAllStep(c: Circuit, log: seq<Child>, sigs: seq<ComponentSignal>, i: nat)
    requires i < |sigs|
    ensures var front := DisconnectAll(c, log, sigs[..i]);
            log + DisconnectAll(c, log, sigs[..i + 1]) == (log + front) + DisconnectAfter(log + front, c, sigs[i], None)
  {
    assert sigs[..i + 1][..i] == sigs[..i];
  }

  /**
   * The disconnections only detach, in order (board lines before their
   * points, points before the component signal is moved), and move exactly
   * the component signals of the list, each to no net signal.
   */
  lemma {:induction false} DisconnectAllFacts(c: Circuit, log: seq<Child>, sigs: seq<ComponentSignal>)
    ensures DetachesFrom(log + DisconnectAll(c, log, sigs), |log|, c)
    ensures forall cs, x :: CompSigSetNetSignal(cs, x) in DisconnectAll(c, log, sigs) <==> cs in sigs && x == None
  {
    if sigs == [] {
      assert log + [] == log;
    } else {
      var n := |sigs| - 1;
      var front := DisconnectAll(c, log, sigs[..n]);
      var last := DisconnectAfter(log + front, c, sigs[n], None);
      DisconnectAllFacts(c, log, sigs[..n]);
      DisconnectAfterFacts(log + front, c, sigs[n], None);
      DisconnectAllStep(c, log, sigs, n);
      assert sigs[..n + 1] == sigs;
      DetachesFromConcat(log + front, last, |log|, c);
      assert sigs == sigs[..n] + [sigs[n]];
    }
  }

  /** After a log that removed nothing twice, the disconnections remove no board line or point a second time. */
  lemma {:induction false} DisconnectAllOnce(c: Circuit, log: seq<Child>, sigs: seq<ComponentSignal>)
    requires RemovesOnce(log) && BoardListsDistinct(c)
    ensures RemovesOnce(log + DisconnectAll(c, log, sigs))
  {
    if sigs == [] {
      assert log + [] == log;
    } else {
      var n := |sigs| - 1;
      var front := DisconnectAll(c, log, sigs[..n]);
      DisconnectAllOnce(c, log, sigs[..n]);
      DisconnectAfterOnce(log + front, c, sigs[n], None);
      DisconnectAllStep(c, log, sigs, n);
      assert sigs[..n + 1] == sigs;
    }
  }

  /** The loop disconnecting each component signal of the list, after the children `acc`. */
  method AppendDisconnectAll(acc: seq<Child>, c: Circuit, sigs: seq<ComponentSignal>) returns (r: seq<Child>)
    ensures r == acc + DisconnectAll(c, acc, sigs)
  {
    r := acc;
    var i := 0;
    while i < |sigs|
      invariant 0 <= i <= |sigs|
      invariant r == acc + DisconnectAll(c, acc, sigs[..i])
    {
      DisconnectAllStep(c, acc, sigs, i);
      r := AppendDisconnectAfter(r, c, sigs[i], None);
      i := i + 1;
    }
    assert sigs[..i] == sigs;
  }

  // ---------------------------------------------------------------------------
  // Removing a whole net segment
  // ---------------------------------------------------------------------------

  /** removeNetSegment after the children `log`, for a segment whose net points are listed in the order `pts`. */
  function WholeRemoval(c: Circuit, log: seq<Child>, removed: set<NetPoint>, segment: NetSegment, pts: seq<NetPoint>)
    : seq<Child>
    reads pts
  {
    [SegmentRemove(segment)] + DisconnectAll(c, log + [SegmentRemove(segment)], CmpSigsOf(c, removed, pts))
  }

  /**
   * The segment is removed first; what follows only detaches component
   * signals from the boards and the circuit, in order, and the component
   * signals detached are exactly those some net point of the segment frees.
   */
  lemma WholeRemovalFacts(c: Circuit, log: seq<Child>, removed: set<NetPoint>, segment: NetSegment, pts: seq<NetPoint>)
    ensures var r := WholeRemoval(c, log, removed, segment, pts);
            r[0] == SegmentRemove(segment) && DetachesFrom(log + r, |log| + 1, c)
    ensures forall cs, x :: CompSigSetNetSignal(cs, x) in WholeRemoval(c, log, removed, segment, pts) <==>
                              FreedBy(c, removed, pts, cs) && x == None
  {
    var sigs := CmpSigsOf(c, removed, pts);
    var head := log + [SegmentRemove(segment)];
    DisconnectAllFacts(c, head, sigs);
    assert log + WholeRemoval(c, log, removed, segment, pts) == head + DisconnectAll(c, head, sigs);
    forall cs ensures cs in sigs <==> FreedBy(c, removed, pts, cs) {
      CmpSigsOfHas(c, removed, pts, cs);
    }
  }

  /** A segment removal adds no removal of a board line or point that the log already has. */
  lemma WholeRemovalOnce(c: Circuit, log: seq<Child>, removed: set<NetPoint>, segment: NetSegment, pts: seq<NetPoint>)
    requires RemovesOnce(log) && BoardListsDistinct(c)
    ensures RemovesOnce(log + WholeRemoval(c, log, removed, segment, pts))
  {
    var head := log + [SegmentRemove(segment)];
    var d := DisconnectAll(c, head, CmpSigsOf(c, removed, pts));
    RemovesOnceConcat(log, [SegmentRemove(segment)]);
    DisconnectAllOnce(c, head, CmpSigsOf(c, removed, pts));
    assert WholeRemoval(c, log, removed, segment, pts) == [SegmentRemove(segment)] + d;
    assert log + ([SegmentRemove(segment)] + d) == head + d;
  }

  /** removeNetSegment: collect the component signals first, then remove the segment, then disconnect them. */
  method RemoveNetSegment(acc: seq<Child>, c: Circuit, removed: set<NetPoint>, segment: NetSegment, pts: seq<NetPoint>)
    returns (r: seq<Child>)
    ensures r == acc + WholeRemoval(c, acc, removed, segment, pts)
  {
    var sigs := AppendCmpSigs([], c, removed, pts);
    assert sigs == CmpSigsOf(c, removed, pts);
    r := acc + [SegmentRemove(segment)];
    r := AppendDisconnectAll(r, c, sigs);
  }

  // ---------------------------------------------------------------------------
  // Splitting a net segment
  // ---------------------------------------------------------------------------

  /** A connected piece of what is left of a segment, its sets listed in the order they are visited. */
  datatype Piece = Piece(netPoints: seq<NetPoint>, netLines: seq<NetLine>)

  function Sets(p: Piece): SubSegment
  {
    SubSegment(Elements(p.netPoints), Elements(p.netLines))
  }

  /**
   * The pieces list the connected components of the points `pts` and lines
   * `lines`, each element once: they share nothing and cover everything.
   */
  ghost predicate SplitOf(ps: seq<Piece>, pts: set<NetPoint>, lines: set<NetLine>)
  {
    var comps := seq(|ps|, i requires 0 <= i < |ps| => Sets(ps[i]));
    (forall i :: 0 <= i < |ps| ==> Distinct(ps[i].netPoints) && Distinct(ps[i].netLines))
    && PointsOf(comps) == pts && LinesOf(comps) == lines && PairwiseDisjoint(comps)
    && forall k :: 0 <= k < |comps| ==> IsComponent(comps[k], pts, lines)
  }

  /** Iterating a set: each element once, in an order the model leaves open. */
  method Enumerate<T>(s: set<T>) returns (xs: seq<T>)
    ensures Distinct(xs) && Elements(xs) == s
  {
    xs := [];
    var left := s;
    while left != {}
      invariant Distinct(xs) && Elements(xs) + left == s && Elements(xs) !! left
      decreases left
    {
      var x :| x in left;
      DistinctSnoc(xs, x);
      xs := xs + [x];
      left := left - {x};
    }
  }

  /** getNonCohesiveNetSegmentSubSegments, with each piece's sets listed in the order they are iterated. */
  method SplitPieces(pts: set<NetPoint>, lines: set<NetLine>) returns (ps: seq<Piece>)
    requires RegisteredAtEnds(pts, lines) && EndsIn(lines, pts)
    ensures SplitOf(ps, pts, lines)
  {
    var comps := SubSegments(pts, lines);
    ps := [];
    var i := 0;
    while i < |comps|
      invariant 0 <= i <= |comps| && |ps| == i
      invariant forall k :: 0 <= k < i ==> Distinct(ps[k].netPoints) && Distinct(ps[k].netLines) && Sets(ps[k]) == comps[k]
    {
      var xs := Enumerate(comps[i].netPoints);
      var ls := Enumerate(comps[i].netLines);
      ps := ps + [Piece(xs, ls)];
      i := i + 1;
    }
    assert seq(|ps|, i requires 0 <= i < |ps| => Sets(ps[i])) == comps;
  }

  /** Every line of a piece ends at points of the same piece. */
  lemma PieceLinesClosed(ps: seq<Piece>, pts: set<NetPoint>, lines: set<NetLine>, i: nat, l: NetLine)
    requires SplitOf(ps, pts, lines) && i < |ps| && l in ps[i].netLines
    ensures l.start in ps[i].netPoints && l.end in ps[i].netPoints
  {
    var comps := seq(|ps|, i requires 0 <= i < |ps| => Sets(ps[i]));
    assert comps[i] == Sets(ps[i]);
    assert IsComponent(comps[i], pts, lines);
    assert l in comps[i].netLines;
    if l.start in comps[i].netPoints {
      assert Touches(l, l.start);
    } else {
      assert Touches(l, l.end);
    }
  }

  /** The pieces together hold exactly the points and the lines they split. */
  lemma PiecesCover(ps: seq<Piece>, pts: set<NetPoint>, lines: set<NetLine>, q: NetPoint, l: NetLine)
    requires SplitOf(ps, pts, lines)
    ensures q in pts <==> exists i :: 0 <= i < |ps| && q in ps[i].netPoints
    ensures l in lines <==> exists i :: 0 <= i < |ps| && l in ps[i].netLines
  {
    var comps := seq(|ps|, i requires 0 <= i < |ps| => Sets(ps[i]));
    InPointsOf(comps, q);
    InLinesOf(comps, l);
    forall i | 0 <= i < |ps| ensures comps[i] == Sets(ps[i]) { }
  }

  /** A copy of a net point: on the same pin when attached to one, otherwise at the same position. */
  function PointCopy(p: NetPoint): (r: NewPoint)
    reads p
  {
    NewPoint(p, if p.pin.Some? then OnPin(p.pin.value) else AtPosition(p.position))
  }

  function PointCopies(pts: seq<NetPoint>): seq<NewPoint>
    reads pts
  {
    seq(|pts|, i requires 0 <= i < |pts| reads pts => PointCopy(pts[i]))
  }

  /** A copy of a net line, between the copies of its two end points. */
  function LineCopy(l: NetLine): LineSpec
  {
    LineBetween(CopyOf(l.start), CopyOf(l.end))
  }

  function LineCopies(ls: seq<NetLine>): seq<LineSpec>
  {
    seq(|ls|, i requires 0 <= i < |ls| => LineCopy(ls[i]))
  }

  /** createNewSubNetSegment for the `k`-th segment the composite creates: a new segment of `signal`, then its elements. */
  function PieceChildren(signal: NetSignal, k: nat, p: Piece): seq<Child>
    reads set q | q in p.netPoints
  {
    [SegmentAddNew(signal, k), AddElements(CreatedSegment(k), PointCopies(p.netPoints), LineCopies(p.netLines))]
  }

  /** The sub-segments of the pieces, numbered from `k0` on. */
  function PiecesChildren(signal: NetSignal, k0: nat, ps: seq<Piece>): seq<Child>
    reads set p, q | p in ps && q in p.netPoints :: q
  {
    if ps == [] then []
    else
      var last := ps[|ps| - 1];
      assert last in ps;
      PiecesChildren(signal, k0, ps[..|ps| - 1]) + PieceChildren(signal, k0 + |ps| - 1, last)
  }

  lemma {:induction false} PiecesChildrenShape(signal: NetSignal, k0: nat, ps: seq<Piece>)
    ensures |PiecesChildren(signal, k0, ps)| == 2 * |ps|
    ensures forall i :: 0 <= i < |ps| ==>
              (PiecesChildren(signal, k0, ps)[2 * i] == SegmentAddNew(signal, k0 + i)
               && PiecesChildren(signal, k0, ps)[2 * i + 1]
                  == AddElements(CreatedSegment(k0 + i), PointCopies(ps[i].netPoints), LineCopies(ps[i].netLines)))
  {
    if ps != [] {
      var n := |ps| - 1;
      var front := PiecesChildren(signal, k0, ps[..n]);
      PiecesChildrenShape(signal, k0, ps[..n]);
      var r := PiecesChildren(signal, k0, ps);
      assert r == front + PieceChildren(signal, k0 + n, ps[n]);
      forall i | 0 <= i < n
        ensures r[2 * i] == SegmentAddNew(signal, k0 + i)
        ensures r[2 * i + 1] == AddElements(CreatedSegment(k0 + i), PointCopies(ps[i].netPoints), LineCopies(ps[i].netLines))
      {
        assert r[2 * i] == front[2 * i] && r[2 * i + 1] == front[2 * i + 1];
        assert ps[..n][i] == ps[i];
      }
    }
  }

  /**
   * splitUpNetSegment after the children `log`: remove the whole segment,
   * disconnect the component signals the selected net points free (each
   * once), then create one new segment per piece of what is left.
   */
  function SplitUp(c: Circuit, log: seq<Child>, removed: set<NetPoint>, segment: NetSegment, selected: seq<NetPoint>,
                   ps: seq<Piece>, k0: nat): seq<Child>
    reads segment, selected, set p, q | p in ps && q in p.netPoints :: q
  {
    [SegmentRemove(segment)] + DisconnectAll(c, log + [SegmentRemove(segment)], InsertAll([], CmpSigsOf(c, removed, selected)))
    + PiecesChildren(segment.netSignal, k0, ps)
  }

  lemma {:induction false} PiecesChildrenKinds(signal: NetSignal, k0: nat, ps: seq<Piece>)
    ensures forall x :: x in PiecesChildren(signal, k0, ps) ==> x.SegmentAddNew? || x.AddElements?
  {
    if ps != [] {
      PiecesChildrenKinds(signal, k0, ps[..|ps| - 1]);
    }
  }

  /** A split takes the old segment off first, then only detaches, in order, up to the pieces. */
  lemma SplitUpHead(c: Circuit, log: seq<Child>, removed: set<NetPoint>, segment: NetSegment, selected: seq<NetPoint>,
                    ps: seq<Piece>, k0: nat)
    ensures var r := SplitUp(c, log, removed, segment, selected, ps, k0);
            var m := |r| - 2 * |ps|;
            1 <= m && r[0] == SegmentRemove(segment) && DetachesFrom(log + r[..m], |log| + 1, c)
  {
    var sigs := InsertAll([], CmpSigsOf(c, removed, selected));
    var head := log + [SegmentRemove(segment)];
    var mid := DisconnectAll(c, head, sigs);
    var r := SplitUp(c, log, removed, segment, selected, ps, k0);
    assert r == [SegmentRemove(segment)] + mid + PiecesChildren(segment.netSignal, k0, ps);
    PiecesChildrenShape(segment.netSignal, k0, ps);
    assert log + r[..|r| - 2 * |ps|] == head + mid;
    DisconnectAllFacts(c, head, sigs);
  }

  /** A split adds no removal of a board line or point that the log already has. */
  lemma SplitUpOnce(c: Circuit, log: seq<Child>, removed: set<NetPoint>, segment: NetSegment, selected: seq<NetPoint>,
                    ps: seq<Piece>, k0: nat)
    requires RemovesOnce(log) && BoardListsDistinct(c)
    ensures RemovesOnce(log + SplitUp(c, log, removed, segment, selected, ps, k0))
  {
    var sigs := InsertAll([], CmpSigsOf(c, removed, selected));
    var head := log + [SegmentRemove(segment)];
    var tail := PiecesChildren(segment.netSignal, k0, ps);
    RemovesOnceConcat(log, [SegmentRemove(segment)]);
    DisconnectAllOnce(c, head, sigs);
    PiecesChildrenKinds(segment.netSignal, k0, ps);
    RemovesOnceAppendOther(head + DisconnectAll(c, head, sigs), tail);
    SplitUpParts(c, log, removed, segment, selected, ps, k0);
  }

  lemma SplitUpParts(c: Circuit, log: seq<Child>, removed: set<NetPoint>, segment: NetSegment, selected: seq<NetPoint>,
                     ps: seq<Piece>, k0: nat)
    ensures var head := log + [SegmentRemove(segment)];
            log + SplitUp(c, log, removed, segment, selected, ps, k0)
            == head + DisconnectAll(c, head, InsertAll([], CmpSigsOf(c, removed, selected))) + PiecesChildren(segment.netSignal, k0, ps)
  {
    var a := [SegmentRemove(segment)];
    var d := DisconnectAll(c, log + a, InsertAll([], CmpSigsOf(c, removed, selected)));
    var t := PiecesChildren(segment.netSignal, k0, ps);
    assert SplitUp(c, log, removed, segment, selected, ps, k0) == a + d + t;
    assert log + (a + d + t) == (log + a) + d + t;
  }

  /**
   * The pieces close a split: for piece `i`, a new segment numbered `k0 + i`
   * of the old segment's net signal, and into it a copy of each of the
   * piece's points (on the same pin, or at the same position) and of each of
   * its lines.
   */
  lemma SplitUpPieces(c: Circuit, log0: seq<Child>, removed: set<NetPoint>, segment: NetSegment, selected: seq<NetPoint>,
                      ps: seq<Piece>, k0: nat)
    ensures var log := SplitUp(c, log0, removed, segment, selected, ps, k0);
            var m := |log| - 2 * |ps|;
            0 <= m && forall i :: 0 <= i < |ps| ==>
              (log[m + 2 * i] == SegmentAddNew(segment.netSignal, k0 + i)
               && log[m + 2 * i + 1] == AddElements(CreatedSegment(k0 + i), PointCopies(ps[i].netPoints), LineCopies(ps[i].netLines)))
  {
    var head := [SegmentRemove(segment)] + DisconnectAll(c, log0 + [SegmentRemove(segment)], InsertAll([], CmpSigsOf(c, removed, selected)));
    var tail := PiecesChildren(segment.netSignal, k0, ps);
    var log := SplitUp(c, log0, removed, segment, selected, ps, k0);
    assert log == head + tail;
    PiecesChildrenShape(segment.netSignal, k0, ps);
    forall j | 0 <= j < |tail| ensures log[|head| + j] == tail[j] {
    }
  }

  /**
   * The component signals a split moves are exactly those the selected points
   * free, each once, and each to no net signal.
   */
  lemma SplitUpMoves(c: Circuit, log0: seq<Child>, removed: set<NetPoint>, segment: NetSegment, selected: seq<NetPoint>,
                     ps: seq<Piece>, k0: nat)
    ensures forall cs, x :: CompSigSetNetSignal(cs, x) in SplitUp(c, log0, removed, segment, selected, ps, k0) <==>
                              FreedBy(c, removed, selected, cs) && x == None
    ensures Distinct(InsertAll([], CmpSigsOf(c, removed, selected)))
  {
    var sigs := InsertAll([], CmpSigsOf(c, removed, selected));
    var mid := DisconnectAll(c, log0 + [SegmentRemove(segment)], sigs);
    var tail := PiecesChildren(segment.netSignal, k0, ps);
    var log := SplitUp(c, log0, removed, segment, selected, ps, k0);
    assert log == [SegmentRemove(segment)] + mid + tail;
    PiecesChildrenKinds(segment.netSignal, k0, ps);
    DisconnectAllFacts(c, log0 + [SegmentRemove(segment)], sigs);
    InsertAllElements([], CmpSigsOf(c, removed, selected));
    forall cs ensures cs in sigs <==> FreedBy(c, removed, selected, cs) {
      CmpSigsOfHas(c, removed, selected, cs);
    }
    forall cs, x ensures CompSigSetNetSignal(cs, x) in log <==> CompSigSetNetSignal(cs, x) in mid {
      assert CompSigSetNetSignal(cs, x) !in tail;
    }
  }

  /** Every line of every piece ends at points of the same piece, so the copied lines join copied points. */
  lemma PiecesClosed(ps: seq<Piece>, pts: set<NetPoint>, lines: set<NetLine>)
    requires SplitOf(ps, pts, lines)
    ensures forall i, l :: 0 <= i < |ps| && l in ps[i].netLines ==> l.start in ps[i].netPoints && l.end in ps[i].netPoints
  {
    forall i, l | 0 <= i < |ps| && l in ps[i].netLines ensures l.start in ps[i].netPoints && l.end in ps[i].netPoints {
      PieceLinesClosed(ps, pts, lines, i, l);
    }
  }

  /** The loop of createNewSubNetSegment over the piece's points. */
  method AppendPointCopies(acc: seq<NewPoint>, pts: seq<NetPoint>) returns (r: seq<NewPoint>)
    ensures r == acc + PointCopies(pts)
  {
    r := acc;
    var i := 0;
    while i < |pts|
      invariant 0 <= i <= |pts| && |r| == |acc| + i
      invariant r[..|acc|] == acc && forall k :: 0 <= k < i ==> r[|acc| + k] == PointCopy(pts[k])
    {
      var p := pts[i];
      if p.pin.Some? {
        r := r + [NewPoint(p, OnPin(p.pin.value))];
      } else {
        r := r + [NewPoint(p, AtPosition(p.position))];
      }
      i := i + 1;
    }
  }

  /** The loop of createNewSubNetSegment over the piece's lines. */
  method AppendLineCopies(acc: seq<LineSpec>, ls: seq<NetLine>) returns (r: seq<LineSpec>)
    ensures r == acc + LineCopies(ls)
  {
    r := acc;
    var i := 0;
    while i < |ls|
      invariant 0 <= i <= |ls| && |r| == |acc| + i
      invariant r[..|acc|] == acc && forall k :: 0 <= k < i ==> r[|acc| + k] == LineCopy(ls[k])
    {
      r := r + [LineBetween(CopyOf(ls[i].start), CopyOf(ls[i].end))];
      i := i + 1;
    }
  }

  /** createNewSubNetSegment. */
  method CreateSubSegment(acc: seq<Child>, signal: NetSignal, k: nat, p: Piece) returns (r: seq<Child>)
    ensures r == acc + PieceChildren(signal, k, p)
  {
    r := acc + [SegmentAddNew(signal, k)];
    var points := AppendPointCopies([], p.netPoints);
    var lines := AppendLineCopies([], p.netLines);
    assert points == PointCopies(p.netPoints) && lines == LineCopies(p.netLines);
    r := r + [AddElements(CreatedSegment(k), points, lines)];
  }

  /** The loop of splitUpNetSegment over the pieces. */
  method AppendPieces(acc: seq<Child>, signal: NetSignal, k0: nat, ps: seq<Piece>) returns (r: seq<Child>)
    ensures r == acc + PiecesChildren(signal, k0, ps)
  {
    r := acc;
    var i := 0;
    while i < |ps|
      invariant 0 <= i <= |ps|
      invariant r == acc + PiecesChildren(signal, k0, ps[..i])
    {
      r := VisitPiece(acc, r, signal, k0, ps, i);
      i := i + 1;
    }
    assert ps[..i] == ps;
  }

  /** One pass of that loop: the piece at `i` becomes the sub-segment numbered `k0 + i`. */
  method VisitPiece(acc: seq<Child>, r0: seq<Child>, signal: NetSignal, k0: nat, ps: seq<Piece>, i: nat) returns (r: seq<Child>)
    requires i < |ps| && r0 == acc + PiecesChildren(signal, k0, ps[..i])
    ensures r == acc + PiecesChildren(signal, k0, ps[..i + 1])
  {
    assert ps[..i + 1][..i] == ps[..i];
    assert PiecesChildren(signal, k0, ps[..i + 1]) == PiecesChildren(signal, k0, ps[..i]) + PieceChildren(signal, k0 + i, ps[i]);
    assert forall p, q :: p in ps && q in p.netPoints ==> allocated(q);
    r := CreateSubSegment(r0, signal, k0 + i, ps[i]);
  }

  /**
   * splitUpNetSegment for the selected points `selected`, given the pieces
   * `ps` of what is left: the component signals are collected before the
   * segment is removed.
   */
  method SplitUpNetSegment(acc: seq<Child>, c: Circuit, removed: set<NetPoint>, segment: NetSegment, selected: seq<NetPoint>,
                           ps: seq<Piece>, k0: nat)
    returns (r: seq<Child>)
    ensures r == acc + SplitUp(c, acc, removed, segment, selected, ps, k0)
  {
    assert forall p, q :: p in ps && q in p.netPoints ==> allocated(q);
    var sigs := InsertCmpSigs([], c, removed, selected);
    var log := AppendDisconnectAll(acc + [SegmentRemove(segment)], c, sigs);
    r := AppendPieces(log, segment.netSignal, k0, ps);
    SplitUpParts(c, acc, removed, segment, selected, ps, k0);
  }

  // ---------------------------------------------------------------------------
  // Removing net labels
  // ---------------------------------------------------------------------------

  /** The first of the forced net names, if there is one. */
  function FirstName(names: seq<string>): Option<string>
  {
    if names == [] then None else Some(names[0])
  }

  /** A new net signal in the net class of the segment's old signal (named by the segment's first forced name, or automatically), then the segment moved to it. */
  function NewSignalFor(c: Circuit, segment: NetSegment): seq<Child>
  {
    [NetSignalAdd(c.segmentNetClass(segment), FirstName(c.segmentForcedNames(segment))), ChangeSegmentToAddedSignal(segment)]
  }

  /**
   * removeNetLabel for each of `labels`, on a segment whose labels were
   * `all`: after each removal, a segment left without labels gets a new net
   * signal.
   */
  function LabelsRemoval(c: Circuit, segment: NetSegment, all: set<NetLabel>, labels: seq<NetLabel>): seq<Child>
  {
    if labels == [] then []
    else LabelsRemoval(c, segment, all, labels[..|labels| - 1]) + [LabelRemove(labels[|labels| - 1])]
         + (if all - Elements(labels) == {} then NewSignalFor(c, segment) else [])
  }

  function LabelRemovals(labels: seq<NetLabel>): seq<Child>
  {
    seq(|labels|, i requires 0 <= i < |labels| => LabelRemove(labels[i]))
  }

  /**
   * For distinct labels of the segment: the labels are removed in order, and
   * a new net signal is added (with the segment moved to it) exactly when the
   * last label of the segment went, once, at the end.
   */
  lemma {:induction false} LabelsRemovalFacts(c: Circuit, segment: NetSegment, all: set<NetLabel>, labels: seq<NetLabel>)
    requires Distinct(labels) && Elements(labels) <= all
    ensures LabelsRemoval(c, segment, all, labels) ==
            LabelRemovals(labels) + (if labels != [] && Elements(labels) == all then NewSignalFor(c, segment) else [])
  {
    if labels != [] {
      var n := |labels| - 1;
      var front := labels[..n];
      DistinctFront(labels);
      assert Elements(labels) == Elements(front) + {labels[n]} by { assert labels == front + [labels[n]]; }
      LabelsRemovalFacts(c, segment, all, front);
      assert LabelsRemoval(c, segment, all, labels) == LabelsRemoval(c, segment, all, front) + [LabelRemove(labels[n])]
             + (if all - Elements(labels) == {} then NewSignalFor(c, segment) else []);
      assert all - Elements(labels) == {} <==> Elements(labels) == all;
      assert front != [] ==> Elements(front) != all by { assert labels[n] in all; }
      assert LabelRemovals(labels) == LabelRemovals(front) + [LabelRemove(labels[n])];
    }
  }

  /** Removing labels removes nothing from the boards. */
  lemma {:induction false} LabelsRemovalKinds(c: Circuit, segment: NetSegment, all: set<NetLabel>, labels: seq<NetLabel>)
    ensures forall x :: x in LabelsRemoval(c, segment, all, labels) ==> !x.BoardLineRemove? && !x.BoardPointRemove?
  {
    if labels != [] {
      LabelsRemovalKinds(c, segment, all, labels[..|labels| - 1]);
    }
  }

  /** The loop of performExecute removing the selected labels of a segment with no selected lines. */
  method RemoveNetLabels(acc: seq<Child>, c: Circuit, segment: NetSegment, labels: seq<NetLabel>) returns (r: seq<Child>)
    ensures r == acc + LabelsRemoval(c, segment, segment.netLabels, labels)
  {
    r := acc;
    var left := segment.netLabels;
    var i := 0;
    while i < |labels|
      invariant 0 <= i <= |labels|
      invariant left == segment.netLabels - Elements(labels[..i])
      invariant r == acc + LabelsRemoval(c, segment, segment.netLabels, labels[..i])
    {
      assert labels[..i + 1][..i] == labels[..i];
      assert Elements(labels[..i + 1]) == Elements(labels[..i]) + {labels[i]};
      r := r + [LabelRemove(labels[i])];
      left := left - {labels[i]};
      if left == {} {
        var names := c.segmentForcedNames(segment);
        var name: Option<string> := None;
        if names != [] {
          name := Some(names[0]);
        }
        r := r + [NetSignalAdd(c.segmentNetClass(segment), name), ChangeSegmentToAddedSignal(segment)];
      }
      i := i + 1;
    }
    assert labels[..i] == labels;
  }

  // ---------------------------------------------------------------------------
  // Removing symbols
  // ---------------------------------------------------------------------------

  /** The net point a pin holds once the segments are done: its own, or the copy of it in the `k`-th created segment. */
  datatype Held = Original(point: NetPoint) | Copy(source: NetPoint, k: nat)

  /**
   * What a pin holds after the segment steps, given the net points whose
   * segments went (`removed`) and the points a split re-created on their
   * pins (`copies`, each with the number of its new segment): the copy when
   * there is one; nothing when its point went; otherwise its own point.
   */
  function HeldAfter(c: Circuit, removed: set<NetPoint>, copies: map<NetPoint, nat>, pin: SymbolPin): (r: Option<Held>)
    ensures r.None? <==> c.pinNetPoint(pin).None? || (c.pinNetPoint(pin).value in removed && c.pinNetPoint(pin).value !in copies)
    ensures r.Some? && r.value.Original? ==> r.value.point == c.pinNetPoint(pin).value && r.value.point !in removed
    ensures r.Some? && r.value.Copy? ==> r.value.source == c.pinNetPoint(pin).value && r.value.source in copies
                                         && r.value.k == copies[r.value.source]
  {
    match c.pinNetPoint(pin)
    case None => None
    case Some(np) =>
      if np in copies then Some(Copy(np, copies[np]))
      else if np in removed then None
      else Some(Original(np))
  }

  /** The child that takes the held point off its pin. */
  function Unpin(h: Held): Child
  {
    match h
    case Original(np) => NetPointSetPin(np, None)
    case Copy(source, _) => CopySetPin(source, None)
  }

  /** detachNetPointFromSymbolPin: the point's segment is taken off, the point detached from the pin, the segment put back. */
  function Detach(h: Held): (r: seq<Child>)
    ensures |r| == 3 && r[1] == Unpin(h)
    ensures h.Original? ==> r[0] == SegmentRemove(h.point.segment) && r[2] == SegmentAdd(h.point.segment)
    ensures h.Copy? ==> r[0] == CreatedSegmentRemove(h.k) && r[2] == CreatedSegmentAdd(h.k)
  {
    match h
    case Original(np) => [SegmentRemove(np.segment), NetPointSetPin(np, None), SegmentAdd(np.segment)]
    case Copy(source, k) => [CreatedSegmentRemove(k), CopySetPin(source, None), CreatedSegmentAdd(k)]
  }

  /** Detaching what each pin holds, for the pins that hold something. */
  function PinsDetach(c: Circuit, removed: set<NetPoint>, copies: map<NetPoint, nat>, pins: seq<SymbolPin>): seq<Child>
  {
    if pins == [] then []
    else PinsDetach(c, removed, copies, pins[..|pins| - 1]) +
         match HeldAfter(c, removed, copies, pins[|pins| - 1])
         case Some(h) => Detach(h)
         case None => []
  }

  /** A child that attaches a point to a pin or detaches it. */
  predicate Pins(x: Child)
  {
    x.NetPointSetPin? || x.CopySetPin?
  }

  /**
   * Exactly what the pins hold is taken off them: each pin that holds a
   * point has it detached, and every pin change is such a detachment.
   */
  lemma {:induction false} PinsDetachUnpins(c: Circuit, removed: set<NetPoint>, copies: map<NetPoint, nat>, pins: seq<SymbolPin>)
    ensures forall pin :: pin in pins && HeldAfter(c, removed, copies, pin).Some? ==>
              Unpin(HeldAfter(c, removed, copies, pin).value) in PinsDetach(c, removed, copies, pins)
    ensures forall x :: x in PinsDetach(c, removed, copies, pins) && Pins(x) ==>
              exists pin :: pin in pins && HeldAfter(c, removed, copies, pin).Some? && x == Unpin(HeldAfter(c, removed, copies, pin).value)
  {
    if pins != [] {
      var n := |pins| - 1;
      var front := PinsDetach(c, removed, copies, pins[..n]);
      var h := HeldAfter(c, removed, copies, pins[n]);
      var last := if h.Some? then Detach(h.value) else [];
      PinsDetachUnpins(c, removed, copies, pins[..n]);
      assert PinsDetach(c, removed, copies, pins) == front + last;
      assert pins == pins[..n] + [pins[n]];
      forall pin | pin in pins && HeldAfter(c, removed, copies, pin).Some?
        ensures Unpin(HeldAfter(c, removed, copies, pin).value) in front + last
      {
        if pin == pins[n] {
          assert last[1] == Unpin(h.value);
        } else {
          assert pin in pins[..n];
        }
      }
      forall x | x in front + last && Pins(x)
        ensures exists pin :: pin in pins && HeldAfter(c, removed, copies, pin).Some? && x == Unpin(HeldAfter(c, removed, copies, pin).value)
      {
        if x in front {
          var pin :| pin in pins[..n] && HeldAfter(c, removed, copies, pin).Some? && x == Unpin(HeldAfter(c, removed, copies, pin).value);
          assert pin in pins;
        } else {
          assert x == last[1];
          assert pins[n] in pins;
        }
      }
    }
  }

  function DevicesRemoval(devices: seq<Device>): seq<Child>
  {
    seq(|devices|, i requires 0 <= i < |devices| => DeviceRemove(devices[i]))
  }

  /**
   * removeSymbol, when the symbols `before` have been removed already: the
   * pins are detached, the symbol removed, and a component left without
   * placed symbols is removed after its devices on the boards.
   */
  function SymbolRemoval(c: Circuit, removed: set<NetPoint>, copies: map<NetPoint, nat>, symbol: Symbol, before: set<Symbol>)
    : seq<Child>
  {
    var comp := c.symbolComponent(symbol);
    PinsDetach(c, removed, copies, symbol.pins) + [SymbolRemove(symbol)]
    + if c.componentSymbols(comp) <= before + {symbol} then DevicesRemoval(c.componentDevices(comp)) + [ComponentRemove(comp)] else []
  }

  /** The loop of performExecute over the selected symbols. */
  function SymbolsRemoval(c: Circuit, removed: set<NetPoint>, copies: map<NetPoint, nat>, symbols: seq<Symbol>): seq<Child>
  {
    if symbols == [] then []
    else var n := |symbols| - 1;
         SymbolsRemoval(c, removed, copies, symbols[..n]) + SymbolRemoval(c, removed, copies, symbols[n], Elements(symbols[..n]))
  }

  lemma SymbolsRemovalStep(acc: seq<Child>, c: Circuit, removed: set<NetPoint>, copies: map<NetPoint, nat>, symbols: seq<Symbol>, i: nat)
    requires i < |symbols|
    ensures acc + SymbolsRemoval(c, removed, copies, symbols[..i + 1])
            == acc + SymbolsRemoval(c, removed, copies, symbols[..i]) + SymbolRemoval(c, removed, copies, symbols[i], Elements(symbols[..i]))
  {
    assert symbols[..i + 1][..i] == symbols[..i];
  }

  /** The symbol at `k` is the last of the placed symbols of its component to go. */
  ghost predicate LastOfComponent(c: Circuit, symbols: seq<Symbol>, k: int, comp: Component)
  {
    0 <= k < |symbols| && c.symbolComponent(symbols[k]) == comp && c.componentSymbols(comp) <= Elements(symbols[..k + 1])
  }

  lemma SymbolRemovalHas(c: Circuit, removed: set<NetPoint>, copies: map<NetPoint, nat>, symbol: Symbol, before: set<Symbol>,
                         comp: Component)
    ensures ComponentRemove(comp) in SymbolRemoval(c, removed, copies, symbol, before) <==>
              c.symbolComponent(symbol) == comp && c.componentSymbols(comp) <= before + {symbol}
  {
    var pins := PinsDetach(c, removed, copies, symbol.pins);
    assert ComponentRemove(comp) !in pins by { PinsDetachKinds(c, removed, copies, symbol.pins); }
  }

  lemma {:induction false} PinsDetachKinds(c: Circuit, removed: set<NetPoint>, copies: map<NetPoint, nat>, pins: seq<SymbolPin>)
    ensures forall x :: x in PinsDetach(c, removed, copies, pins) ==>
              x.SegmentRemove? || x.NetPointSetPin? || x.SegmentAdd?
              || x.CreatedSegmentRemove? || x.CopySetPin? || x.CreatedSegmentAdd?
  {
    if pins != [] {
      var n := |pins| - 1;
      var held := HeldAfter(c, removed, copies, pins[n]);
      var tail := if held.Some? then Detach(held.value) else [];
      PinsDetachKinds(c, removed, copies, pins[..n]);
      assert PinsDetach(c, removed, copies, pins) == PinsDetach(c, removed, copies, pins[..n]) + tail;
      if held.Some? {
        assert forall x | x in tail :: x == tail[0] || x == tail[1] || x == tail[2];
      }
    }
  }

  /**
   * A component is removed exactly when one of the selected symbols is the
   * last of its placed symbols to go; when the view is consistent (the placed
   * symbols of a component belong to it), that is exactly when some selected
   * symbol belongs to it and all its placed symbols are selected.
   */
  lemma {:induction false} ComponentRemoved(c: Circuit, removed: set<NetPoint>, copies: map<NetPoint, nat>, symbols: seq<Symbol>,
                                            comp: Component)
    ensures ComponentRemove(comp) in SymbolsRemoval(c, removed, copies, symbols) <==> exists k :: LastOfComponent(c, symbols, k, comp)
  {
    if symbols != [] {
      var n := |symbols| - 1;
      var front := symbols[..n];
      ComponentRemoved(c, removed, copies, front, comp);
      SymbolRemovalHas(c, removed, copies, symbols[n], Elements(front), comp);
      assert SymbolsRemoval(c, removed, copies, symbols) ==
             SymbolsRemoval(c, removed, copies, front) + SymbolRemoval(c, removed, copies, symbols[n], Elements(front));
      LastOfComponentSnoc(c, symbols, comp);
    }
  }

  /** The last symbol of a component to go is one of the earlier symbols, or else the newest one. */
  lemma LastOfComponentSnoc(c: Circuit, symbols: seq<Symbol>, comp: Component)
    requires symbols != []
    ensures var n := |symbols| - 1;
            (exists k :: LastOfComponent(c, symbols, k, comp)) <==>
            (exists k :: LastOfComponent(c, symbols[..n], k, comp))
            || (c.symbolComponent(symbols[n]) == comp && c.componentSymbols(comp) <= Elements(symbols[..n]) + {symbols[n]})
  {
    var n := |symbols| - 1;
    var front := symbols[..n];
    assert symbols[..n + 1] == symbols;
    assert Elements(symbols) == Elements(front) + {symbols[n]} by { assert symbols == front + [symbols[n]]; }
    if exists k :: LastOfComponent(c, front, k, comp) {
      var k :| LastOfComponent(c, front, k, comp);
      assert symbols[..k + 1] == front[..k + 1];
      assert LastOfComponent(c, symbols, k, comp);
    }
    if exists k :: LastOfComponent(c, symbols, k, comp) {
      var k :| LastOfComponent(c, symbols, k, comp);
      if k < n {
        assert symbols[..k + 1] == front[..k + 1];
        assert LastOfComponent(c, front, k, comp);
      }
    }
    if c.symbolComponent(symbols[n]) == comp && c.componentSymbols(comp) <= Elements(front) + {symbols[n]} {
      assert LastOfComponent(c, symbols, n, comp);
    }
  }

  lemma ComponentRemovedWhenAllSelected(c: Circuit, removed: set<NetPoint>, copies: map<NetPoint, nat>, symbols: seq<Symbol>,
                                        comp: Component)
    requires forall s :: s in c.componentSymbols(comp) ==> c.symbolComponent(s) == comp
    ensures ComponentRemove(comp) in SymbolsRemoval(c, removed, copies, symbols) <==>
              (exists s :: s in symbols && c.symbolComponent(s) == comp) && c.componentSymbols(comp) <= Elements(symbols)
  {
    ComponentRemoved(c, removed, copies, symbols, comp);
    if exists k :: LastOfComponent(c, symbols, k, comp) {
      var k :| LastOfComponent(c, symbols, k, comp);
      assert symbols[k] in symbols;
      assert Elements(symbols[..k + 1]) <= Elements(symbols);
    }
    if (exists s :: s in symbols && c.symbolComponent(s) == comp) && c.componentSymbols(comp) <= Elements(symbols) {
      // the last selected symbol of the component
      var k := LastIndexOf(c, symbols, comp);
      forall s | s in c.componentSymbols(comp) ensures s in Elements(symbols[..k + 1]) {
        var j :| 0 <= j < |symbols| && symbols[j] == s;
        assert j <= k;
        assert symbols[..k + 1][j] == s;
      }
      assert LastOfComponent(c, symbols, k, comp);
    }
  }

  /** The last position of a symbol of `comp` in the list. */
  lemma LastIndexOf(c: Circuit, symbols: seq<Symbol>, comp: Component) returns (k: int)
    requires exists s :: s in symbols && c.symbolComponent(s) == comp
    ensures 0 <= k < |symbols| && c.symbolComponent(symbols[k]) == comp
    ensures forall j :: k < j < |symbols| ==> c.symbolComponent(symbols[j]) != comp
  {
    k := |symbols| - 1;
    while c.symbolComponent(symbols[k]) != comp
      invariant 0 <= k < |symbols|
      invariant forall j :: k < j < |symbols| ==> c.symbolComponent(symbols[j]) != comp
      invariant exists j :: 0 <= j <= k && c.symbolComponent(symbols[j]) == comp
      decreases k
    {
      k := k - 1;
    }
  }

  /** Removing symbols removes nothing from the boards directly. */
  lemma {:induction false} SymbolsRemovalKinds(c: Circuit, removed: set<NetPoint>, copies: map<NetPoint, nat>, symbols: seq<Symbol>)
    ensures forall x :: x in SymbolsRemoval(c, removed, copies, symbols) ==> !x.BoardLineRemove? && !x.BoardPointRemove?
  {
    if symbols != [] {
      var n := |symbols| - 1;
      SymbolsRemovalKinds(c, removed, copies, symbols[..n]);
      SymbolRemovalKinds(c, removed, copies, symbols[n], Elements(symbols[..n]));
    }
  }

  lemma SymbolRemovalKinds(c: Circuit, removed: set<NetPoint>, copies: map<NetPoint, nat>, symbol: Symbol, before: set<Symbol>)
    ensures forall x :: x in SymbolRemoval(c, removed, copies, symbol, before) ==> !x.BoardLineRemove? && !x.BoardPointRemove?
  {
    var comp := c.symbolComponent(symbol);
    var devices := DevicesRemoval(c.componentDevices(comp));
    PinsDetachKinds(c, removed, copies, symbol.pins);
    assert forall x :: x in devices ==> x.DeviceRemove?;
  }

  lemma PinsDetachStep(acc: seq<Child>, c: Circuit, removed: set<NetPoint>, copies: map<NetPoint, nat>, pins: seq<SymbolPin>, i: nat)
    requires i < |pins|
    ensures var held := HeldAfter(c, removed, copies, pins[i]);
            acc + PinsDetach(c, removed, copies, pins[..i + 1])
            == acc + PinsDetach(c, removed, copies, pins[..i]) + (if held.Some? then Detach(held.value) else [])
  {
    assert pins[..i + 1][..i] == pins[..i];
  }

  /** The loop of removeSymbol over the symbol's pins. */
  method AppendPinsDetach(acc: seq<Child>, c: Circuit, removed: set<NetPoint>, copies: map<NetPoint, nat>, pins: seq<SymbolPin>)
    returns (r: seq<Child>)
    ensures r == acc + PinsDetach(c, removed, copies, pins)
  {
    r := acc;
    var i := 0;
    while i < |pins|
      invariant 0 <= i <= |pins|
      invariant r == acc + PinsDetach(c, removed, copies, pins[..i])
    {
      PinsDetachStep(acc, c, removed, copies, pins, i);
      var held := HeldAfter(c, removed, copies, pins[i]);
      if held.Some? {
        r := r + Detach(held.value);
      }
      i := i + 1;
    }
    assert pins[..i] == pins;
  }

  /** removeSymbol. */
  method RemoveSymbol(acc: seq<Child>, c: Circuit, removed: set<NetPoint>, copies: map<NetPoint, nat>, symbol: Symbol,
                      before: set<Symbol>)
    returns (r: seq<Child>)
    ensures r == acc + SymbolRemoval(c, removed, copies, symbol, before)
  {
    r := AppendPinsDetach(acc, c, removed, copies, symbol.pins);
    r := r + [SymbolRemove(symbol)];
    var comp := c.symbolComponent(symbol);
    if c.componentSymbols(comp) <= before + {symbol} {
      var devices := c.componentDevices(comp);
      var i := 0;
      while i < |devices|
        invariant 0 <= i <= |devices|
        invariant r == acc + PinsDetach(c, removed, copies, symbol.pins) + [SymbolRemove(symbol)] + DevicesRemoval(devices[..i])
      {
        assert DevicesRemoval(devices[..i + 1]) == DevicesRemoval(devices[..i]) + [DeviceRemove(devices[i])];
        r := r + [DeviceRemove(devices[i])];
        i := i + 1;
      }
      assert devices[..i] == devices;
      r := r + [ComponentRemove(comp)];
    }
  }

  /** The loop of performExecute removing the selected symbols. */
  method RemoveSymbols(acc: seq<Child>, c: Circuit, removed: set<NetPoint>, copies: map<NetPoint, nat>, symbols: seq<Symbol>)
    returns (r: seq<Child>)
    ensures r == acc + SymbolsRemoval(c, removed, copies, symbols)
  {
    r := acc;
    var i := 0;
    while i < |symbols|
      invariant 0 <= i <= |symbols|
      invariant r == acc + SymbolsRemoval(c, removed, copies, symbols[..i])
    {
      SymbolsRemovalStep(acc, c, removed, copies, symbols, i);
      r := RemoveSymbol(r, c, removed, copies, symbols[i], Elements(symbols[..i]));
      i := i + 1;
    }
    assert symbols[..i] == symbols;
  }
}
