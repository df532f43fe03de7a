/**
 * Detaching a component signal from the boards: for each footprint pad of
 * the component signal, for each board net point at that pad, remove each
 * of the point's lines and then the point; after all pads, set the
 * component signal's net signal. Removing selected schematic items does
 * this with no net signal, changing a segment's net signal does it with the
 * new signal.
 */
module BoardDetach {
  import opened Base
  import opened Children

  /** One removal per board line, in the order of the list. */
  function LinesRemoval(ls: seq<BoardNetLine>): seq<Child>
  {
    if ls == [] then [] else LinesRemoval(ls[..|ls| - 1]) + [BoardLineRemove(ls[|ls| - 1])]
  }

  /** The removals are exactly the lines, one each, in the order of the list. */
  lemma {:induction false} LinesRemovalElements(ls: seq<BoardNetLine>)
    ensures |LinesRemoval(ls)| == |ls|
    ensures forall i :: 0 <= i < |ls| ==> LinesRemoval(ls)[i] == BoardLineRemove(ls[i])
  {
    if ls != [] {
      LinesRemovalElements(ls[..|ls| - 1]);
    }
  }

  lemma {:induction false} LinesRemovalHas(ls: seq<BoardNetLine>, c: Child)
    ensures c in LinesRemoval(ls) <==> c.BoardLineRemove? && c.boardLine in ls
  {
    if ls != [] {
      LinesRemovalHas(ls[..|ls| - 1], c);
      assert ls == ls[..|ls| - 1] + [ls[|ls| - 1]];
    }
  }

  /** Removal of one board net point: each of its lines, then the point. */
  function PointRemoval(lines: BoardNetPoint -> seq<BoardNetLine>, pt: BoardNetPoint): seq<Child>
  {
    LinesRemoval(lines(pt)) + [BoardPointRemove(pt)]
  }

  function PointsRemoval(lines: BoardNetPoint -> seq<BoardNetLine>, pts: seq<BoardNetPoint>): seq<Child>
  {
    if pts == [] then [] else PointsRemoval(lines, pts[..|pts| - 1]) + PointRemoval(lines, pts[|pts| - 1])
  }

  function PadsRemoval(points: FootprintPad -> seq<BoardNetPoint>, lines: BoardNetPoint -> seq<BoardNetLine>, pads: seq<FootprintPad>): seq<Child>
  {
    if pads == [] then [] else PadsRemoval(points, lines, pads[..|pads| - 1]) + PointsRemoval(lines, points(pads[|pads| - 1]))
  }

  /** The whole detachment of `cmpSig`, ending with setting its net signal to `signal`. */
  function Disconnect(c: Circuit, cmpSig: ComponentSignal, signal: Option<NetSignal>): seq<Child>
  {
    PadsRemoval(c.padPoints, c.boardPointLines, c.cmpSigPads(cmpSig)) + [CompSigSetNetSignal(cmpSig, signal)]
  }

  /**
   * Only board lines and points are removed, and each removal of a board
   * point comes after removals of all of the point's lines.
   */
  ghost predicate LinesBeforePoints(log: seq<Child>, lines: BoardNetPoint -> seq<BoardNetLine>)
  {
    (forall i :: 0 <= i < |log| ==> log[i].BoardLineRemove? || log[i].BoardPointRemove?)
    && forall j, l :: 0 <= j < |log| && log[j].BoardPointRemove? && l in lines(log[j].boardPoint) ==>
         RemovedBefore(log, j, l)
  }

  /** `l` is removed somewhere before position `j` of the log. */
  ghost predicate RemovedBefore(log: seq<Child>, j: int, l: BoardNetLine)
  {
    exists i :: 0 <= i < j && i < |log| && log[i] == BoardLineRemove(l)
  }

  lemma LinesBeforePointsConcat(a: seq<Child>, b: seq<Child>, lines: BoardNetPoint -> seq<BoardNetLine>)
    requires LinesBeforePoints(a, lines) && LinesBeforePoints(b, lines)
    ensures LinesBeforePoints(a + b, lines)
  {
    var s := a + b;
    forall i | 0 <= i < |s| ensures s[i].BoardLineRemove? || s[i].BoardPointRemove? {
      if i < |a| { assert s[i] == a[i]; } else { assert s[i] == b[i - |a|]; }
    }
    forall j, l | 0 <= j < |s| && s[j].BoardPointRemove? && l in lines(s[j].boardPoint)
      ensures RemovedBefore(s, j, l)
    {
      if j < |a| {
        assert s[j] == a[j];
        assert RemovedBefore(a, j, l);
        var i :| 0 <= i < j && i < |a| && a[i] == BoardLineRemove(l);
        assert s[i] == a[i];
      } else {
        assert s[j] == b[j - |a|];
        assert RemovedBefore(b, j - |a|, l);
        var i :| 0 <= i < j - |a| && i < |b| && b[i] == BoardLineRemove(l);
        assert s[i + |a|] == b[i];
      }
    }
  }

  lemma PointRemovalOrdered(lines: BoardNetPoint -> seq<BoardNetLine>, pt: BoardNetPoint)
    ensures LinesBeforePoints(PointRemoval(lines, pt), lines)
  {
    var ls := lines(pt);
    var s := PointRemoval(lines, pt);
    LinesRemovalElements(ls);
    forall j, l | 0 <= j < |s| && s[j].BoardPointRemove? && l in lines(s[j].boardPoint)
      ensures RemovedBefore(s, j, l)
    {
      assert j == |ls|;
      var i :| 0 <= i < |ls| && ls[i] == l;
      assert s[i] == BoardLineRemove(l);
    }
  }

  lemma {:induction false} PointsRemovalOrdered(lines: BoardNetPoint -> seq<BoardNetLine>, pts: seq<BoardNetPoint>)
    ensures LinesBeforePoints(PointsRemoval(lines, pts), lines)
  {
    if pts != [] {
      PointsRemovalOrdered(lines, pts[..|pts| - 1]);
      PointRemovalOrdered(lines, pts[|pts| - 1]);
      LinesBeforePointsConcat(PointsRemoval(lines, pts[..|pts| - 1]), PointRemoval(lines, pts[|pts| - 1]), lines);
    }
  }

  /** Removing a component signal's board items takes every line away before its point. */
  lemma {:induction false} PadsRemovalOrdered(points: FootprintPad -> seq<BoardNetPoint>, lines: BoardNetPoint -> seq<BoardNetLine>, pads: seq<FootprintPad>)
    ensures LinesBeforePoints(PadsRemoval(points, lines, pads), lines)
  {
    if pads != [] {
      PadsRemovalOrdered(points, lines, pads[..|pads| - 1]);
      PointsRemovalOrdered(lines, points(pads[|pads| - 1]));
      LinesBeforePointsConcat(PadsRemoval(points, lines, pads[..|pads| - 1]), PointsRemoval(lines, points(pads[|pads| - 1])), lines);
    }
  }

  lemma PointRemovalHas(lines: BoardNetPoint -> seq<BoardNetLine>, q: BoardNetPoint, pt: BoardNetPoint)
    ensures BoardPointRemove(pt) in PointRemoval(lines, q) <==> pt == q
  {
    var ls := LinesRemoval(lines(q));
    LinesRemovalElements(lines(q));
    assert BoardPointRemove(pt) !in ls by {
      forall i | 0 <= i < |ls| ensures ls[i] != BoardPointRemove(pt) {
        assert ls[i].BoardLineRemove?;
      }
    }
  }

  /** Exactly the board points of the list are removed. */
  lemma {:induction false} PointsRemovalCovers(lines: BoardNetPoint -> seq<BoardNetLine>, pts: seq<BoardNetPoint>, pt: BoardNetPoint)
    ensures BoardPointRemove(pt) in PointsRemoval(lines, pts) <==> pt in pts
  {
    if pts != [] {
      var front := pts[..|pts| - 1];
      PointsRemovalCovers(lines, front, pt);
      PointRemovalHas(lines, pts[|pts| - 1], pt);
      assert pts == front + [pts[|pts| - 1]];
    }
  }

  lemma {:induction false} PadsRemovalCovers(points: FootprintPad -> seq<BoardNetPoint>, lines: BoardNetPoint -> seq<BoardNetLine>, pads: seq<FootprintPad>, pt: BoardNetPoint)
    ensures BoardPointRemove(pt) in PadsRemoval(points, lines, pads) <==> exists k :: 0 <= k < |pads| && pt in points(pads[k])
  {
    if pads != [] {
      var front := pads[..|pads| - 1];
      PadsRemovalCovers(points, lines, front, pt);
      PointsRemovalCovers(lines, points(pads[|pads| - 1]), pt);
      assert PadsRemoval(points, lines, pads) == PadsRemoval(points, lines, front) + PointsRemoval(lines, points(pads[|pads| - 1]));
      if exists k :: 0 <= k < |front| && pt in points(front[k]) {
        var k :| 0 <= k < |front| && pt in points(front[k]);
        assert front[k] == pads[k];
      }
      if exists k :: 0 <= k < |pads| && pt in points(pads[k]) {
        var k :| 0 <= k < |pads| && pt in points(pads[k]);
        if k < |front| { assert front[k] == pads[k]; }
      }
    }
  }

  /**
   * Detaching a component signal: every board point at one of its pads is
   * removed, each after all of its lines, and the component signal gets its
   * new net signal as the last step, after all pad removals.
   */
  lemma DisconnectOrdered(c: Circuit, cmpSig: ComponentSignal, signal: Option<NetSignal>)
    ensures var log := Disconnect(c, cmpSig, signal);
            |log| > 0 && log[|log| - 1] == CompSigSetNetSignal(cmpSig, signal)
            && LinesBeforePoints(log[..|log| - 1], c.boardPointLines)
            && forall pt :: BoardPointRemove(pt) in log <==>
                 exists k :: 0 <= k < |c.cmpSigPads(cmpSig)| && pt in c.padPoints(c.cmpSigPads(cmpSig)[k])
  {
    var pads := c.cmpSigPads(cmpSig);
    var log := Disconnect(c, cmpSig, signal);
    assert log[..|log| - 1] == PadsRemoval(c.padPoints, c.boardPointLines, pads);
    PadsRemovalOrdered(c.padPoints, c.boardPointLines, pads);
    forall pt ensures BoardPointRemove(pt) in log <==> exists k :: 0 <= k < |pads| && pt in c.padPoints(pads[k]) {
      PadsRemovalCovers(c.padPoints, c.boardPointLines, pads, pt);
    }
  }

  /** `pt` is a board point at one of the footprint pads of `cmpSig`. */
  ghost predicate AtPadOf(c: Circuit, cmpSig: ComponentSignal, pt: BoardNetPoint)
  {
    exists k :: 0 <= k < |c.cmpSigPads(cmpSig)| && pt in c.padPoints(c.cmpSigPads(cmpSig)[k])
  }

  /** The board point `pt` is removed somewhere before position `j` of the log. */
  ghost predicate PointRemovedBefore(log: seq<Child>, j: int, pt: BoardNetPoint)
  {
    exists i :: 0 <= i < j && i < |log| && log[i] == BoardPointRemove(pt)
  }

  /**
   * A log of detachments: only board lines and points are removed and
   * component signals re-assigned; every board point goes after all of its
   * lines, and every component signal is re-assigned after all board points
   * at its pads are gone.
   */
  ghost predicate DetachOrdered(log: seq<Child>, c: Circuit)
  {
    (forall i :: 0 <= i < |log| ==> log[i].BoardLineRemove? || log[i].BoardPointRemove? || log[i].CompSigSetNetSignal?)
    && (forall j, l :: 0 <= j < |log| && log[j].BoardPointRemove? && l in c.boardPointLines(log[j].boardPoint) ==>
          RemovedBefore(log, j, l))
    && (forall j, pt :: 0 <= j < |log| && log[j].CompSigSetNetSignal? && AtPadOf(c, log[j].cmpSig, pt) ==>
          PointRemovedBefore(log, j, pt))
  }

  lemma DetachOrderedConcat(a: seq<Child>, b: seq<Child>, c: Circuit)
    requires DetachOrdered(a, c) && DetachOrdered(b, c)
    ensures DetachOrdered(a + b, c)
  {
    var s := a + b;
    forall i | 0 <= i < |s| ensures s[i].BoardLineRemove? || s[i].BoardPointRemove? || s[i].CompSigSetNetSignal? {
      if i < |a| { assert s[i] == a[i]; } else { assert s[i] == b[i - |a|]; }
    }
    forall j, l | 0 <= j < |s| && s[j].BoardPointRemove? && l in c.boardPointLines(s[j].boardPoint)
      ensures RemovedBefore(s, j, l)
    {
      if j < |a| {
        assert s[j] == a[j];
        assert RemovedBefore(a, j, l);
        var i :| 0 <= i < j && i < |a| && a[i] == BoardLineRemove(l);
        assert s[i] == a[i];
      } else {
        assert s[j] == b[j - |a|];
        assert RemovedBefore(b, j - |a|, l);
        var i :| 0 <= i < j - |a| && i < |b| && b[i] == BoardLineRemove(l);
        assert s[i + |a|] == b[i];
      }
    }
    forall j, pt | 0 <= j < |s| && s[j].CompSigSetNetSignal? && AtPadOf(c, s[j].cmpSig, pt)
      ensures PointRemovedBefore(s, j, pt)
    {
      if j < |a| {
        assert s[j] == a[j];
        assert PointRemovedBefore(a, j, pt);
        var i :| 0 <= i < j && i < |a| && a[i] == BoardPointRemove(pt);
        assert s[i] == a[i];
      } else {
        assert s[j] == b[j - |a|];
        assert PointRemovedBefore(b, j - |a|, pt);
        var i :| 0 <= i < j - |a| && i < |b| && b[i] == BoardPointRemove(pt);
        assert s[i + |a|] == b[i];
      }
    }
  }

  /** A single detachment is ordered in this sense. */
  lemma DisconnectDetachOrdered(c: Circuit, cmpSig: ComponentSignal, signal: Option<NetSignal>)
    ensures DetachOrdered(Disconnect(c, cmpSig, signal), c)
  {
    var log := Disconnect(c, cmpSig, signal);
    var n := |log| - 1;
    DisconnectOrdered(c, cmpSig, signal);
    var front := log[..n];
    forall i | 0 <= i < |log| ensures log[i].BoardLineRemove? || log[i].BoardPointRemove? || log[i].CompSigSetNetSignal? {
      if i < n { assert log[i] == front[i]; }
    }
    forall j, l | 0 <= j < |log| && log[j].BoardPointRemove? && l in c.boardPointLines(log[j].boardPoint)
      ensures RemovedBefore(log, j, l)
    {
      assert j < n && log[j] == front[j];
      assert RemovedBefore(front, j, l);
      var i :| 0 <= i < j && i < |front| && front[i] == BoardLineRemove(l);
      assert log[i] == front[i];
    }
    forall j | 0 <= j < n ensures !log[j].CompSigSetNetSignal? {
      assert log[j] == front[j];
    }
    forall j, pt | 0 <= j < |log| && log[j].CompSigSetNetSignal? && AtPadOf(c, log[j].cmpSig, pt)
      ensures PointRemovedBefore(log, j, pt)
    {
      assert j == n;
      assert BoardPointRemove(pt) in log;
      var i :| 0 <= i < |log| && log[i] == BoardPointRemove(pt);
    }
  }

  // ---------------------------------------------------------------------------
  // Detaching after earlier children: what they removed is gone from the board
  // ---------------------------------------------------------------------------

  /** The board lines whose removal is in the log. */
  function LinesGone(log: seq<Child>): set<BoardNetLine>
  {
    set x | x in log && x.BoardLineRemove? :: x.boardLine
  }

  /** The board points whose removal is in the log. */
  function PointsGone(log: seq<Child>): set<BoardNetPoint>
  {
    set x | x in log && x.BoardPointRemove? :: x.boardPoint
  }

  /** The elements of `xs` that are not in `gone`, in order. */
  function Without<T>(xs: seq<T>, gone: set<T>): seq<T>
  {
    if xs == [] then [] else Without(xs[..|xs| - 1], gone) + (if xs[|xs| - 1] in gone then [] else [xs[|xs| - 1]])
  }

  /** Exactly the elements not in `gone` are kept, and a list without repeats stays so. */
  lemma {:induction false} WithoutHas<T>(xs: seq<T>, gone: set<T>)
    ensures forall x :: x in Without(xs, gone) <==> x in xs && x !in gone
    ensures Distinct(xs) ==> Distinct(Without(xs, gone))
  {
    if xs != [] {
      var n := |xs| - 1;
      WithoutHas(xs[..n], gone);
      assert xs == xs[..n] + [xs[n]];
      if Distinct(xs) {
        DistinctFront(xs);
        if xs[n] !in gone {
          DistinctSnoc(Without(xs[..n], gone), xs[n]);
        }
      }
    }
  }

  /** Removal of the board point `pt` after the children `log`: the lines it still has, then the point. */
  function PointRemovalAfter(log: seq<Child>, lines: BoardNetPoint -> seq<BoardNetLine>, pt: BoardNetPoint): seq<Child>
  {
    LinesRemoval(Without(lines(pt), LinesGone(log))) + [BoardPointRemove(pt)]
  }

  /** Removal of each board point of the list in turn, each after the ones before it. */
  function PointsRemovalAfter(log: seq<Child>, lines: BoardNetPoint -> seq<BoardNetLine>, pts: seq<BoardNetPoint>): seq<Child>
  {
    if pts == [] then []
    else
      var front := PointsRemovalAfter(log, lines, pts[..|pts| - 1]);
      front + PointRemovalAfter(log + front, lines, pts[|pts| - 1])
  }

  /** For each pad in turn, removal of the board points it still has. */
  function PadsRemovalAfter(log: seq<Child>, points: FootprintPad -> seq<BoardNetPoint>, lines: BoardNetPoint -> seq<BoardNetLine>,
                            pads: seq<FootprintPad>): seq<Child>
  {
    if pads == [] then []
    else
      var front := PadsRemovalAfter(log, points, lines, pads[..|pads| - 1]);
      front + PointsRemovalAfter(log + front, lines, Without(points(pads[|pads| - 1]), PointsGone(log + front)))
  }

  /**
   * The detachment of `cmpSig` by a composite that runs each child at once,
   * after the children `log`: a board line or point an earlier child removed
   * is no longer found at its point or pad.
   */
  function DisconnectAfter(log: seq<Child>, c: Circuit, cmpSig: ComponentSignal, signal: Option<NetSignal>): seq<Child>
  {
    PadsRemovalAfter(log, c.padPoints, c.boardPointLines, c.cmpSigPads(cmpSig)) + [CompSigSetNetSignal(cmpSig, signal)]
  }

  /** No board line and no board point is removed twice in the log. */
  ghost predicate RemovesOnce(log: seq<Child>)
  {
    forall i, j :: 0 <= i < j < |log| && (log[i].BoardLineRemove? || log[i].BoardPointRemove?) ==> log[i] != log[j]
  }

  /** The board's own lists hold no repetitions: the lines of a point, the points at a pad. */
  ghost predicate BoardListsDistinct(c: Circuit)
  {
    (forall pt :: Distinct(c.boardPointLines(pt))) && (forall pad :: Distinct(c.padPoints(pad)))
  }

  /**
   * From position `n` on, the log removes only board lines and points, and
   * each board point after all of its lines (removed there or before).
   */
  ghost predicate LinesFirstFrom(log: seq<Child>, n: int, lines: BoardNetPoint -> seq<BoardNetLine>)
  {
    0 <= n <= |log|
    && (forall i :: n <= i < |log| ==> log[i].BoardLineRemove? || log[i].BoardPointRemove?)
    && forall j, l :: n <= j < |log| && log[j].BoardPointRemove? && l in lines(log[j].boardPoint) ==> RemovedBefore(log, j, l)
  }

  /**
   * From position `n` on, the log only detaches: it removes board lines and
   * points and re-assigns component signals; each board point goes after all
   * of its lines, and each component signal is re-assigned once every board
   * point at its pads is gone, whether those went there or before.
   */
  ghost predicate DetachesFrom(log: seq<Child>, n: int, c: Circuit)
  {
    0 <= n <= |log|
    && (forall i :: n <= i < |log| ==> log[i].BoardLineRemove? || log[i].BoardPointRemove? || log[i].CompSigSetNetSignal?)
    && (forall j, l :: n <= j < |log| && log[j].BoardPointRemove? && l in c.boardPointLines(log[j].boardPoint) ==>
          RemovedBefore(log, j, l))
    && (forall j, pt :: n <= j < |log| && log[j].CompSigSetNetSignal? && AtPadOf(c, log[j].cmpSig, pt) ==>
          PointRemovedBefore(log, j, pt))
  }

  lemma RemovesOnceConcat(a: seq<Child>, b: seq<Child>)
    requires RemovesOnce(a) && RemovesOnce(b)
    requires forall x :: x in b && (x.BoardLineRemove? || x.BoardPointRemove?) ==> x !in a
    ensures RemovesOnce(a + b)
  {
    var s := a + b;
    forall i, j | 0 <= i < j < |s| && (s[i].BoardLineRemove? || s[i].BoardPointRemove?) ensures s[i] != s[j] {
      if j < |a| {
        assert s[i] == a[i] && s[j] == a[j];
      } else if i < |a| {
        assert s[i] == a[i] && s[j] == b[j - |a|];
      } else {
        assert s[i] == b[i - |a|] && s[j] == b[j - |a|];
      }
    }
  }

  /** Children that remove no board line or point keep a log free of double removals. */
  lemma RemovesOnceAppendOther(a: seq<Child>, b: seq<Child>)
    requires RemovesOnce(a) && forall x :: x in b ==> !x.BoardLineRemove? && !x.BoardPointRemove?
    ensures RemovesOnce(a + b)
  {
    var s := a + b;
    forall i, j | 0 <= i < j < |s| && (s[i].BoardLineRemove? || s[i].BoardPointRemove?) ensures s[i] != s[j] {
      assert i < |a| ==> s[i] == a[i];
      if j < |a| {
        assert s[j] == a[j];
      } else {
        assert s[j] == b[j - |a|];
      }
    }
  }

  lemma {:induction false} LinesRemovalOnce(ls: seq<BoardNetLine>)
    requires Distinct(ls)
    ensures RemovesOnce(LinesRemoval(ls))
  {
    LinesRemovalElements(ls);
  }

  lemma LinesFirstFromConcat(a: seq<Child>, b: seq<Child>, n: int, lines: BoardNetPoint -> seq<BoardNetLine>)
    requires LinesFirstFrom(a, n, lines) && LinesFirstFrom(a + b, |a|, lines)
    ensures LinesFirstFrom(a + b, n, lines)
  {
    var s := a + b;
    forall i | n <= i < |s| ensures s[i].BoardLineRemove? || s[i].BoardPointRemove? {
      if i < |a| { assert s[i] == a[i]; }
    }
    forall j, l | n <= j < |s| && s[j].BoardPointRemove? && l in lines(s[j].boardPoint) ensures RemovedBefore(s, j, l) {
      if j < |a| {
        assert s[j] == a[j];
        assert RemovedBefore(a, j, l);
        var i :| 0 <= i < j && i < |a| && a[i] == BoardLineRemove(l);
        assert s[i] == a[i];
      }
    }
  }

  lemma DetachesFromConcat(a: seq<Child>, b: seq<Child>, n: int, c: Circuit)
    requires DetachesFrom(a, n, c) && DetachesFrom(a + b, |a|, c)
    ensures DetachesFrom(a + b, n, c)
  {
    var s := a + b;
    forall i | n <= i < |s| ensures s[i].BoardLineRemove? || s[i].BoardPointRemove? || s[i].CompSigSetNetSignal? {
      if i < |a| { assert s[i] == a[i]; }
    }
    forall j, l | n <= j < |s| && s[j].BoardPointRemove? && l in c.boardPointLines(s[j].boardPoint) ensures RemovedBefore(s, j, l) {
      if j < |a| {
        assert s[j] == a[j];
        assert RemovedBefore(a, j, l);
        var i :| 0 <= i < j && i < |a| && a[i] == BoardLineRemove(l);
        assert s[i] == a[i];
      }
    }
    forall j, pt | n <= j < |s| && s[j].CompSigSetNetSignal? && AtPadOf(c, s[j].cmpSig, pt) ensures PointRemovedBefore(s, j, pt) {
      if j < |a| {
        assert s[j] == a[j];
        assert PointRemovedBefore(a, j, pt);
        var i :| 0 <= i < j && i < |a| && a[i] == BoardPointRemove(pt);
        assert s[i] == a[i];
      }
    }
  }

  /**
   * Removing one board point after `log`: every line of the point is removed
   * before the point, here or earlier, and the only point removed is this one.
   */
  lemma PointRemovalAfterFacts(log: seq<Child>, lines: BoardNetPoint -> seq<BoardNetLine>, pt: BoardNetPoint)
    ensures LinesFirstFrom(log + PointRemovalAfter(log, lines, pt), |log|, lines)
    ensures forall q :: BoardPointRemove(q) in PointRemovalAfter(log, lines, pt) <==> q == pt
  {
    var w := Without(lines(pt), LinesGone(log));
    var lr := LinesRemoval(w);
    var added := PointRemovalAfter(log, lines, pt);
    var s := log + added;
    WithoutHas(lines(pt), LinesGone(log));
    LinesRemovalElements(w);
    assert added == lr + [BoardPointRemove(pt)];
    forall i | |log| <= i < |s| ensures s[i].BoardLineRemove? || s[i].BoardPointRemove? {
      assert s[i] == added[i - |log|];
    }
    forall j, l | |log| <= j < |s| && s[j].BoardPointRemove? && l in lines(s[j].boardPoint) ensures RemovedBefore(s, j, l) {
      assert s[j] == added[j - |log|];
      LinesRemovalHas(w, s[j]);
      if l in LinesGone(log) {
        var x :| x in log && x.BoardLineRemove? && x.boardLine == l;
        var i :| 0 <= i < |log| && log[i] == x;
        assert s[i] == x;
      } else {
        assert l in w;
        var k :| 0 <= k < |w| && w[k] == l;
        assert s[|log| + k] == lr[k];
      }
    }
    forall q ensures BoardPointRemove(q) in added <==> q == pt {
      LinesRemovalHas(w, BoardPointRemove(q));
    }
  }

  /** Nothing is removed twice when the point's lines have no repetition and the point is still there. */
  lemma PointRemovalAfterOnce(log: seq<Child>, lines: BoardNetPoint -> seq<BoardNetLine>, pt: BoardNetPoint)
    requires RemovesOnce(log) && Distinct(lines(pt)) && pt !in PointsGone(log)
    ensures RemovesOnce(log + PointRemovalAfter(log, lines, pt))
  {
    var w := Without(lines(pt), LinesGone(log));
    var lr := LinesRemoval(w);
    WithoutHas(lines(pt), LinesGone(log));
    LinesRemovalOnce(w);
    forall x | x in [BoardPointRemove(pt)] && (x.BoardLineRemove? || x.BoardPointRemove?) ensures x !in lr {
      LinesRemovalHas(w, x);
    }
    RemovesOnceConcat(lr, [BoardPointRemove(pt)]);
    forall x | x in lr + [BoardPointRemove(pt)] && (x.BoardLineRemove? || x.BoardPointRemove?) ensures x !in log {
      LinesRemovalHas(w, x);
    }
    RemovesOnceConcat(log, lr + [BoardPointRemove(pt)]);
  }

  lemma PointsRemovalAfterStep(log: seq<Child>, lines: BoardNetPoint -> seq<BoardNetLine>, pts: seq<BoardNetPoint>, j: nat)
    requires j < |pts|
    ensures var front := PointsRemovalAfter(log, lines, pts[..j]);
            log + PointsRemovalAfter(log, lines, pts[..j + 1]) == (log + front) + PointRemovalAfter(log + front, lines, pts[j])
  {
    assert pts[..j + 1][..j] == pts[..j];
  }

  lemma {:induction false} PointsRemovalAfterOrdered(log: seq<Child>, lines: BoardNetPoint -> seq<BoardNetLine>, pts: seq<BoardNetPoint>)
    ensures LinesFirstFrom(log + PointsRemovalAfter(log, lines, pts), |log|, lines)
    ensures forall q :: BoardPointRemove(q) in PointsRemovalAfter(log, lines, pts) <==> q in pts
  {
    if pts == [] {
      assert log + [] == log;
    } else {
      var n := |pts| - 1;
      var front := PointsRemovalAfter(log, lines, pts[..n]);
      var last := PointRemovalAfter(log + front, lines, pts[n]);
      PointsRemovalAfterOrdered(log, lines, pts[..n]);
      PointRemovalAfterFacts(log + front, lines, pts[n]);
      PointsRemovalAfterStep(log, lines, pts, n);
      assert pts[..n + 1] == pts;
      LinesFirstFromConcat(log + front, last, |log|, lines);
      assert pts == pts[..n] + [pts[n]];
    }
  }

  lemma {:induction false} PointsRemovalAfterOnce(log: seq<Child>, lines: BoardNetPoint -> seq<BoardNetLine>, pts: seq<BoardNetPoint>)
    requires RemovesOnce(log) && Distinct(pts) && forall q :: q in pts ==> q !in PointsGone(log) && Distinct(lines(q))
    ensures RemovesOnce(log + PointsRemovalAfter(log, lines, pts))
  {
    if pts == [] {
      assert log + [] == log;
    } else {
      var n := |pts| - 1;
      var front := PointsRemovalAfter(log, lines, pts[..n]);
      DistinctFront(pts);
      assert forall q :: q in pts[..n] ==> q in pts;
      PointsRemovalAfterOnce(log, lines, pts[..n]);
      PointsRemovalAfterOrdered(log, lines, pts[..n]);
      assert pts[n] in pts;
      assert pts[n] !in PointsGone(log + front);
      PointRemovalAfterOnce(log + front, lines, pts[n]);
      PointsRemovalAfterStep(log, lines, pts, n);
      assert pts[..n + 1] == pts;
    }
  }

  lemma PadsRemovalAfterStep(log: seq<Child>, points: FootprintPad -> seq<BoardNetPoint>, lines: BoardNetPoint -> seq<BoardNetLine>,
                             pads: seq<FootprintPad>, i: nat)
    requires i < |pads|
    ensures var front := PadsRemovalAfter(log, points, lines, pads[..i]);
            log + PadsRemovalAfter(log, points, lines, pads[..i + 1])
            == (log + front) + PointsRemovalAfter(log + front, lines, Without(points(pads[i]), PointsGone(log + front)))
  {
    assert pads[..i + 1][..i] == pads[..i];
  }

  lemma {:induction false} PadsRemovalAfterOrdered(log: seq<Child>, points: FootprintPad -> seq<BoardNetPoint>,
                                                   lines: BoardNetPoint -> seq<BoardNetLine>, pads: seq<FootprintPad>)
    ensures LinesFirstFrom(log + PadsRemovalAfter(log, points, lines, pads), |log|, lines)
  {
    if pads == [] {
      assert log + [] == log;
    } else {
      var n := |pads| - 1;
      var front := PadsRemovalAfter(log, points, lines, pads[..n]);
      var pts := Without(points(pads[n]), PointsGone(log + front));
      PadsRemovalAfterOrdered(log, points, lines, pads[..n]);
      PointsRemovalAfterOrdered(log + front, lines, pts);
      PadsRemovalAfterStep(log, points, lines, pads, n);
      assert pads[..n + 1] == pads;
      LinesFirstFromConcat(log + front, PointsRemovalAfter(log + front, lines, pts), |log|, lines);
    }
  }

  /** Only board points at the pads are removed. */
  lemma {:induction false} PadsRemovalAfterOnlyPads(log: seq<Child>, points: FootprintPad -> seq<BoardNetPoint>,
                                                    lines: BoardNetPoint -> seq<BoardNetLine>, pads: seq<FootprintPad>)
    ensures forall q :: BoardPointRemove(q) in PadsRemovalAfter(log, points, lines, pads) ==>
              exists k :: 0 <= k < |pads| && q in points(pads[k])
  {
    if pads != [] {
      var n := |pads| - 1;
      var front := PadsRemovalAfter(log, points, lines, pads[..n]);
      var pts := Without(points(pads[n]), PointsGone(log + front));
      var last := PointsRemovalAfter(log + front, lines, pts);
      PadsRemovalAfterOnlyPads(log, points, lines, pads[..n]);
      PointsRemovalAfterOrdered(log + front, lines, pts);
      WithoutHas(points(pads[n]), PointsGone(log + front));
      assert PadsRemovalAfter(log, points, lines, pads) == front + last;
      forall q | BoardPointRemove(q) in front + last ensures exists k :: 0 <= k < |pads| && q in points(pads[k]) {
        if BoardPointRemove(q) in front {
          var k :| 0 <= k < n && q in points(pads[..n][k]);
          assert pads[..n][k] == pads[k];
        } else {
          assert q in points(pads[n]);
        }
      }
    }
  }

  lemma {:induction false} PadsRemovalAfterClearsOne(log: seq<Child>, points: FootprintPad -> seq<BoardNetPoint>,
                                                     lines: BoardNetPoint -> seq<BoardNetLine>, pads: seq<FootprintPad>,
                                                     k: nat, q: BoardNetPoint)
    requires k < |pads| && q in points(pads[k])
    ensures BoardPointRemove(q) in log + PadsRemovalAfter(log, points, lines, pads)
  {
    var n := |pads| - 1;
    var front := PadsRemovalAfter(log, points, lines, pads[..n]);
    var pts := Without(points(pads[n]), PointsGone(log + front));
    var last := PointsRemovalAfter(log + front, lines, pts);
    assert log + PadsRemovalAfter(log, points, lines, pads) == (log + front) + last;
    if k < n {
      assert pads[..n][k] == pads[k];
      PadsRemovalAfterClearsOne(log, points, lines, pads[..n], k, q);
      assert BoardPointRemove(q) in log + front;
    } else if q in PointsGone(log + front) {
      var x :| x in log + front && x.BoardPointRemove? && x.boardPoint == q;
      assert x == BoardPointRemove(q);
    } else {
      WithoutHas(points(pads[n]), PointsGone(log + front));
      PointsRemovalAfterOrdered(log + front, lines, pts);
      assert BoardPointRemove(q) in last;
    }
  }

  /** Afterwards no board point at the pads is left. */
  lemma PadsRemovalAfterClears(log: seq<Child>, points: FootprintPad -> seq<BoardNetPoint>,
                               lines: BoardNetPoint -> seq<BoardNetLine>, pads: seq<FootprintPad>)
    ensures forall k, q :: 0 <= k < |pads| && q in points(pads[k]) ==>
              BoardPointRemove(q) in log + PadsRemovalAfter(log, points, lines, pads)
  {
    forall k, q | 0 <= k < |pads| && q in points(pads[k]) ensures BoardPointRemove(q) in log + PadsRemovalAfter(log, points, lines, pads) {
      PadsRemovalAfterClearsOne(log, points, lines, pads, k, q);
    }
  }

  lemma {:induction false} PadsRemovalAfterOnce(log: seq<Child>, points: FootprintPad -> seq<BoardNetPoint>,
                                                lines: BoardNetPoint -> seq<BoardNetLine>, pads: seq<FootprintPad>)
    requires RemovesOnce(log) && (forall q :: Distinct(lines(q))) && (forall pad :: Distinct(points(pad)))
    ensures RemovesOnce(log + PadsRemovalAfter(log, points, lines, pads))
  {
    if pads == [] {
      assert log + [] == log;
    } else {
      var n := |pads| - 1;
      var front := PadsRemovalAfter(log, points, lines, pads[..n]);
      var pts := Without(points(pads[n]), PointsGone(log + front));
      PadsRemovalAfterOnce(log, points, lines, pads[..n]);
      WithoutHas(points(pads[n]), PointsGone(log + front));
      PointsRemovalAfterOnce(log + front, lines, pts);
      PadsRemovalAfterStep(log, points, lines, pads, n);
      assert pads[..n + 1] == pads;
    }
  }

  /**
   * Detaching `cmpSig` after `log`: from the end of `log` on, only board
   * lines and points are removed, each point after all of its lines, and the
   * last child gives the component signal its new net signal once every
   * board point at its pads is gone; only such points are removed.
   */
  lemma DisconnectAfterFacts(log: seq<Child>, c: Circuit, cmpSig: ComponentSignal, signal: Option<NetSignal>)
    ensures var s := log + DisconnectAfter(log, c, cmpSig, signal);
            DetachesFrom(s, |log|, c) && s[|s| - 1] == CompSigSetNetSignal(cmpSig, signal)
    ensures forall d, x :: CompSigSetNetSignal(d, x) in DisconnectAfter(log, c, cmpSig, signal) <==> d == cmpSig && x == signal
    ensures forall q :: BoardPointRemove(q) in DisconnectAfter(log, c, cmpSig, signal) ==> AtPadOf(c, cmpSig, q)
  {
    var pads := c.cmpSigPads(cmpSig);
    var pr := PadsRemovalAfter(log, c.padPoints, c.boardPointLines, pads);
    var pre := log + pr;
    var s := log + DisconnectAfter(log, c, cmpSig, signal);
    PadsRemovalAfterOrdered(log, c.padPoints, c.boardPointLines, pads);
    PadsRemovalAfterOnlyPads(log, c.padPoints, c.boardPointLines, pads);
    PadsRemovalAfterClears(log, c.padPoints, c.boardPointLines, pads);
    assert s == pre + [CompSigSetNetSignal(cmpSig, signal)];
    assert forall i | |log| <= i < |pre| :: s[i] == pre[i] && !pre[i].CompSigSetNetSignal?;
    forall j, l | |log| <= j < |s| && s[j].BoardPointRemove? && l in c.boardPointLines(s[j].boardPoint) ensures RemovedBefore(s, j, l) {
      assert j < |pre|;
      assert RemovedBefore(pre, j, l);
      var i :| 0 <= i < j && i < |pre| && pre[i] == BoardLineRemove(l);
      assert s[i] == pre[i];
    }
    forall j, pt | |log| <= j < |s| && s[j].CompSigSetNetSignal? && AtPadOf(c, s[j].cmpSig, pt) ensures PointRemovedBefore(s, j, pt) {
      assert j == |pre|;
      var k :| 0 <= k < |pads| && pt in c.padPoints(pads[k]);
      assert BoardPointRemove(pt) in pre;
      var i :| 0 <= i < |pre| && pre[i] == BoardPointRemove(pt);
      assert s[i] == pre[i];
    }
    assert forall i | 0 <= i < |pr| :: pr[i] == pre[|log| + i];
  }

  /** With the board's lists free of repetitions, a detachment never removes a board line or point a second time. */
  lemma DisconnectAfterOnce(log: seq<Child>, c: Circuit, cmpSig: ComponentSignal, signal: Option<NetSignal>)
    requires RemovesOnce(log) && BoardListsDistinct(c)
    ensures RemovesOnce(log + DisconnectAfter(log, c, cmpSig, signal))
  {
    var pre := log + PadsRemovalAfter(log, c.padPoints, c.boardPointLines, c.cmpSigPads(cmpSig));
    PadsRemovalAfterOnce(log, c.padPoints, c.boardPointLines, c.cmpSigPads(cmpSig));
    RemovesOnceConcat(pre, [CompSigSetNetSignal(cmpSig, signal)]);
    assert log + DisconnectAfter(log, c, cmpSig, signal) == pre + [CompSigSetNetSignal(cmpSig, signal)];
  }

  /** The loop over the lines of one board point. */
  method AppendLinesRemoval(acc: seq<Child>, ls: seq<BoardNetLine>) returns (r: seq<Child>)
    ensures r == acc + LinesRemoval(ls)
  {
    r := acc;
    var i := 0;
    while i < |ls|
      invariant 0 <= i <= |ls|
      invariant r == acc + LinesRemoval(ls[..i])
    {
      assert ls[..i + 1][..i] == ls[..i];
      r := r + [BoardLineRemove(ls[i])];
      i := i + 1;
    }
    assert ls[..i] == ls;
  }

  /** The loop over the board points of one pad. */
  method AppendPointsRemoval(acc: seq<Child>, lines: BoardNetPoint -> seq<BoardNetLine>, pts: seq<BoardNetPoint>) returns (r: seq<Child>)
    ensures r == acc + PointsRemoval(lines, pts)
  {
    r := acc;
    var j := 0;
    while j < |pts|
      invariant 0 <= j <= |pts|
      invariant r == acc + PointsRemoval(lines, pts[..j])
    {
      assert pts[..j + 1][..j] == pts[..j];
      r := AppendLinesRemoval(r, lines(pts[j]));
      r := r + [BoardPointRemove(pts[j])];
      j := j + 1;
    }
    assert pts[..j] == pts;
  }

  /** The loop over the pads of one component signal. */
  method AppendPadsRemoval(acc: seq<Child>, points: FootprintPad -> seq<BoardNetPoint>, lines: BoardNetPoint -> seq<BoardNetLine>, pads: seq<FootprintPad>)
    returns (r: seq<Child>)
    ensures r == acc + PadsRemoval(points, lines, pads)
  {
    r := acc;
    var i := 0;
    while i < |pads|
      invariant 0 <= i <= |pads|
      invariant r == acc + PadsRemoval(points, lines, pads[..i])
    {
      assert pads[..i + 1][..i] == pads[..i];
      r := AppendPointsRemoval(r, lines, points(pads[i]));
      i := i + 1;
    }
    assert pads[..i] == pads;
  }

  /** The nested pad / point / line loops, appending to the children run so far. */
  method AppendDisconnect(acc: seq<Child>, c: Circuit, cmpSig: ComponentSignal, signal: Option<NetSignal>)
    returns (r: seq<Child>)
    ensures r == acc + Disconnect(c, cmpSig, signal)
  {
    r := AppendPadsRemoval(acc, c.padPoints, c.boardPointLines, c.cmpSigPads(cmpSig));
    r := r + [CompSigSetNetSignal(cmpSig, signal)];
  }

  /** The loop over the board points of one pad, each point's lines read after the children so far. */
  method AppendPointsRemovalAfter(acc: seq<Child>, lines: BoardNetPoint -> seq<BoardNetLine>, pts: seq<BoardNetPoint>)
    returns (r: seq<Child>)
    ensures r == acc + PointsRemovalAfter(acc, lines, pts)
  {
    r := acc;
    var j := 0;
    while j < |pts|
      invariant 0 <= j <= |pts|
      invariant r == acc + PointsRemovalAfter(acc, lines, pts[..j])
    {
      PointsRemovalAfterStep(acc, lines, pts, j);
      r := AppendLinesRemoval(r, Without(lines(pts[j]), LinesGone(r)));
      r := r + [BoardPointRemove(pts[j])];
      j := j + 1;
    }
    assert pts[..j] == pts;
  }

  /** The nested pad / point / line loops of disconnectComponentSignalInstance, reading the board after the children so far. */
  method AppendDisconnectAfter(acc: seq<Child>, c: Circuit, cmpSig: ComponentSignal, signal: Option<NetSignal>)
    returns (r: seq<Child>)
    ensures r == acc + DisconnectAfter(acc, c, cmpSig, signal)
  {
    var pads := c.cmpSigPads(cmpSig);
    r := acc;
    var i := 0;
    while i < |pads|
      invariant 0 <= i <= |pads|
      invariant r == acc + PadsRemovalAfter(acc, c.padPoints, c.boardPointLines, pads[..i])
    {
      PadsRemovalAfterStep(acc, c.padPoints, c.boardPointLines, pads, i);
      r := AppendPointsRemovalAfter(r, c.boardPointLines, Without(c.padPoints(pads[i]), PointsGone(r)));
      i := i + 1;
    }
    assert pads[..i] == pads;
    r := r + [CompSigSetNetSignal(cmpSig, signal)];
  }
}
