/**
 * Changing the net signal of one schematic net segment. Nothing happens
 * when the segment already has the new signal; when it is the only segment
 * of its signal, the two signals are combined; otherwise the segment is
 * taken off its page, given the new signal and put back, and each component
 * signal behind a pin of the segment is detached from the boards and moved
 * to the new signal.
 */
module ChangeNetSignalCmd {
  import opened Base
  import opened Items
  import opened Children
  import opened BoardDetach

  /** The component signal behind a net point's pin, if the point is on a pin that has one. */
  function PinCmpSig(c: Circuit, pin: Option<SymbolPin>): (r: Option<ComponentSignal>)
    ensures r.Some? <==> pin.Some? && c.pinCmpSig(pin.value).Some?
    ensures r.Some? ==> r == c.pinCmpSig(pin.value)
  {
    if pin.Some? then c.pinCmpSig(pin.value) else None
  }

  /** What one net point contributes: the detachment of its component signal, if any. */
  function PointUpdate(c: Circuit, pin: Option<SymbolPin>, signal: NetSignal): seq<Child>
  {
    match PinCmpSig(c, pin)
    case Some(cs) => Disconnect(c, cs, Some(signal))
    case None => []
  }

  /** The contributions of the segment's net points, in the order they are visited. */
  function PointsUpdate(c: Circuit, pts: seq<NetPoint>, signal: NetSignal): seq<Child>
    reads set p | p in pts
  {
    if pts == [] then []
    else PointsUpdate(c, pts[..|pts| - 1], signal) + PointUpdate(c, pts[|pts| - 1].pin, signal)
  }

  /**
   * The composite for `segment` (whose net points are visited in the order
   * `pts`) and the new net signal: its children, and its return value, which
   * is whether it has any.
   */
  function ChangePlan(c: Circuit, segment: NetSegment, pts: seq<NetPoint>, signal: NetSignal): Plan
    reads segment, set p | p in pts
  {
    if signal == segment.netSignal then Plan([], None, false)
    else if |c.signalSegments(segment.netSignal)| == 1 then
      Plan([CombineNetSignals(segment.netSignal, signal)], None, true)
    else
      Plan([SegmentRemove(segment), SegmentEdit(segment, signal)] + PointsUpdate(c, pts, signal) + [SegmentAdd(segment)],
           None, true)
  }

  /** The net points of the list that sit on a pin with component signal `cs`. */
  ghost predicate HasPinOf(c: Circuit, pts: seq<NetPoint>, cs: ComponentSignal)
    reads set p | p in pts
  {
    exists k :: 0 <= k < |pts| && PinCmpSig(c, pts[k].pin) == Some(cs)
  }

  lemma PointUpdateFacts(c: Circuit, pin: Option<SymbolPin>, signal: NetSignal)
    ensures DetachOrdered(PointUpdate(c, pin, signal), c)
    ensures forall cs, x :: CompSigSetNetSignal(cs, x) in PointUpdate(c, pin, signal) <==>
                              PinCmpSig(c, pin) == Some(cs) && x == Some(signal)
  {
    match PinCmpSig(c, pin)
    case Some(cs) =>
      DisconnectDetachOrdered(c, cs, Some(signal));
      var log := Disconnect(c, cs, Some(signal));
      var pads := PadsRemoval(c.padPoints, c.boardPointLines, c.cmpSigPads(cs));
      PadsRemovalOrdered(c.padPoints, c.boardPointLines, c.cmpSigPads(cs));
      forall d, x | CompSigSetNetSignal(d, x) in log ensures d == cs && x == Some(signal) {
        assert CompSigSetNetSignal(d, x) !in pads;
      }
    case None =>
  }

  /**
   * The contributions of the net points: an ordered detachment log, and the
   * component signals it moves are exactly those behind the pins of the
   * points, each to the new signal.
   */
  lemma {:induction false} PointsUpdateFacts(c: Circuit, pts: seq<NetPoint>, signal: NetSignal)
    ensures DetachOrdered(PointsUpdate(c, pts, signal), c)
    ensures forall cs, x :: CompSigSetNetSignal(cs, x) in PointsUpdate(c, pts, signal) <==>
                              HasPinOf(c, pts, cs) && x == Some(signal)
  {
    if pts != [] {
      var n := |pts| - 1;
      var front := pts[..n];
      PointsUpdateFacts(c, front, signal);
      PointUpdateFacts(c, pts[n].pin, signal);
      DetachOrderedConcat(PointsUpdate(c, front, signal), PointUpdate(c, pts[n].pin, signal), c);
      forall cs ensures HasPinOf(c, pts, cs) <==> HasPinOf(c, front, cs) || PinCmpSig(c, pts[n].pin) == Some(cs) {
        if HasPinOf(c, front, cs) {
          var k :| 0 <= k < |front| && PinCmpSig(c, front[k].pin) == Some(cs);
          assert front[k] == pts[k];
        }
        if HasPinOf(c, pts, cs) {
          var k :| 0 <= k < |pts| && PinCmpSig(c, pts[k].pin) == Some(cs);
          if k < n { assert front[k] == pts[k]; }
        }
      }
    }
  }

  /** The two shortcuts: no children exactly when the signal is unchanged, and then it returns false. */
  lemma ChangeShortcuts(c: Circuit, segment: NetSegment, pts: seq<NetPoint>, signal: NetSignal)
    ensures var p := ChangePlan(c, segment, pts, signal);
            p.abort.None? && (p.result <==> p.children != []) && (p.children == [] <==> signal == segment.netSignal)
    ensures signal != segment.netSignal && |c.signalSegments(segment.netSignal)| == 1 ==>
              ChangePlan(c, segment, pts, signal).children == [CombineNetSignals(segment.netSignal, signal)]
  {
  }

  /**
   * The general case: the segment is taken off first, given the new signal
   * second and put back last; in between, only board lines and points are
   * removed (each point after its lines) and component signals moved (each
   * after the board points at its pads), and the component signals moved
   * are exactly those behind a pin of the segment, all to the new signal.
   */
  lemma ChangeSegmentOrder(c: Circuit, segment: NetSegment, pts: seq<NetPoint>, signal: NetSignal)
    requires signal != segment.netSignal && |c.signalSegments(segment.netSignal)| != 1
    ensures var log := ChangePlan(c, segment, pts, signal).children;
            |log| >= 3 && log[0] == SegmentRemove(segment) && log[1] == SegmentEdit(segment, signal)
            && log[|log| - 1] == SegmentAdd(segment)
            && DetachOrdered(log[2..|log| - 1], c)
            && forall cs, x :: CompSigSetNetSignal(cs, x) in log <==> HasPinOf(c, pts, cs) && x == Some(signal)
  {
    var mid := PointsUpdate(c, pts, signal);
    var log := ChangePlan(c, segment, pts, signal).children;
    assert log == [SegmentRemove(segment), SegmentEdit(segment, signal)] + mid + [SegmentAdd(segment)];
    assert log[2..|log| - 1] == mid;
    PointsUpdateFacts(c, pts, signal);
    forall cs, x ensures CompSigSetNetSignal(cs, x) in log <==> CompSigSetNetSignal(cs, x) in mid {
    }
  }

  /** The loop over the segment's net points. */
  method AppendPointsUpdate(acc: seq<Child>, c: Circuit, pts: seq<NetPoint>, signal: NetSignal) returns (r: seq<Child>)
    ensures r == acc + PointsUpdate(c, pts, signal)
  {
    r := acc;
    var i := 0;
    while i < |pts|
      invariant 0 <= i <= |pts|
      invariant r == acc + PointsUpdate(c, pts[..i], signal)
    {
      r := VisitPoint(acc, r, c, pts, i, signal);
      i := i + 1;
    }
    assert pts[..i] == pts;
  }

  /** One pass of that loop: the point at `i` detaches the component signal behind its pin, if any. */
  method VisitPoint(acc: seq<Child>, r0: seq<Child>, c: Circuit, pts: seq<NetPoint>, i: nat, signal: NetSignal) returns (r: seq<Child>)
    requires i < |pts| && r0 == acc + PointsUpdate(c, pts[..i], signal)
    ensures r == acc + PointsUpdate(c, pts[..i + 1], signal)
  {
    assert pts[..i + 1][..i] == pts[..i];
    var pin := pts[i].pin;
    var update: seq<Child> := [];
    if pin.Some? {
      var cs := c.pinCmpSig(pin.value);
      if cs.Some? {
        update := AppendDisconnect([], c, cs.value, Some(signal));
      }
    }
    assert update == PointUpdate(c, pin, signal);
    ConcatAssoc(acc, PointsUpdate(c, pts[..i], signal), update);
    r := r0 + update;
  }

  /** performExecute of the composite, for the net points of the segment visited in the order `pts`. */
  method Execute(c: Circuit, segment: NetSegment, pts: seq<NetPoint>, signal: NetSignal) returns (p: Plan)
    requires Distinct(pts) && Elements(pts) == segment.netPoints
    ensures p == ChangePlan(c, segment, pts, signal)
  {
    if signal == segment.netSignal {
      return Plan([], None, false);
    }
    var log: seq<Child>;
    if |c.signalSegments(segment.netSignal)| == 1 {
      log := [CombineNetSignals(segment.netSignal, signal)];
    } else {
      log := AppendPointsUpdate([SegmentRemove(segment), SegmentEdit(segment, signal)], c, pts, signal);
      log := log + [SegmentAdd(segment)];
    }
    p := Plan(log, None, |log| > 0);
  }
}
