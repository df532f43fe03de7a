/**
 * The two commands that change which points and lines a net segment owns:
 * adding a batch of elements and removing a batch of elements. Each records
 * its batch first; execution is the redo step, and undo and redo are exact
 * inverses on the segment's membership.
 *
 * A command's `execute`/`undo`/`redo` report an exception as a `Failure`;
 * `Success` from `Execute` stands for its return value `true`.
 */
module SegmentElementsCmds {
  import opened Base
  import opened Items

  /** Width of a line drawn by the add-elements command, in nanometres. */
  const NewLineWidth: int := 158750

  class CmdNetSegmentAddElements {
    const netSegment: NetSegment
    var netPoints: seq<NetPoint>
    var netLines: seq<NetLine>

    constructor (segment: NetSegment)
      ensures netSegment == segment && netPoints == [] && netLines == []
    {
      netSegment := segment;
      netPoints := [];
      netLines := [];
    }

    /** Records an existing point for addition and hands it back. */
    method AddNetPoint(netPoint: NetPoint) returns (r: NetPoint)
      modifies this
      ensures r == netPoint
      ensures netPoints == old(netPoints) + [netPoint] && netLines == old(netLines)
    {
      netPoints := netPoints + [netPoint];
      r := netPoint;
    }

    /** Creates a floating point of this command's segment (`uuid` is the fresh random UUID) and records it. */
    method AddNetPointAt(position: Point, uuid: Uuid) returns (r: NetPoint)
      requires !IsNull(uuid)
      modifies this
      ensures fresh(r) && r.segment == netSegment && r.Valid() && !r.isAdded && r.lines == []
      ensures r.Attributes() == NetPointAttrs(uuid, position, None)
      ensures netPoints == old(netPoints) + [r] && netLines == old(netLines)
    {
      r := new NetPoint.AtPosition(netSegment, uuid, position);
      r := AddNetPoint(r);
    }

    /**
     * Creates a point of this command's segment on `pin` and records it. The
     * new point is invalid, and construction throws a logic error, when the
     * pin's net signal is not the segment's.
     */
    method AddNetPointOnPin(pin: SymbolPin, pinPosition: Point, pinNetSignal: Option<NetSignal>, uuid: Uuid)
      returns (r: Result<NetPoint>)
      requires !IsNull(uuid)
      modifies this
      ensures r.Err? <==> pinNetSignal != Some(netSegment.netSignal)
      ensures r.Err? ==> r.error == LogicError && netPoints == old(netPoints)
      ensures r.Ok? ==> fresh(r.value) && r.value.segment == netSegment && r.value.Valid() && !r.value.isAdded
                        && r.value.Attributes() == NetPointAttrs(uuid, pinPosition, Some(pin))
                        && netPoints == old(netPoints) + [r.value]
      ensures netLines == old(netLines)
    {
      if pinNetSignal != Some(netSegment.netSignal) {
        return Err(LogicError);
      }
      var p := new NetPoint.OnPin(netSegment, uuid, pin, pinPosition, pinNetSignal);
      p := AddNetPoint(p);
      r := Ok(p);
    }

    /** Records an existing line for addition and hands it back. */
    method AddNetLine(netLine: NetLine) returns (r: NetLine)
      modifies this
      ensures r == netLine
      ensures netLines == old(netLines) + [netLine] && netPoints == old(netPoints)
    {
      netLines := netLines + [netLine];
      r := netLine;
    }

    /** Creates a line of the default width between two points and records it. */
    method AddNetLineBetween(startPoint: NetPoint, endPoint: NetPoint, uuid: Uuid) returns (r: NetLine)
      modifies this
      ensures fresh(r) && r.start == startPoint && r.end == endPoint && r.width == NewLineWidth && r.uuid == uuid
      ensures netLines == old(netLines) + [r] && netPoints == old(netPoints)
    {
      r := new NetLine(uuid, startPoint, endPoint, NewLineWidth);
      r := AddNetLine(r);
    }

    method Execute() returns (s: Status)
      modifies netSegment
      ensures s.Success? <==> netSegment.Owns(netPoints, netLines) && Added(old(netSegment.netPoints), netPoints).Some?
                              && Added(old(netSegment.netLines), netLines).Some?
      ensures s.Success? ==> netSegment.netPoints == old(netSegment.netPoints) + Elements(netPoints)
                             && netSegment.netLines == old(netSegment.netLines) + Elements(netLines)
      ensures s.Failure? ==> s.error == LogicError && netSegment.netPoints == old(netSegment.netPoints)
                             && netSegment.netLines == old(netSegment.netLines)
      ensures netSegment.netSignal == old(netSegment.netSignal) && netSegment.netLabels == old(netSegment.netLabels)
    {
      s := Redo();
    }

    /** Takes exactly the recorded batch out of the segment; a later redo puts back the same sets. */
    method Undo() returns (s: Status)
      modifies netSegment
      ensures s.Success? <==> Removed(old(netSegment.netPoints), netPoints).Some?
                              && Removed(old(netSegment.netLines), netLines).Some?
      ensures s.Success? ==> netSegment.netPoints == old(netSegment.netPoints) - Elements(netPoints)
                             && netSegment.netLines == old(netSegment.netLines) - Elements(netLines)
      ensures s.Success? ==> Added(netSegment.netPoints, netPoints) == Some(old(netSegment.netPoints))
                             && Added(netSegment.netLines, netLines) == Some(old(netSegment.netLines))
      ensures s.Failure? ==> s.error == LogicError && netSegment.netPoints == old(netSegment.netPoints)
                             && netSegment.netLines == old(netSegment.netLines)
      ensures netSegment.netSignal == old(netSegment.netSignal) && netSegment.netLabels == old(netSegment.netLabels)
    {
      s := netSegment.RemoveNetPointsAndNetLines(netPoints, netLines);
      if s.Success? {
        AddedUndoesRemoved(old(netSegment.netPoints), netPoints);
        AddedUndoesRemoved(old(netSegment.netLines), netLines);
      }
    }

    /** Puts exactly the recorded batch into the segment; a later undo takes back the same sets. */
    method Redo() returns (s: Status)
      modifies netSegment
      ensures s.Success? <==> netSegment.Owns(netPoints, netLines) && Added(old(netSegment.netPoints), netPoints).Some?
                              && Added(old(netSegment.netLines), netLines).Some?
      ensures s.Success? ==> netSegment.netPoints == old(netSegment.netPoints) + Elements(netPoints)
                             && netSegment.netLines == old(netSegment.netLines) + Elements(netLines)
      ensures s.Success? ==> Removed(netSegment.netPoints, netPoints) == Some(old(netSegment.netPoints))
                             && Removed(netSegment.netLines, netLines) == Some(old(netSegment.netLines))
      ensures s.Failure? ==> s.error == LogicError && netSegment.netPoints == old(netSegment.netPoints)
                             && netSegment.netLines == old(netSegment.netLines)
      ensures netSegment.netSignal == old(netSegment.netSignal) && netSegment.netLabels == old(netSegment.netLabels)
    {
      s := netSegment.AddNetPointsAndNetLines(netPoints, netLines);
      if s.Success? {
        RemovedUndoesAdded(old(netSegment.netPoints), netPoints);
        RemovedUndoesAdded(old(netSegment.netLines), netLines);
      }
    }
  }

  class CmdNetSegmentRemoveElements {
    const netSegment: NetSegment
    var netPoints: seq<NetPoint>
    var netLines: seq<NetLine>

    constructor (segment: NetSegment)
      ensures netSegment == segment && netPoints == [] && netLines == []
    {
      netSegment := segment;
      netPoints := [];
      netLines := [];
    }

    /** Only records the point; the segment is not touched. */
    method RemoveNetPoint(netPoint: NetPoint)
      modifies this
      ensures netPoints == old(netPoints) + [netPoint] && netLines == old(netLines)
    {
      netPoints := netPoints + [netPoint];
    }

    /** Only records the line; the segment is not touched. */
    method RemoveNetLine(netLine: NetLine)
      modifies this
      ensures netLines == old(netLines) + [netLine] && netPoints == old(netPoints)
    {
      netLines := netLines + [netLine];
    }

    method Execute() returns (s: Status)
      modifies netSegment
      ensures s.Success? <==> Removed(old(netSegment.netPoints), netPoints).Some?
                              && Removed(old(netSegment.netLines), netLines).Some?
      ensures s.Success? ==> netSegment.netPoints == old(netSegment.netPoints) - Elements(netPoints)
                             && netSegment.netLines == old(netSegment.netLines) - Elements(netLines)
      ensures s.Failure? ==> s.error == LogicError && netSegment.netPoints == old(netSegment.netPoints)
                             && netSegment.netLines == old(netSegment.netLines)
      ensures netSegment.netSignal == old(netSegment.netSignal) && netSegment.netLabels == old(netSegment.netLabels)
    {
      s := Redo();
    }

    /** Puts exactly the recorded items back; a later redo removes the same sets again. */
    method Undo() returns (s: Status)
      modifies netSegment
      ensures s.Success? <==> netSegment.Owns(netPoints, netLines) && Added(old(netSegment.netPoints), netPoints).Some?
                              && Added(old(netSegment.netLines), netLines).Some?
      ensures s.Success? ==> netSegment.netPoints == old(netSegment.netPoints) + Elements(netPoints)
                             && netSegment.netLines == old(netSegment.netLines) + Elements(netLines)
      ensures s.Success? ==> Removed(netSegment.netPoints, netPoints) == Some(old(netSegment.netPoints))
                             && Removed(netSegment.netLines, netLines) == Some(old(netSegment.netLines))
      ensures s.Failure? ==> s.error == LogicError && netSegment.netPoints == old(netSegment.netPoints)
                             && netSegment.netLines == old(netSegment.netLines)
      ensures netSegment.netSignal == old(netSegment.netSignal) && netSegment.netLabels == old(netSegment.netLabels)
    {
      s := netSegment.AddNetPointsAndNetLines(netPoints, netLines);
      if s.Success? {
        RemovedUndoesAdded(old(netSegment.netPoints), netPoints);
        RemovedUndoesAdded(old(netSegment.netLines), netLines);
      }
    }

    /** Takes exactly the recorded items out; a later undo puts back the same sets. */
    method Redo() returns (s: Status)
      modifies netSegment
      ensures s.Success? <==> Removed(old(netSegment.netPoints), netPoints).Some?
                              && Removed(old(netSegment.netLines), netLines).Some?
      ensures s.Success? ==> netSegment.netPoints == old(netSegment.netPoints) - Elements(netPoints)
                             && netSegment.netLines == old(netSegment.netLines) - Elements(netLines)
      ensures s.Success? ==> Added(netSegment.netPoints, netPoints) == Some(old(netSegment.netPoints))
                             && Added(netSegment.netLines, netLines) == Some(old(netSegment.netLines))
      ensures s.Failure? ==> s.error == LogicError && netSegment.netPoints == old(netSegment.netPoints)
                             && netSegment.netLines == old(netSegment.netLines)
      ensures netSegment.netSignal == old(netSegment.netSignal) && netSegment.netLabels == old(netSegment.netLabels)
    {
      s := netSegment.RemoveNetPointsAndNetLines(netPoints, netLines);
      if s.Success? {
        AddedUndoesRemoved(old(netSegment.netPoints), netPoints);
        AddedUndoesRemoved(old(netSegment.netLines), netLines);
      }
    }
  }
}
