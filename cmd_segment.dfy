/**
 * Commands on whole net segments and on net labels: putting a segment onto
 * its page, taking it off, changing its net signal, and removing a label
 * from its segment. Execution is the redo step; undo is its exact inverse.
 *
 * `Success` from `Execute` stands for its return value `true`; a `Failure`
 * is the exception the step throws.
 */
module SegmentCmds {
  import opened Base
  import opened Items
  import opened Schematics

  /** Adding a net segment to a page; the segment is given or created on first execution. */
  class CmdNetSegmentAdd {
    const schematic: Schematic
    const netSignal: NetSignal
    var netSegment: Option<NetSegment>

    /** For an existing segment: its page and its net signal are captured. */
    constructor ForSegment(segment: NetSegment, schematic: Schematic)
      requires segment.sheet == schematic.sheet
      ensures this.schematic == schematic && netSignal == segment.netSignal && netSegment == Some(segment)
    {
      this.schematic := schematic;
      netSignal := segment.netSignal;
      netSegment := Some(segment);
    }

    /** For a segment still to be created on `netSignal`. */
    constructor ForNewSegment(schematic: Schematic, netSignal: NetSignal)
      ensures this.schematic == schematic && this.netSignal == netSignal && netSegment == None
    {
      this.schematic := schematic;
      this.netSignal := netSignal;
      netSegment := None;
    }

    /** Creates the segment (with the fresh UUID `uuid`) when none was given, then adds it. */
    method Execute(uuid: Uuid) returns (s: Status)
      requires schematic.Valid()
      requires netSegment.Some? ==> netSegment.value.sheet == schematic.sheet
      modifies this, schematic, if netSegment.Some? then {netSegment.value} else {}
      ensures schematic.Valid() && netSegment.Some?
      ensures old(netSegment).Some? ==> netSegment == old(netSegment)
      ensures old(netSegment).None? ==> fresh(netSegment.value) && netSegment.value.netSignal == netSignal
                                        && netSegment.value.uuid == uuid && netSegment.value.sheet == schematic.sheet
                                        && netSegment.value.netPoints == {} && netSegment.value.netLines == {}
                                        && netSegment.value.netLabels == {}
      ensures s.Success? <==> old(schematic.isAddedToProject)
                              && FirstSegmentWithUuid(old(schematic.netSegments), netSegment.value.uuid).None?
                              && (old(netSegment).Some? ==> old(netSegment).value !in old(schematic.netSegments)
                                                            && !old(netSegment.value.isAdded))
      ensures s.Success? ==> netSegment.value in schematic.netSegments
      ensures schematic.netSegments == if s.Success? then old(schematic.netSegments) + [netSegment.value]
                                       else old(schematic.netSegments)
      ensures schematic.symbols == old(schematic.symbols)
    {
      if netSegment.None? {
        var g := new NetSegment(schematic.sheet, netSignal, uuid);
        netSegment := Some(g);
      }
      s := Redo();
    }

    /** Takes the segment off the page again. */
    method Undo() returns (s: Status)
      requires schematic.Valid() && netSegment.Some?
      modifies schematic, netSegment.value
      ensures schematic.Valid()
      ensures s == if !old(schematic.isAddedToProject) || netSegment.value !in old(schematic.netSegments)
                   then Failure(LogicError) else Success
      ensures schematic.netSegments == if s.Success? then RemoveFirst(old(schematic.netSegments), netSegment.value)
                                       else old(schematic.netSegments)
      ensures s.Success? ==> netSegment.value !in schematic.netSegments
      ensures schematic.symbols == old(schematic.symbols)
    {
      s := schematic.RemoveNetSegment(netSegment.value);
    }

    /** Puts the segment onto the page, as the last of its segments. */
    method Redo() returns (s: Status)
      requires schematic.Valid() && netSegment.Some?
      modifies schematic, netSegment.value
      ensures schematic.Valid()
      ensures s.Success? <==> old(schematic.isAddedToProject) && netSegment.value !in old(schematic.netSegments)
                              && netSegment.value.sheet == schematic.sheet && !old(netSegment.value.isAdded)
                              && FirstSegmentWithUuid(old(schematic.netSegments), netSegment.value.uuid).None?
      ensures schematic.netSegments == if s.Success? then old(schematic.netSegments) + [netSegment.value]
                                       else old(schematic.netSegments)
      ensures s.Success? ==> RemoveFirst(schematic.netSegments, netSegment.value) == old(schematic.netSegments)
      ensures schematic.symbols == old(schematic.symbols)
      ensures netSegment.value.netSignal == old(netSegment.value.netSignal)
      ensures netSegment.value.netPoints == old(netSegment.value.netPoints)
      ensures netSegment.value.netLines == old(netSegment.value.netLines)
      ensures netSegment.value.netLabels == old(netSegment.value.netLabels)
    {
      s := schematic.AddNetSegment(netSegment.value);
      if s.Success? {
        RemoveFirstAppended(old(schematic.netSegments), netSegment.value);
      }
    }
  }

  /** Removing a net segment from the page it belongs to. */
  class CmdNetSegmentRemove {
    const schematic: Schematic
    const netSegment: NetSegment

    constructor (segment: NetSegment, schematic: Schematic)
      requires segment.sheet == schematic.sheet
      ensures this.schematic == schematic && netSegment == segment
    {
      this.schematic := schematic;
      netSegment := segment;
    }

    method Execute() returns (s: Status)
      requires schematic.Valid()
      modifies schematic, netSegment
      ensures schematic.Valid()
      ensures s == if !old(schematic.isAddedToProject) || netSegment !in old(schematic.netSegments)
                   then Failure(LogicError) else Success
      ensures schematic.netSegments == if s.Success? then RemoveFirst(old(schematic.netSegments), netSegment)
                                       else old(schematic.netSegments)
      ensures schematic.symbols == old(schematic.symbols)
    {
      s := Redo();
    }

    /** Puts the segment back onto the page, as its last segment. */
    method Undo() returns (s: Status)
      requires schematic.Valid()
      modifies schematic, netSegment
      ensures schematic.Valid()
      ensures s.Success? <==> old(schematic.isAddedToProject) && netSegment !in old(schematic.netSegments)
                              && netSegment.sheet == schematic.sheet && !old(netSegment.isAdded)
                              && FirstSegmentWithUuid(old(schematic.netSegments), netSegment.uuid).None?
      ensures schematic.netSegments == if s.Success? then old(schematic.netSegments) + [netSegment]
                                       else old(schematic.netSegments)
      ensures s.Success? ==> RemoveFirst(schematic.netSegments, netSegment) == old(schematic.netSegments)
      ensures schematic.symbols == old(schematic.symbols)
    {
      s := schematic.AddNetSegment(netSegment);
      if s.Success? {
        RemoveFirstAppended(old(schematic.netSegments), netSegment);
      }
    }

    method Redo() returns (s: Status)
      requires schematic.Valid()
      modifies schematic, netSegment
      ensures schematic.Valid()
      ensures s == if !old(schematic.isAddedToProject) || netSegment !in old(schematic.netSegments)
                   then Failure(LogicError) else Success
      ensures schematic.netSegments == if s.Success? then RemoveFirst(old(schematic.netSegments), netSegment)
                                       else old(schematic.netSegments)
      ensures s.Success? ==> !netSegment.isAdded && netSegment !in schematic.netSegments
      ensures schematic.symbols == old(schematic.symbols)
    {
      s := schematic.RemoveNetSegment(netSegment);
    }
  }

  /** Changing the net signal of a segment; the new signal is chosen before execution. */
  class CmdNetSegmentEdit {
    const netSegment: NetSegment
    const oldNetSignal: NetSignal
    var newNetSignal: NetSignal
    var wasEverExecuted: bool

    constructor (segment: NetSegment)
      ensures netSegment == segment && oldNetSignal == segment.netSignal && newNetSignal == segment.netSignal
      ensures !wasEverExecuted
    {
      netSegment := segment;
      oldNetSignal := segment.netSignal;
      newNetSignal := segment.netSignal;
      wasEverExecuted := false;
    }

    method SetNetSignal(signal: NetSignal)
      requires !wasEverExecuted
      modifies this
      ensures newNetSignal == signal && !wasEverExecuted
    {
      newNetSignal := signal;
    }

    /** Always reports a modification, even when the signal stays the same. */
    method Execute() returns (s: Status)
      modifies this, netSegment
      ensures s.Success? && wasEverExecuted && newNetSignal == old(newNetSignal)
      ensures netSegment.netSignal == newNetSignal
      ensures netSegment.netPoints == old(netSegment.netPoints) && netSegment.netLines == old(netSegment.netLines)
      ensures netSegment.netLabels == old(netSegment.netLabels)
    {
      wasEverExecuted := true;
      s := Redo();
    }

    method Undo() returns (s: Status)
      modifies netSegment
      ensures s.Success? && netSegment.netSignal == oldNetSignal
      ensures netSegment.netPoints == old(netSegment.netPoints) && netSegment.netLines == old(netSegment.netLines)
      ensures netSegment.netLabels == old(netSegment.netLabels)
    {
      netSegment.SetNetSignal(oldNetSignal);
      s := Success;
    }

    method Redo() returns (s: Status)
      modifies netSegment
      ensures s.Success? && netSegment.netSignal == newNetSignal
      ensures netSegment.netPoints == old(netSegment.netPoints) && netSegment.netLines == old(netSegment.netLines)
      ensures netSegment.netLabels == old(netSegment.netLabels)
    {
      netSegment.SetNetSignal(newNetSignal);
      s := Success;
    }
  }

  /** Removing a net label from the segment it belongs to. */
  class CmdNetLabelRemove {
    const netSegment: NetSegment
    const netLabel: NetLabel

    constructor (netLabel: NetLabel)
      ensures this.netLabel == netLabel && netSegment == netLabel.segment
    {
      this.netLabel := netLabel;
      netSegment := netLabel.segment;
    }

    method Execute() returns (s: Status)
      modifies netSegment
      ensures s.Success? <==> netLabel in old(netSegment.netLabels)
      ensures s.Failure? ==> s.error == LogicError
      ensures netSegment.netLabels == old(netSegment.netLabels) - {netLabel}
      ensures netSegment.netPoints == old(netSegment.netPoints) && netSegment.netLines == old(netSegment.netLines)
    {
      s := Redo();
    }

    /** Puts the same label back into the same segment. */
    method Undo() returns (s: Status)
      requires netSegment == netLabel.segment
      modifies netSegment
      ensures s.Success? <==> netLabel !in old(netSegment.netLabels)
      ensures s.Failure? ==> s.error == LogicError
      ensures netSegment.netLabels == old(netSegment.netLabels) + {netLabel}
      ensures netSegment.netPoints == old(netSegment.netPoints) && netSegment.netLines == old(netSegment.netLines)
    {
      s := netSegment.AddNetLabel(netLabel);
    }

    method Redo() returns (s: Status)
      modifies netSegment
      ensures s.Success? <==> netLabel in old(netSegment.netLabels)
      ensures s.Failure? ==> s.error == LogicError
      ensures netSegment.netLabels == old(netSegment.netLabels) - {netLabel}
      ensures netSegment.netPoints == old(netSegment.netPoints) && netSegment.netLines == old(netSegment.netLines)
    {
      s := netSegment.RemoveNetLabel(netLabel);
    }
  }
}
