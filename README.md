# Schematic net connectivity and its undo commands (a Dafny model of LibrePCB)

This project models the part of the LibrePCB project editor that keeps
track of how the wires of a schematic page are connected, and the undoable
commands that change those connections.

A schematic page holds placed symbols and net segments. A net segment belongs
to one net signal. It owns net points, net lines between two of its points,
and net labels. A net point is either attached to a symbol pin, and then sits
at the pin's position, or it floats at a position of its own. A point knows
the lines registered at it. It is visible when more than two lines meet there,
or more than one line meets there while it is on a pin. Every item is created
for one page and takes part in the page only between `addToSchematic` and
`removeFromSchematic`.

The model covers three layers.

- **Items and the page** (`Items`, `Schematics`). These are classes whose
  methods change their fields in place and keep the add/remove protocol of the
  source: what fails with a logic error, which lists are appended to, and what
  a failure leaves unchanged. Net points and labels round-trip through the
  attributes of their XML element. `Schematic.AddToProject` and
  `Schematic.RemoveFromProject` roll back what they had already registered
  when an item fails.
- **Atomic undo commands** (`SegmentCmds`, `SegmentElementsCmds`). These
  commands put a segment on its page or take it off, change a segment's net
  signal, add or remove a batch of points and lines, and remove a label. Each
  is a class whose `Execute` is its redo step. Undo and redo are proved to be
  exact inverses on what the segment or page contains.
- **Composite editor commands**. These are: remove the selected items
  (`RemoveSelectedCmd`, built from `RemoveSelectedSteps`, `Connectivity` and
  `BoardDetach`), combine everything under a net point (`CombineAllCmd`),
  combine two net points (`CombineNetPointsCmd`), combine two net signals
  (`CombineNetSignalsCmd`), change the net signal of a segment
  (`ChangeNetSignalCmd`), and rotate the selected items (`RotateCmd`).

A composite runs child commands and may throw after some of them. It is
modelled by its plan:

- the ordered list of children it runs;
- the error it throws, if any;
- the value it returns.

Each composite has a method with the source's loops, and it is proved to build
exactly the plan given by a specification function. Lemmas then state the
order, contents and partition properties of that plan. `Children.Run` is the
undo group. It applies children in order until one fails. When a child fails,
or the composite throws, it undoes the applied children, last first, so
nothing stays applied. `Connectivity` holds the flood fill that splits what is
left of a segment. It proves that the pieces are exactly the connected
components of what is left, and that they partition the remaining points and
lines.

Objects outside the net model are read through the `Children.Circuit` value,
a record of functions. These objects are:

- net signals and their names;
- component signals behind symbol pins;
- the boards' pads, points, lines and vias.

Other outside facts are parameters:

- snapping to the grid, rotating a point, and the positions of symbols;
- the output of the selection query and of hit tests;
- the order in which the source enumerates the hash sets it is handed (a
  segment's points, lines and labels, and the items of the selection).

A set that a command builds itself by inserting items and then iterates is a
list without duplicates, in the order of first insertion. This covers the
board lines collected by `CombineNetSignalsCmd`, the net signals and forced
names collected by `CombineAllCmd`, and the component signals collected before
a split in `RemoveSelectedSteps`.

One module per file:

- `Base`: base.dfy
- `Items`: items.dfy
- `Schematics`: schematic.dfy
- `SegmentCmds`: cmd_segment.dfy
- `SegmentElementsCmds`: cmd_segment_elements.dfy
- `Children`: children.dfy
- `BoardDetach`: board_detach.dfy
- `Connectivity`: connectivity.dfy
- `RemoveSelectedSteps`: remove_selected_steps.dfy
- `RemoveSelectedCmd`: cmd_remove_selected.dfy
- `CombineAllCmd`: cmd_combine_all.dfy
- `CombineNetPointsCmd`: cmd_combine_net_points.dfy
- `CombineNetSignalsCmd`: cmd_combine_net_signals.dfy
- `ChangeNetSignalCmd`: cmd_change_net_signal.dfy
- `RotateCmd`: cmd_rotate.dfy

## Model

| member | source | states |
|---|---|---|
| Base.TruncDivBounds | libs/librepcbprojecteditor/cmd/cmdrotateselectedschematicitems.cpp:89 | C++ integer division truncates toward zero: the quotient is the multiple of the divisor next to the dividend on the side of zero, for negative dividends too |
| Base.GetUuid | libs/librepcbproject/schematics/items/si_netpoint.cpp:53 | reading a required UUID attribute succeeds exactly when it is present and of that type, and then yields its value; otherwise a file (runtime) error |
| Base.GetBool | libs/librepcbproject/schematics/items/si_netpoint.cpp:54 | the same for a required boolean attribute |
| Base.GetLength | libs/librepcbproject/schematics/items/si_netpoint.cpp:69-70 | the same for a required length attribute |
| Base.GetAngle | libs/librepcbproject/schematics/items/si_netlabel.cpp:52 | the same for a required angle attribute |
| Items.Added | libs/librepcbproject/schematics/items/si_netsegment.h:96-97 | adding a batch of points or lines to a segment succeeds exactly when the batch has no repeats and none of it is present; the new contents are the old ones plus exactly the batch |
| Items.Removed | libs/librepcbproject/schematics/items/si_netsegment.h:98-99 | removing a batch succeeds exactly when the batch has no repeats and all of it is present; the new contents are the old ones minus exactly the batch |
| Items.RemovedUndoesAdded | libs/librepcbproject/schematics/items/si_netsegment.h:96-99 | undoing an addition (removing the same batch) restores the segment contents exactly |
| Items.AddedUndoesRemoved | libs/librepcbproject/schematics/items/si_netsegment.h:96-99 | undoing a removal (adding the same batch back) restores the segment contents exactly |
| Items.RemoveFirst | libs/librepcbproject/schematics/items/si_netpoint.cpp:235 | a list removeOne: one element shorter when the element is present, unchanged otherwise, never gains an element |
| Items.RemoveFirstAppended | libs/librepcbproject/schematics/items/si_netpoint.cpp:217-239 | unregistering the line registered last gives back the earlier line list |
| Items.RemoveFirstDistinct | libs/librepcbproject/schematics/items/si_netpoint.cpp:230-239 | on a repeat-free line list, unregistering removes exactly that line and keeps the list repeat-free |
| Items.Symbol.constructor | libs/librepcbproject/schematics/schematic.cpp:89-98 | a symbol read from the page file belongs to that page, carries its pins and is not registered yet |
| Items.Symbol.GetPin | libs/librepcbproject/schematics/items/si_netpoint.cpp:61-66 | pin lookup by library pin UUID: a found pin is one of the symbol's pins with that UUID; none found means no pin has it |
| Items.Symbol.AddToSchematic | libs/librepcbproject/schematics/schematic.cpp:270 | registering a symbol fails with a logic error when it is already registered; afterwards it is registered |
| Items.Symbol.RemoveFromSchematic | libs/librepcbproject/schematics/schematic.cpp:280 | unregistering fails with a logic error when it is not registered; afterwards it is not registered |
| Items.FirstSymbolWithUuid | libs/librepcbproject/schematics/schematic.cpp:247-254 | the first symbol of the page list with the UUID; none exactly when no symbol has it |
| Items.NetSegment.constructor | libs/librepcbproject/schematics/items/si_netsegment.h:61 | a new segment is empty, on the given net signal and page, and not registered |
| Items.NetSegment.AddNetPointsAndNetLines | libs/librepcbproject/schematics/items/si_netsegment.h:96-97 | succeeds exactly when every item belongs to this segment and the batch can be added; then the contents grow by exactly the batch, else a logic error and nothing changes; the net signal, labels and registration are untouched |
| Items.NetSegment.RemoveNetPointsAndNetLines | libs/librepcbproject/schematics/items/si_netsegment.h:98-99 | succeeds exactly when the batch can be removed; then the contents shrink by exactly the batch, else a logic error and nothing changes |
| Items.NetSegment.AddNetLabel | libs/librepcbproject/schematics/items/si_netsegment.h:104 | a label of this segment not yet in it is added; anything else is a logic error with no change; points and lines untouched |
| Items.NetSegment.RemoveNetLabel | libs/librepcbproject/schematics/items/si_netsegment.h:105 | a label in the segment is removed; otherwise a logic error; points and lines untouched |
| Items.NetSegment.SetNetSignal | libs/librepcbproject/schematics/items/si_netsegment.h:85 | the segment moves to the new net signal and keeps all its items |
| Items.NetSegment.AddToSchematic | libs/librepcbproject/schematics/items/si_netsegment.h:108 | registration fails with a logic error when already registered, and leaves the contents alone |
| Items.NetSegment.RemoveFromSchematic | libs/librepcbproject/schematics/items/si_netsegment.h:109 | unregistration fails with a logic error when not registered, and leaves the contents alone |
| Items.NetLine.constructor | libs/librepcbproject/schematics/items/si_netline.h:58 | a line between two points belongs to the segment of its start point |
| Items.NetLine.OtherPoint | libs/librepcbproject/schematics/items/si_netline.h:67 | the opposite end is defined exactly for the two end points, and the point and its opposite are the two ends |
| Items.SerializeNetPoint | libs/librepcbproject/schematics/items/si_netpoint.cpp:248-263 | writing a net point fails with a logic error exactly when its attributes are invalid; an attached point is written as a pin reference without coordinates, a floating one with coordinates and no pin reference |
| Items.ParseNetPoint | libs/librepcbproject/schematics/items/si_netpoint.cpp:49-74 | reading a net point fails exactly when the UUID or attached flag is missing or malformed, when an attached point names no symbol found in the schematic or a pin that symbol lacks, or when a floating point lacks its coordinates; otherwise it yields the file's UUID, and an attached point holds a pin of the symbol named by its "symbol" attribute, a floating point the written coordinates |
| Items.NetPointRoundTrip | libs/librepcbproject/schematics/items/si_netpoint.cpp:248-263 | saving a valid net point and reading it back on the same page gives back the same UUID, position and pin |
| Items.NetPoint.FromAttributes | libs/librepcbproject/schematics/items/si_netpoint.cpp:49-74 | a point built from valid file attributes has exactly those attributes, no lines and is not registered |
| Items.NetPoint.AtPosition | libs/librepcbproject/schematics/items/si_netpoint.cpp:76-81 | a new floating point sits at the given position, has no lines and is not registered |
| Items.NetPoint.OnPin | libs/librepcbproject/schematics/items/si_netpoint.cpp:83-88 | a new point on a pin of the segment's net signal sits on the pin's position, has no lines and is not registered |
| Items.NetPoint.IsVisible | libs/librepcbproject/schematics/items/si_netpoint.cpp:114-123 | a floating point is drawn exactly when three or more lines meet there; a point on a pin exactly when two or more do |
| Items.NetPoint.SetPinToAttach | libs/librepcbproject/schematics/items/si_netpoint.cpp:134-162 | attaching or detaching fails with a logic error exactly when the pin changes while lines are registered, when the pin is on another page, or (on the page) when the pin is on another net signal; then pin and position are unchanged; on success the point has the new pin and, attached on the page, sits on it |
| Items.NetPoint.SetPosition | libs/librepcbproject/schematics/items/si_netpoint.cpp:164-171 | the point is at the new position, and it reports a move exactly when the position changed |
| Items.NetPoint.AddToSchematic | libs/librepcbproject/schematics/items/si_netpoint.cpp:177-196 | registration fails with a logic error exactly when already registered, when lines are registered, or when its pin is on another net signal; on success the "dead net point" message is shown |
| Items.NetPoint.RemoveFromSchematic | libs/librepcbproject/schematics/items/si_netpoint.cpp:198-215 | unregistration fails with a logic error exactly when not registered, when lines are still registered, or when its pin is on another net signal; on success the message is gone |
| Items.NetPoint.RegisterNetLine | libs/librepcbproject/schematics/items/si_netpoint.cpp:217-228 | a line of the same page is appended exactly when the point is registered and the line is new; otherwise a logic error and no change; the "dead" message goes away |
| Items.NetPoint.UnregisterNetLine | libs/librepcbproject/schematics/items/si_netpoint.cpp:230-239 | a registered line is removed exactly when the point is registered; otherwise a logic error; the "dead" message comes back exactly when no line is left |
| Items.SerializeNetLabel | libs/librepcbproject/schematics/items/si_netlabel.cpp:134-144 | writing a net label fails with a logic error exactly when its UUID is null |
| Items.ParseNetLabel | libs/librepcbproject/schematics/items/si_netlabel.cpp:44-55 | reading a net label succeeds exactly when UUID, coordinates and rotation are present and the UUID is not null; a null UUID is a logic error, a missing attribute a file error; a successful parse returns the element's UUID, position and rotation |
| Items.NetLabelRoundTrip | libs/librepcbproject/schematics/items/si_netlabel.cpp:134-144 | saving a valid net label and reading it back gives the same label |
| Items.NetLabel.FromAttributes | libs/librepcbproject/schematics/items/si_netlabel.cpp:44-55 | a label built from valid file attributes has exactly those attributes and is not registered |
| Items.NetLabel.AtPosition | libs/librepcbproject/schematics/items/si_netlabel.cpp:57-62 | a new label sits at the position, unrotated, not registered |
| Items.NetLabel.SetPosition | libs/librepcbproject/schematics/items/si_netlabel.cpp:92-98 | the label is at the new position and reports a move exactly when it changed |
| Items.NetLabel.SetRotation | libs/librepcbproject/schematics/items/si_netlabel.cpp:100-107 | the label has the new rotation and reports a turn exactly when it changed |
| Items.NetLabel.AddToSchematic | libs/librepcbproject/schematics/items/si_netlabel.cpp:113-123 | registration fails with a logic error when already registered; afterwards it is registered |
| Items.NetLabel.RemoveFromSchematic | libs/librepcbproject/schematics/items/si_netlabel.cpp:125-132 | unregistration fails with a logic error when not registered; afterwards it is not registered |
| Schematics.Layer | libs/librepcbproject/schematics/schematic.cpp:154-191 | hits are stacked in five layers; a net point is on the top layer exactly when it is drawn |
| Schematics.PointsOfVisibilityExact | libs/librepcbproject/schematics/schematic.cpp:160-172 | the visible-points pass lists exactly the points under the cursor that are drawn, the hidden-points pass exactly those that are not |
| Schematics.LineItems | libs/librepcbproject/schematics/schematic.cpp:173-176 | every net line under the cursor is listed, in order |
| Schematics.LabelItems | libs/librepcbproject/schematics/schematic.cpp:177-180 | every net label under the cursor is listed, in order |
| Schematics.SymbolHits | libs/librepcbproject/schematics/schematic.cpp:181-189 | the symbol pass lists only pins and symbols |
| Schematics.PinHits | libs/librepcbproject/schematics/schematic.cpp:183-186 | exactly the pins of a symbol whose grab area is hit are listed |
| Schematics.FirstSegmentWithUuid | libs/librepcbproject/schematics/schematic.cpp:288-295 | the first segment of the page list with the UUID; none exactly when no segment has it |
| Schematics.Schematic.constructor | libs/librepcbproject/schematics/schematic.cpp:63-73 | a newly created page is empty, not part of the project, and keeps its invariant |
| Schematics.Schematic.Load | libs/librepcbproject/schematics/schematic.cpp:76-118 | opening a page succeeds exactly when symbol UUIDs and segment UUIDs are each unique and UUID and name are valid; a repeated UUID is a runtime error, invalid attributes a logic error; the page then holds exactly the file's symbols and segments in file order |
| Schematics.Schematic.IsEmpty | libs/librepcbproject/schematics/schematic.cpp:149-152 | a page is empty exactly when it has no symbols and no segments |
| Schematics.Schematic.GetSymbolByUuid | libs/librepcbproject/schematics/schematic.cpp:247-254 | the lookup returns the first symbol with the UUID (see FirstSymbolWithUuid) |
| Schematics.Schematic.GetNetSegmentByUuid | libs/librepcbproject/schematics/schematic.cpp:288-295 | the lookup returns the first segment with the UUID |
| Schematics.Schematic.GetItemsAtScenePos | libs/librepcbproject/schematics/schematic.cpp:154-191 | the hit list is visible points, hidden points, lines, labels, then symbols with their pins, and is stacked: no item comes before one of a higher layer |
| Schematics.LayersOrdered | libs/librepcbproject/schematics/schematic.cpp:154-191 | any list assembled in the order of getItemsAtScenePos is sorted by layer |
| Schematics.AppendPointsOfVisibility | libs/librepcbproject/schematics/schematic.cpp:160-172 | the loop over the points under the cursor keeps exactly the points of one visibility, in order |
| Schematics.AppendLineItems | libs/librepcbproject/schematics/schematic.cpp:173-176 | the loop over the lines lists each of them |
| Schematics.AppendLabelItems | libs/librepcbproject/schematics/schematic.cpp:177-180 | the loop over the labels lists each of them |
| Schematics.AppendSymbolHits | libs/librepcbproject/schematics/schematic.cpp:181-189 | the loop over the symbols: each symbol's hit pins, then the symbol itself if hit |
| Schematics.AppendPinHits | libs/librepcbproject/schematics/schematic.cpp:183-186 | the loop over a symbol's pins keeps those whose grab area is hit |
| Schematics.Schematic.AddSymbol | libs/librepcbproject/schematics/schematic.cpp:256-272 | logic error unless the page is in the project and the symbol is new and made for this page; runtime error when its UUID is taken; logic error when the symbol is already registered; on success it is registered and appended, UUIDs stay unique and the page invariant holds |
| Schematics.Schematic.RemoveSymbol | libs/librepcbproject/schematics/schematic.cpp:274-282 | logic error unless the page is in the project and holds the symbol; on success it is unregistered and its entry removed, nothing else changes |
| Schematics.Schematic.AddNetSegment | libs/librepcbproject/schematics/schematic.cpp:297-313 | the same protocol as AddSymbol for net segments |
| Schematics.Schematic.RemoveNetSegment | libs/librepcbproject/schematics/schematic.cpp:315-323 | the same protocol as RemoveSymbol for net segments |
| Schematics.Schematic.AddToProject | libs/librepcbproject/schematics/schematic.cpp:329-348 | succeeds exactly when the page is not yet in the project and no symbol or segment is registered; then all are registered; on a failure every item is as before and the page is still outside the project |
| Schematics.Schematic.RemoveFromProject | libs/librepcbproject/schematics/schematic.cpp:350-368 | succeeds exactly when the page is in the project and every item is registered; then all are unregistered; on a failure everything is as before |
| Schematics.Schematic.SetSymbolsAdded | libs/librepcbproject/schematics/schematic.cpp:336-338 | the symbol registration loop succeeds exactly when every symbol is in the opposite state; on failure the symbols already switched are switched back |
| Schematics.Schematic.SetSegmentsAdded | libs/librepcbproject/schematics/schematic.cpp:339-343 | the same loop over the segments |
| Schematics.Schematic.RollBackSymbols | libs/librepcbproject/schematics/schematic.cpp:335-347 | the scope guards: the symbols already switched get their old state back, the rest are untouched |
| Schematics.Schematic.RollBackSegments | libs/librepcbproject/schematics/schematic.cpp:335-347 | the same roll-back for segments |
| Schematics.UniqueUuidsDistinct | libs/librepcbproject/schematics/schematic.cpp:264-271 | unique symbol UUIDs imply the symbol list has no repeats |
| Schematics.UniqueSegmentUuidsDistinct | libs/librepcbproject/schematics/schematic.cpp:305-311 | unique segment UUIDs imply the segment list has no repeats |
| Schematics.RemoveFirstKeepsUniqueSymbols | libs/librepcbproject/schematics/schematic.cpp:281 | removing a symbol keeps the symbol UUIDs unique |
| Schematics.RemoveFirstKeepsUniqueSegments | libs/librepcbproject/schematics/schematic.cpp:321 | removing a segment keeps the segment UUIDs unique |
| SegmentCmds.CmdNetSegmentAdd.ForSegment | libs/librepcbproject/schematics/cmd/cmdschematicnetsegmentadd.cpp:38-43 | the command for an existing segment captures its page and net signal |
| SegmentCmds.CmdNetSegmentAdd.ForNewSegment | libs/librepcbproject/schematics/cmd/cmdschematicnetsegmentadd.cpp:45-50 | the command for a segment still to be made has none yet |
| SegmentCmds.CmdNetSegmentAdd.Execute | libs/librepcbproject/schematics/cmd/cmdschematicnetsegmentadd.cpp:60-70 | a segment is created on the command's net signal when none was given; then it is added to the page with the AddNetSegment protocol, succeeding exactly when the page is in the project, no segment of the page has its UUID, and a given segment is neither on the page nor added |
| SegmentCmds.CmdNetSegmentAdd.Undo | libs/librepcbproject/schematics/cmd/cmdschematicnetsegmentadd.cpp:72-75 | takes the segment off the page again (RemoveNetSegment protocol) |
| SegmentCmds.CmdNetSegmentAdd.Redo | libs/librepcbproject/schematics/cmd/cmdschematicnetsegmentadd.cpp:77-80 | puts the segment onto the page as its last segment (AddNetSegment protocol) |
| SegmentCmds.CmdNetSegmentRemove.constructor | libs/librepcbproject/schematics/cmd/cmdschematicnetsegmentremove.cpp:38-42 | captures the segment and its page |
| SegmentCmds.CmdNetSegmentRemove.Execute | libs/librepcbproject/schematics/cmd/cmdschematicnetsegmentremove.cpp:52-57 | removes the segment from the page (RemoveNetSegment protocol) |
| SegmentCmds.CmdNetSegmentRemove.Undo | libs/librepcbproject/schematics/cmd/cmdschematicnetsegmentremove.cpp:59-62 | adds the same segment back (AddNetSegment protocol) |
| SegmentCmds.CmdNetSegmentRemove.Redo | libs/librepcbproject/schematics/cmd/cmdschematicnetsegmentremove.cpp:64-67 | removes it again |
| SegmentCmds.CmdNetSegmentEdit.constructor | libs/librepcbproject/schematics/cmd/cmdschematicnetsegmentedit.cpp:37-41 | old and new net signal both start as the segment's current one |
| SegmentCmds.CmdNetSegmentEdit.SetNetSignal | libs/librepcbproject/schematics/cmd/cmdschematicnetsegmentedit.cpp:51-55 | records the new net signal before the first execution |
| SegmentCmds.CmdNetSegmentEdit.Execute | libs/librepcbproject/schematics/cmd/cmdschematicnetsegmentedit.cpp:61-66 | the segment is moved to the new net signal with its items untouched, and a modification is always reported |
| SegmentCmds.CmdNetSegmentEdit.Undo | libs/librepcbproject/schematics/cmd/cmdschematicnetsegmentedit.cpp:68-71 | the segment is back on its old net signal, items untouched |
| SegmentCmds.CmdNetSegmentEdit.Redo | libs/librepcbproject/schematics/cmd/cmdschematicnetsegmentedit.cpp:73-76 | the segment is on the new net signal again |
| SegmentCmds.CmdNetLabelRemove.constructor | libs/librepcbproject/schematics/cmd/cmdschematicnetlabelremove.cpp:39-43 | captures the label and its segment |
| SegmentCmds.CmdNetLabelRemove.Execute | libs/librepcbproject/schematics/cmd/cmdschematicnetlabelremove.cpp:53-58 | the label is removed from its segment, a logic error when it is not there; points and lines untouched |
| SegmentCmds.CmdNetLabelRemove.Undo | libs/librepcbproject/schematics/cmd/cmdschematicnetlabelremove.cpp:60-63 | the same label is put back into the same segment |
| SegmentCmds.CmdNetLabelRemove.Redo | libs/librepcbproject/schematics/cmd/cmdschematicnetlabelremove.cpp:65-68 | the label is removed again |
| SegmentElementsCmds.CmdNetSegmentAddElements.constructor | libs/librepcbproject/schematics/cmd/cmdschematicnetsegmentaddelements.cpp:40-44 | an empty batch for the segment |
| SegmentElementsCmds.CmdNetSegmentAddElements.AddNetPoint | libs/librepcbproject/schematics/cmd/cmdschematicnetsegmentaddelements.cpp:54-58 | records an existing point at the end of the batch and hands it back |
| SegmentElementsCmds.CmdNetSegmentAddElements.AddNetPointAt | libs/librepcbproject/schematics/cmd/cmdschematicnetsegmentaddelements.cpp:60-64 | creates a floating point of the segment at the position and records it |
| SegmentElementsCmds.CmdNetSegmentAddElements.AddNetPointOnPin | libs/librepcbproject/schematics/cmd/cmdschematicnetsegmentaddelements.cpp:66-70 | creates a point on the pin and records it; a logic error, with nothing recorded, exactly when the pin is on another net signal |
| SegmentElementsCmds.CmdNetSegmentAddElements.AddNetLine | libs/librepcbproject/schematics/cmd/cmdschematicnetsegmentaddelements.cpp:72-76 | records an existing line and hands it back |
| SegmentElementsCmds.CmdNetSegmentAddElements.AddNetLineBetween | libs/librepcbproject/schematics/cmd/cmdschematicnetsegmentaddelements.cpp:78-82 | creates a line between the two points with the default width of 158750 nm and records it |
| SegmentElementsCmds.CmdNetSegmentAddElements.Execute | libs/librepcbproject/schematics/cmd/cmdschematicnetsegmentaddelements.cpp:88-93 | adds the batch to the segment (AddNetPointsAndNetLines protocol) |
| SegmentElementsCmds.CmdNetSegmentAddElements.Undo | libs/librepcbproject/schematics/cmd/cmdschematicnetsegmentaddelements.cpp:95-98 | takes exactly the batch out again, so that a redo would restore the same contents |
| SegmentElementsCmds.CmdNetSegmentAddElements.Redo | libs/librepcbproject/schematics/cmd/cmdschematicnetsegmentaddelements.cpp:100-103 | puts exactly the batch in again, so that an undo would restore the same contents |
| SegmentElementsCmds.CmdNetSegmentRemoveElements.constructor | libs/librepcbproject/schematics/cmd/cmdschematicnetsegmentremoveelements.cpp:40-44 | an empty batch for the segment |
| SegmentElementsCmds.CmdNetSegmentRemoveElements.RemoveNetPoint | libs/librepcbproject/schematics/cmd/cmdschematicnetsegmentremoveelements.cpp:54-57 | records a point for removal; the segment is not touched yet |
| SegmentElementsCmds.CmdNetSegmentRemoveElements.RemoveNetLine | libs/librepcbproject/schematics/cmd/cmdschematicnetsegmentremoveelements.cpp:59-62 | records a line for removal; the segment is not touched yet |
| SegmentElementsCmds.CmdNetSegmentRemoveElements.Execute | libs/librepcbproject/schematics/cmd/cmdschematicnetsegmentremoveelements.cpp:68-73 | removes the batch from the segment (RemoveNetPointsAndNetLines protocol) |
| SegmentElementsCmds.CmdNetSegmentRemoveElements.Undo | libs/librepcbproject/schematics/cmd/cmdschematicnetsegmentremoveelements.cpp:75-78 | puts exactly the batch back, so that a redo would remove the same sets |
| SegmentElementsCmds.CmdNetSegmentRemoveElements.Redo | libs/librepcbproject/schematics/cmd/cmdschematicnetsegmentremoveelements.cpp:80-83 | takes exactly the batch out again, so that an undo would restore the same contents |
| Children.Run | libs/librepcbprojecteditor/cmd/cmdremoveselectedschematicitems.cpp:88-89 | the undo group: it completes exactly when no child and not the composite itself throws, and then applied exactly its children; otherwise it stopped at the first child that throws (or at the composite's own error) and undid exactly the children applied before, last first |
| Children.ApplicableCount | libs/librepcbprojecteditor/cmd/cmdremoveselectedschematicitems.cpp:88-89 | the children before the first one that throws all succeed, and the one at that index throws |
| Children.Reversed | libs/librepcbprojecteditor/cmd/cmdremoveselectedschematicitems.cpp:88-89 | the undo order lists the applied children from last to first |
| Children.ReversedTwice | libs/librepcbprojecteditor/cmd/cmdremoveselectedschematicitems.cpp:88-89 | undoing in reverse and redoing in reverse again gives back the applied children in their order |
| Children.InsertAllElements | libs/librepcbprojecteditor/cmd/cmdcombinenetsignals.cpp:79-84 | inserting into a set-like list keeps it repeat-free and holds exactly the elements of both |
| Children.InsertAllConcat | libs/librepcbprojecteditor/cmd/cmdcombinenetsignals.cpp:79-84 | inserting two lists one after the other is inserting their concatenation |
| Children.OrderedUpToMeans | libs/librepcbprojecteditor/cmd/cmdcombinenetsignals.cpp:86-141 | a phase-ordered log runs its children in non-decreasing phase and none beyond the last phase |
| Children.OrderedAppend | libs/librepcbprojecteditor/cmd/cmdcombinenetsignals.cpp:86-141 | appending a block of a later phase to a phase-ordered log keeps it ordered |
| BoardDetach.LinesRemovalElements | libs/librepcbprojecteditor/cmd/cmdchangenetsignalofschematicnetsegment.cpp:119-121 | one board line removal per line at the board point, in order |
| BoardDetach.LinesRemovalHas | libs/librepcbprojecteditor/cmd/cmdchangenetsignalofschematicnetsegment.cpp:119-121 | exactly the lines at the point are removed |
| BoardDetach.PointRemovalOrdered | libs/librepcbprojecteditor/cmd/cmdchangenetsignalofschematicnetsegment.cpp:118-123 | a board point is removed after all of its lines |
| BoardDetach.PointsRemovalOrdered | libs/librepcbprojecteditor/cmd/cmdchangenetsignalofschematicnetsegment.cpp:118-123 | over all board points of a pad, every point goes after its lines |
| BoardDetach.PadsRemovalOrdered | libs/librepcbprojecteditor/cmd/cmdchangenetsignalofschematicnetsegment.cpp:117-124 | over all pads of a component signal, every board point goes after its lines |
| BoardDetach.PointsRemovalCovers | libs/librepcbprojecteditor/cmd/cmdchangenetsignalofschematicnetsegment.cpp:118-123 | exactly the board points of the pad are removed |
| BoardDetach.PadsRemovalCovers | libs/librepcbprojecteditor/cmd/cmdchangenetsignalofschematicnetsegment.cpp:117-124 | exactly the board points at the pads of the component signal are removed |
| BoardDetach.DisconnectOrdered | libs/librepcbprojecteditor/cmd/cmdchangenetsignalofschematicnetsegment.cpp:114-128 | detaching a component signal removes every board point at its pads, each after its lines, and moves the component signal last |
| BoardDetach.DetachOrderedConcat | libs/librepcbprojecteditor/cmd/cmdchangenetsignalofschematicnetsegment.cpp:99-108 | consecutive detachments together are still ordered |
| BoardDetach.DisconnectDetachOrdered | libs/librepcbprojecteditor/cmd/cmdchangenetsignalofschematicnetsegment.cpp:114-128 | a single detachment is ordered |
| BoardDetach.AppendLinesRemoval | libs/librepcbprojecteditor/cmd/cmdchangenetsignalofschematicnetsegment.cpp:119-121 | the innermost loop appends exactly the removals of the given lines, in order |
| BoardDetach.AppendPointsRemoval | libs/librepcbprojecteditor/cmd/cmdchangenetsignalofschematicnetsegment.cpp:118-123 | the middle loop appends exactly the removals of a pad's board points with their lines |
| BoardDetach.AppendPadsRemoval | libs/librepcbprojecteditor/cmd/cmdchangenetsignalofschematicnetsegment.cpp:117-124 | the outer loop appends exactly the removals for all pads |
| BoardDetach.AppendDisconnect | libs/librepcbprojecteditor/cmd/cmdchangenetsignalofschematicnetsegment.cpp:114-128 | updateCompSigInstNetSignal appends exactly the pad removals followed by the move of the component signal, reading the boards as they were when the composite started, since its children are only appended and run later |
| BoardDetach.PointRemovalAfterFacts | libs/librepcbprojecteditor/cmd/cmdremoveselectedschematicitems.cpp:340-345 | removing a board point after earlier children: from there on only board lines and points go, the point after every one of its lines (removed here or earlier), and the point is the only one removed |
| BoardDetach.PointRemovalAfterOnce | libs/librepcbprojecteditor/cmd/cmdremoveselectedschematicitems.cpp:340-345 | when the point is still there and its lines have no repeats, no line or point already removed is removed again |
| BoardDetach.PointsRemovalAfterOrdered | libs/librepcbprojecteditor/cmd/cmdremoveselectedschematicitems.cpp:340-345 | over a pad's remaining points, each goes after all of its lines, and exactly the listed points go |
| BoardDetach.PointsRemovalAfterOnce | libs/librepcbprojecteditor/cmd/cmdremoveselectedschematicitems.cpp:340-345 | over distinct remaining points with repeat-free lines, nothing is removed twice |
| BoardDetach.PadsRemovalAfterOrdered | libs/librepcbprojecteditor/cmd/cmdremoveselectedschematicitems.cpp:339-346 | over all pads, every board point goes after all of its lines |
| BoardDetach.PadsRemovalAfterOnlyPads | libs/librepcbprojecteditor/cmd/cmdremoveselectedschematicitems.cpp:339-346 | only board points at the pads are removed |
| BoardDetach.PadsRemovalAfterClears | libs/librepcbprojecteditor/cmd/cmdremoveselectedschematicitems.cpp:339-346 | afterwards every board point at the pads is removed, here or by an earlier child |
| BoardDetach.PadsRemovalAfterOnce | libs/librepcbprojecteditor/cmd/cmdremoveselectedschematicitems.cpp:339-346 | with the boards' lists free of repeats, nothing already removed is removed again |
| BoardDetach.DisconnectAfterFacts | libs/librepcbprojecteditor/cmd/cmdremoveselectedschematicitems.cpp:335-350 | disconnecting after earlier children only detaches: each board point after its lines, the component signal moved last once every board point at its pads is gone (here or earlier), no other component signal moved, only points at its pads removed |
| BoardDetach.DisconnectAfterOnce | libs/librepcbprojecteditor/cmd/cmdremoveselectedschematicitems.cpp:335-350 | after a log that removed nothing twice, the disconnection removes no board line or point a second time |
| BoardDetach.AppendPointsRemovalAfter | libs/librepcbprojecteditor/cmd/cmdremoveselectedschematicitems.cpp:340-345 | the middle loop, reading each point's lines after the children run so far, appends exactly the live point removals |
| BoardDetach.AppendDisconnectAfter | libs/librepcbprojecteditor/cmd/cmdremoveselectedschematicitems.cpp:335-350 | disconnectComponentSignalInstance, whose children run at once, appends exactly the live disconnection |
| Connectivity.Other | libs/librepcbproject/schematics/items/si_netline.h:67 | for a line touching a point: the opposite end, the one getOtherPoint returns |
| Connectivity.OtherInvolutive | libs/librepcbproject/schematics/items/si_netline.h:67 | going over a line and back returns to the start |
| Connectivity.ReachableTrans | libs/librepcbprojecteditor/cmd/cmdremoveselectedschematicitems.cpp:376-393 | connectedness is transitive |
| Connectivity.ReachableSym | libs/librepcbprojecteditor/cmd/cmdremoveselectedschematicitems.cpp:376-393 | connectedness is symmetric: lines are undirected |
| Connectivity.ReachableMono | libs/librepcbprojecteditor/cmd/cmdremoveselectedschematicitems.cpp:376-393 | connected within fewer points and lines means connected within more |
| Connectivity.ClosedHoldsWalk | libs/librepcbprojecteditor/cmd/cmdremoveselectedschematicitems.cpp:352-374 | a piece closed under lines holds every point reachable from it |
| Connectivity.ComponentIsReachSet | libs/librepcbprojecteditor/cmd/cmdremoveselectedschematicitems.cpp:352-374 | a component found is maximal: its points are exactly those connected to any one of them |
| Connectivity.FindAllConnected | libs/librepcbprojecteditor/cmd/cmdremoveselectedschematicitems.cpp:376-393 | the recursive flood fill collects the seed and, for every collected point, every available line at it and that line's other end when available; it never leaves the available points and lines, and collects only points connected to the seed |
| Connectivity.SubSegments | libs/librepcbprojecteditor/cmd/cmdremoveselectedschematicitems.cpp:352-374 | the remaining points and lines are split into pieces that are pairwise disjoint, together cover exactly the remainder, and are each a maximal connected component |
| Connectivity.TakeComponent | libs/librepcbprojecteditor/cmd/cmdremoveselectedschematicitems.cpp:363-371 | one pass of the split loop takes out a connected component and strictly shrinks what is left |
| Connectivity.NewComponent | libs/librepcbprojecteditor/cmd/cmdremoveselectedschematicitems.cpp:363-371 | the piece found by the flood fill is a component of the whole remainder |
| Connectivity.AppendDisjoint | libs/librepcbprojecteditor/cmd/cmdremoveselectedschematicitems.cpp:368-370 | the new piece shares nothing with the pieces found before |
| RemoveSelectedSteps.CmpSigToBeDisconnected | libs/librepcbprojecteditor/cmd/cmdremoveselectedschematicitems.cpp:318-333 | a removed net point frees the component signal behind its pin exactly when it is on a pin, the pin has a component signal, and no other pin of that component signal still holds a net point |
| RemoveSelectedSteps.CmpSigsOfHas | libs/librepcbprojecteditor/cmd/cmdremoveselectedschematicitems.cpp:155-161 | the collected list holds exactly the component signals freed by some point of the segment |
| RemoveSelectedSteps.AppendCmpSigs | libs/librepcbprojecteditor/cmd/cmdremoveselectedschematicitems.cpp:155-161 | the collecting loop of removeNetSegment appends one entry per point that frees a component signal, in point order |
| RemoveSelectedSteps.InsertCmpSigs | libs/librepcbprojecteditor/cmd/cmdremoveselectedschematicitems.cpp:181-189 | the collecting loop of splitUpNetSegment inserts those component signals into a set, each once |
| RemoveSelectedSteps.DisconnectAllFacts | libs/librepcbprojecteditor/cmd/cmdremoveselectedschematicitems.cpp:167-169 | after earlier children, the disconnections only detach (each board point after its lines, each component signal after every board point at its pads) and move exactly the listed component signals, each to no net signal |
| RemoveSelectedSteps.DisconnectAllOnce | libs/librepcbprojecteditor/cmd/cmdremoveselectedschematicitems.cpp:167-169 | after a log that removed nothing twice, the disconnections remove no board line or point a second time, even where two component signals share a board line |
| RemoveSelectedSteps.AppendDisconnectAll | libs/librepcbprojecteditor/cmd/cmdremoveselectedschematicitems.cpp:167-169 | the loop appends exactly one live disconnection per listed component signal, each after the ones before it |
| RemoveSelectedSteps.WholeRemovalFacts | libs/librepcbprojecteditor/cmd/cmdremoveselectedschematicitems.cpp:151-170 | removing a whole segment takes the segment away first, then only detaches from the boards as the earlier children left them, and moves exactly the component signals freed by its points, each to no net signal |
| RemoveSelectedSteps.WholeRemovalOnce | libs/librepcbprojecteditor/cmd/cmdremoveselectedschematicitems.cpp:151-170 | no board line or point removal listed by a whole-segment removal repeats one listed earlier in the log |
| RemoveSelectedSteps.RemoveNetSegment | libs/librepcbprojecteditor/cmd/cmdremoveselectedschematicitems.cpp:151-170 | removeNetSegment appends exactly that log |
| RemoveSelectedSteps.Enumerate | libs/librepcbprojecteditor/cmd/cmdremoveselectedschematicitems.cpp:118 | iterating a set visits each element exactly once |
| RemoveSelectedSteps.SplitPieces | libs/librepcbprojecteditor/cmd/cmdremoveselectedschematicitems.cpp:352-374 | the pieces of what is left are exactly its connected components, disjoint and covering it |
| RemoveSelectedSteps.PieceLinesClosed | libs/librepcbprojecteditor/cmd/cmdremoveselectedschematicitems.cpp:352-374 | every line of a piece ends at points of that piece |
| RemoveSelectedSteps.PiecesCover | libs/librepcbprojecteditor/cmd/cmdremoveselectedschematicitems.cpp:352-374 | the pieces together hold exactly the points and lines that were split |
| RemoveSelectedSteps.PiecesClosed | libs/librepcbprojecteditor/cmd/cmdremoveselectedschematicitems.cpp:239-244 | every copied line joins copied points of the same piece, so the point lookup never misses |
| RemoveSelectedSteps.PiecesChildrenShape | libs/librepcbprojecteditor/cmd/cmdremoveselectedschematicitems.cpp:204-206 | each piece gives a new segment and then one batch adding copies of its points and lines into that segment |
| RemoveSelectedSteps.SplitUpHead | libs/librepcbprojecteditor/cmd/cmdremoveselectedschematicitems.cpp:172-207 | a split takes the old segment away first, then only detaches from the boards as the earlier children left them, and only then builds the pieces |
| RemoveSelectedSteps.SplitUpOnce | libs/librepcbprojecteditor/cmd/cmdremoveselectedschematicitems.cpp:172-207 | no board line or point removal listed by a split repeats one listed earlier in the log |
| RemoveSelectedSteps.SplitUpPieces | libs/librepcbprojecteditor/cmd/cmdremoveselectedschematicitems.cpp:209-246 | piece i becomes new segment number i on the old segment's net signal, filled with a copy of each of its points (on the same pin or at the same position) and of each of its lines |
| RemoveSelectedSteps.SplitUpMoves | libs/librepcbprojecteditor/cmd/cmdremoveselectedschematicitems.cpp:181-201 | a split moves exactly the component signals freed by the selected points, each once and to no net signal |
| RemoveSelectedSteps.AppendPointCopies | libs/librepcbprojecteditor/cmd/cmdremoveselectedschematicitems.cpp:228-238 | the loop copying a piece's points appends exactly one copy per point |
| RemoveSelectedSteps.AppendLineCopies | libs/librepcbprojecteditor/cmd/cmdremoveselectedschematicitems.cpp:239-244 | the loop copying a piece's lines appends exactly one copy per line |
| RemoveSelectedSteps.CreateSubSegment | libs/librepcbprojecteditor/cmd/cmdremoveselectedschematicitems.cpp:209-246 | createNewSubNetSegment appends the new segment and its filled batch |
| RemoveSelectedSteps.AppendPieces | libs/librepcbprojecteditor/cmd/cmdremoveselectedschematicitems.cpp:204-206 | the loop over the pieces appends exactly their sub-segments, numbered in order |
| RemoveSelectedSteps.VisitPiece | libs/librepcbprojecteditor/cmd/cmdremoveselectedschematicitems.cpp:204-206 | one pass of that loop adds the next piece's sub-segment |
| RemoveSelectedSteps.SplitUpNetSegment | libs/librepcbprojecteditor/cmd/cmdremoveselectedschematicitems.cpp:172-207 | splitUpNetSegment appends exactly the split log |
| RemoveSelectedSteps.LabelsRemovalFacts | libs/librepcbprojecteditor/cmd/cmdremoveselectedschematicitems.cpp:248-271 | the selected labels are removed in order, and a new net signal in the net class of the segment's signal is added, with the segment moved to it, exactly when the segment's last label went, once, at the end |
| RemoveSelectedSteps.RemoveNetLabels | libs/librepcbprojecteditor/cmd/cmdremoveselectedschematicitems.cpp:123-125 | the loop over a segment's selected labels appends exactly that log |
| RemoveSelectedSteps.SymbolRemovalHas | libs/librepcbprojecteditor/cmd/cmdremoveselectedschematicitems.cpp:287-298 | removing a symbol removes its component exactly when the symbol belongs to it and no other placed symbol of it is left |
| RemoveSelectedSteps.PinsDetachKinds | libs/librepcbprojecteditor/cmd/cmdremoveselectedschematicitems.cpp:301-316 | detaching points from pins only removes and re-adds segments (existing or created by a split) and unpins points (own ones or copies) |
| RemoveSelectedSteps.HeldAfter | libs/librepcbprojecteditor/cmd/cmdremoveselectedschematicitems.cpp:277-279 | once the segments are done a pin holds nothing exactly when it had no point or its point went with a removed segment and was not re-created; otherwise its own point, not removed, or the copy a split put on its pin, under the number of that copy's new segment |
| RemoveSelectedSteps.Detach | libs/librepcbprojecteditor/cmd/cmdremoveselectedschematicitems.cpp:301-316 | detaching takes the held point's segment off (the existing one, or the created one holding the copy), unpins the point, and puts the segment back |
| RemoveSelectedSteps.PinsDetachUnpins | libs/librepcbprojecteditor/cmd/cmdremoveselectedschematicitems.cpp:277-282 | exactly what the pins hold is unpinned: every pin holding a point has it unpinned, and every pin change is such an unpinning |
| RemoveSelectedSteps.SymbolsRemovalKinds | libs/librepcbprojecteditor/cmd/cmdremoveselectedschematicitems.cpp:137-140 | removing the symbols removes no board line or point directly |
| RemoveSelectedSteps.ComponentRemoved | libs/librepcbprojecteditor/cmd/cmdremoveselectedschematicitems.cpp:274-299 | over all selected symbols, a component is removed exactly when one of them is the last of its placed symbols to go |
| RemoveSelectedSteps.LastOfComponentSnoc | libs/librepcbprojecteditor/cmd/cmdremoveselectedschematicitems.cpp:137-140 | the last symbol of a component to go is an earlier one, or else the newest |
| RemoveSelectedSteps.ComponentRemovedWhenAllSelected | libs/librepcbprojecteditor/cmd/cmdremoveselectedschematicitems.cpp:137-140 | with a consistent component view, a component is removed exactly when some selected symbol belongs to it and all its placed symbols are selected |
| RemoveSelectedSteps.AppendPinsDetach | libs/librepcbprojecteditor/cmd/cmdremoveselectedschematicitems.cpp:277-282 | the loop over the symbol's pins detaches exactly what each pin holds once the segments are done |
| RemoveSelectedSteps.RemoveSymbol | libs/librepcbprojecteditor/cmd/cmdremoveselectedschematicitems.cpp:274-299 | removeSymbol appends the pin detachments, the symbol removal and, for the last symbol of its component, the device and component removals |
| RemoveSelectedSteps.RemoveSymbols | libs/librepcbprojecteditor/cmd/cmdremoveselectedschematicitems.cpp:137-140 | the loop over the selected symbols appends exactly their removals, each knowing the symbols removed before it |
| RemoveSelectedCmd.GroupMeaning | libs/librepcbprojecteditor/cmd/cmdremoveselectedschematicitems.cpp:103-115 | each selected point, line and label is listed under its own segment and nowhere else, and only affected segments have an entry |
| RemoveSelectedCmd.GroupItems | libs/librepcbprojecteditor/cmd/cmdremoveselectedschematicitems.cpp:103-115 | the three grouping loops build exactly that map |
| RemoveSelectedCmd.GroupPoints | libs/librepcbprojecteditor/cmd/cmdremoveselectedschematicitems.cpp:104-107 | the loop over the selected points |
| RemoveSelectedCmd.GroupLines | libs/librepcbprojecteditor/cmd/cmdremoveselectedschematicitems.cpp:108-111 | the loop over the selected lines |
| RemoveSelectedCmd.GroupLabels | libs/librepcbprojecteditor/cmd/cmdremoveselectedschematicitems.cpp:112-115 | the loop over the selected labels |
| RemoveSelectedCmd.StrategyOf | libs/librepcbprojecteditor/cmd/cmdremoveselectedschematicitems.cpp:120-134 | labels only exactly when no line is selected; whole segment exactly when all its lines are; split exactly when some but not all are; a logic error exactly when more are selected than it has |
| RemoveSelectedCmd.ProcessSegment | libs/librepcbprojecteditor/cmd/cmdremoveselectedschematicitems.cpp:118-135 | one pass over an affected segment performs exactly the step its strategy calls for, with choices that fit the segment |
| RemoveSelectedCmd.RemainderWellFormed | libs/librepcbprojecteditor/cmd/cmdremoveselectedschematicitems.cpp:357-358 | what is left of an affected segment is a well-formed graph: no remaining line ends at a removed point |
| RemoveSelectedCmd.RemaindersWellFormed | libs/librepcbprojecteditor/cmd/cmdremoveselectedschematicitems.cpp:357-358 | the same for every affected segment |
| RemoveSelectedCmd.Execute | libs/librepcbprojecteditor/cmd/cmdremoveselectedschematicitems.cpp:86-149 | performExecute visits every affected segment at most once, in some order, up to the first that throws, and yields exactly the composite plan for what it visited |
| RemoveSelectedCmd.Finish | libs/librepcbprojecteditor/cmd/cmdremoveselectedschematicitems.cpp:137-148 | after the segments: the symbols, each pin with what it holds after the segment steps, then the unused net signal clean-up when any child ran |
| RemoveSelectedCmd.VisitSegments | libs/librepcbprojecteditor/cmd/cmdremoveselectedschematicitems.cpp:117-135 | the segment loop runs up to the first segment that throws and matches the stage function |
| RemoveSelectedCmd.VisitSegment | libs/librepcbprojecteditor/cmd/cmdremoveselectedschematicitems.cpp:117-135 | one pass of the segment loop |
| RemoveSelectedCmd.StepAfterStage | libs/librepcbprojecteditor/cmd/cmdremoveselectedschematicitems.cpp:117-135 | the step for one segment after the stage so far |
| RemoveSelectedCmd.AllFitSnoc | libs/librepcbprojecteditor/cmd/cmdremoveselectedschematicitems.cpp:117-135 | a choice fitting the next segment extends the fitting choices |
| RemoveSelectedCmd.StageAborts | libs/librepcbprojecteditor/cmd/cmdremoveselectedschematicitems.cpp:132-134 | the segment loop stops exactly at a segment with more selected lines than lines, and then with a logic error |
| RemoveSelectedCmd.ThrowsSnoc | libs/librepcbprojecteditor/cmd/cmdremoveselectedschematicitems.cpp:132-134 | the loop throws on a longer prefix exactly when it throws earlier or at the new segment |
| RemoveSelectedCmd.NeverInconsistent | libs/librepcbprojecteditor/cmd/cmdremoveselectedschematicitems.cpp:129-134 | when every selected line belongs to its segment, no segment has more selected lines than lines |
| RemoveSelectedCmd.VisitsAll | libs/librepcbprojecteditor/cmd/cmdremoveselectedschematicitems.cpp:117-135 | under the same condition the loop never stops early |
| RemoveSelectedCmd.LabelsOnlyHasNoPoints | libs/librepcbprojecteditor/cmd/cmdremoveselectedschematicitems.cpp:122 | the assertion holds: a segment without selected lines has no selected points, since selected points are those of selected lines |
| RemoveSelectedCmd.LabelsRemovalHas | libs/librepcbprojecteditor/cmd/cmdremoveselectedschematicitems.cpp:123-125 | every selected label of a labels-only segment is removed |
| RemoveSelectedCmd.StepFacts | libs/librepcbprojecteditor/cmd/cmdremoveselectedschematicitems.cpp:117-135 | one step throws exactly for an inconsistent segment; otherwise it only appends children, and these remove the segment (whole or before a split) or the selected labels |
| RemoveSelectedCmd.StageRemoves | libs/librepcbprojecteditor/cmd/cmdremoveselectedschematicitems.cpp:117-135 | a segment loop that ran to its end removed every whole or split segment and every selected label of a labels-only segment |
| RemoveSelectedCmd.AllRemovedSnoc | libs/librepcbprojecteditor/cmd/cmdremoveselectedschematicitems.cpp:117-135 | that property extends segment by segment |
| RemoveSelectedCmd.RemovesSelection | libs/librepcbprojecteditor/cmd/cmdremoveselectedschematicitems.cpp:86-149 | over all affected segments, with each selected line a line of its segment: no error; it returns true exactly when it ran children, with the unused net signal clean-up last; any selected line makes it run; every selected line's segment and every selected label of a labels-only segment is removed |
| RemoveSelectedCmd.SelectionRemoved | libs/librepcbprojecteditor/cmd/cmdremoveselectedschematicitems.cpp:117-135 | children that do what each step removes take away every selected line's segment and every selected label of a segment without selected lines |
| RemoveSelectedCmd.PieceCopiesKeys | libs/librepcbprojecteditor/cmd/cmdremoveselectedschematicitems.cpp:228-236 | a split re-creates exactly the points of its pieces |
| RemoveSelectedCmd.PieceCopiesInto | libs/librepcbprojecteditor/cmd/cmdremoveselectedschematicitems.cpp:204-206 | each re-created point is recorded under the new segment of a piece it is in |
| RemoveSelectedCmd.SplitCopies | libs/librepcbprojecteditor/cmd/cmdremoveselectedschematicitems.cpp:209-246 | a split adds each recorded copy into the new segment it is recorded under |
| RemoveSelectedCmd.StepCopies | libs/librepcbprojecteditor/cmd/cmdremoveselectedschematicitems.cpp:117-135 | one segment step keeps every recorded copy added into its created segment, one created so far |
| RemoveSelectedCmd.StageCopies | libs/librepcbprojecteditor/cmd/cmdremoveselectedschematicitems.cpp:117-135 | after the segment loop, every point recorded as copied has its copy added into the created segment it is recorded under, one created so far |
| RemoveSelectedCmd.StageRemovesOnce | libs/librepcbprojecteditor/cmd/cmdremoveselectedschematicitems.cpp:117-135 | with the boards' own lists free of repeats, no board line or point removal listed by the segment loop repeats an earlier listed one |
| RemoveSelectedCmd.PlanRemovesOnce | libs/librepcbprojecteditor/cmd/cmdremoveselectedschematicitems.cpp:86-149 | no board line or point removal listed in the whole plan repeats an earlier listed one |
| RotateCmd.LineEndsHas | libs/librepcbprojecteditor/cmd/cmdrotateselectedschematicitems.cpp:70-71 | the end points of the selected lines are exactly the starts and ends of those lines |
| RotateCmd.FloatingHas | libs/librepcbprojecteditor/cmd/cmdrotateselectedschematicitems.cpp:67 | the floating filter keeps exactly the points on no pin |
| RotateCmd.MovedPointsHas | libs/librepcbprojecteditor/cmd/cmdrotateselectedschematicitems.cpp:65-71 | the points moved are exactly the floating points that are selected or end a selected line, each listed once |
| RotateCmd.MeanBounds | libs/librepcbprojecteditor/cmd/cmdrotateselectedschematicitems.cpp:88-89 | the center is the sum divided by the count with truncation toward zero: within one unit of the exact mean, rounded toward zero |
| RotateCmd.MeanOfOne | libs/librepcbprojecteditor/cmd/cmdrotateselectedschematicitems.cpp:88-89 | the center of a single item is its own position |
| RotateCmd.MeanOfEqual | libs/librepcbprojecteditor/cmd/cmdrotateselectedschematicitems.cpp:88-89 | items all at one position have that position as center |
| RotateCmd.SymbolRotationsElements | libs/librepcbprojecteditor/cmd/cmdrotateselectedschematicitems.cpp:97-101 | one rotation per selected symbol, in order |
| RotateCmd.PointMovesElements | libs/librepcbprojecteditor/cmd/cmdrotateselectedschematicitems.cpp:102-106 | one move per net point, to its position rotated about the center |
| RotateCmd.LabelRotationsElements | libs/librepcbprojecteditor/cmd/cmdrotateselectedschematicitems.cpp:107-111 | one rotation per selected label, in order |
| RotateCmd.RotateEmpty | libs/librepcbprojecteditor/cmd/cmdrotateselectedschematicitems.cpp:88-94 | nothing selected gives no children and false; anything selected gives children and true |
| RotateCmd.RotateChildren | libs/librepcbprojecteditor/cmd/cmdrotateselectedschematicitems.cpp:96-111 | exactly one edit per selected item, symbols then points then labels in selection order, all with the same angle about the same grid-snapped center; each point goes to its old position rotated about it |
| RotateCmd.SumPositions | libs/librepcbprojecteditor/cmd/cmdrotateselectedschematicitems.cpp:73-87 | the loops sum the positions of all selected items and count them |
| RotateCmd.AppendSymbolRotations | libs/librepcbprojecteditor/cmd/cmdrotateselectedschematicitems.cpp:97-101 | the symbol loop appends exactly the symbol rotations |
| RotateCmd.AppendPointMoves | libs/librepcbprojecteditor/cmd/cmdrotateselectedschematicitems.cpp:102-106 | the point loop appends exactly the point moves |
| RotateCmd.AppendLabelRotations | libs/librepcbprojecteditor/cmd/cmdrotateselectedschematicitems.cpp:107-111 | the label loop appends exactly the label rotations |
| RotateCmd.RotationLog | libs/librepcbprojecteditor/cmd/cmdrotateselectedschematicitems.cpp:96-111 | the three loops produce the symbol, point and label blocks in that order |
| RotateCmd.Execute | libs/librepcbprojecteditor/cmd/cmdrotateselectedschematicitems.cpp:62-115 | performExecute yields exactly the rotation plan of the selection |
| ChangeNetSignalCmd.PinCmpSig | libs/librepcbprojecteditor/cmd/cmdchangenetsignalofschematicnetsegment.cpp:100-104 | the component signal behind a point exists exactly when the point is on a pin that has one |
| ChangeNetSignalCmd.PointUpdateFacts | libs/librepcbprojecteditor/cmd/cmdchangenetsignalofschematicnetsegment.cpp:114-128 | the contribution of one point is an ordered detachment that moves exactly the component signal behind its pin, to the new net signal |
| ChangeNetSignalCmd.PointsUpdateFacts | libs/librepcbprojecteditor/cmd/cmdchangenetsignalofschematicnetsegment.cpp:99-108 | over all points: ordered, and the component signals moved are exactly those behind the points' pins, each to the new net signal |
| ChangeNetSignalCmd.ChangeShortcuts | libs/librepcbprojecteditor/cmd/cmdchangenetsignalofschematicnetsegment.cpp:68-77 | no children and false exactly when the signal is unchanged; when the segment is the only one of its net signal, the single child merges the two net signals |
| ChangeNetSignalCmd.ChangeSegmentOrder | libs/librepcbprojecteditor/cmd/cmdchangenetsignalofschematicnetsegment.cpp:88-112 | otherwise the segment is removed first, edited second and re-added last; in between only ordered board detachments happen, moving exactly the component signals behind the segment's pins to the new net signal |
| ChangeNetSignalCmd.AppendPointsUpdate | libs/librepcbprojecteditor/cmd/cmdchangenetsignalofschematicnetsegment.cpp:99-108 | the loop over the segment's points appends exactly their contributions |
| ChangeNetSignalCmd.VisitPoint | libs/librepcbprojecteditor/cmd/cmdchangenetsignalofschematicnetsegment.cpp:99-108 | one pass of that loop |
| ChangeNetSignalCmd.Execute | libs/librepcbprojecteditor/cmd/cmdchangenetsignalofschematicnetsegment.cpp:66-86 | performExecute yields exactly the change plan |
| CombineNetPointsCmd.PlacementOf | libs/librepcbprojecteditor/cmd/cmdcombineschematicnetpoints.cpp:86-91 | a copy goes onto the point's pin exactly when it has one, else to its position |
| CombineNetPointsCmd.PointCopiesHas | libs/librepcbprojecteditor/cmd/cmdcombineschematicnetpoints.cpp:80-96 | the copies are exactly single-point batches for the points other than the losing one |
| CombineNetPointsCmd.LineCopiesHas | libs/librepcbprojecteditor/cmd/cmdcombineschematicnetpoints.cpp:98-104 | one line copy per line of the losing segment |
| CombineNetPointsCmd.LabelCopiesHas | libs/librepcbprojecteditor/cmd/cmdcombineschematicnetpoints.cpp:106-109 | one label added into the resulting segment at each old label's position |
| CombineNetPointsCmd.RewiresHas | libs/librepcbprojecteditor/cmd/cmdcombineschematicnetpoints.cpp:114-126 | each line at the losing point is removed, and re-added from the resulting point to its other end unless that end is the resulting point |
| CombineNetPointsCmd.CrossOrder | libs/librepcbprojecteditor/cmd/cmdcombineschematicnetpoints.cpp:75-109 | two segments: the losing segment is removed first, then the points, lines and labels are copied, in that order |
| CombineNetPointsCmd.CrossContents | libs/librepcbprojecteditor/cmd/cmdcombineschematicnetpoints.cpp:75-109 | two segments: exactly the points other than the losing one are copied; every line is copied between the stand-ins of its ends, where the losing point's stand-in is the resulting point and every other end has its own copy in the log; labels are added exactly at the old labels' positions |
| CombineNetPointsCmd.SameContents | libs/librepcbprojecteditor/cmd/cmdcombineschematicnetpoints.cpp:110-132 | one segment: the losing point is removed last, after each of its lines; only those lines are removed, and each line added runs from the resulting point to the other end of one of them |
| CombineNetPointsCmd.SameNoLoops | libs/librepcbprojecteditor/cmd/cmdcombineschematicnetpoints.cpp:121-125 | no added line is a loop: both ends differ |
| CombineNetPointsCmd.CopyPoints | libs/librepcbprojecteditor/cmd/cmdcombineschematicnetpoints.cpp:79-96 | the point loop appends the copies and maps each old point to its stand-in |
| CombineNetPointsCmd.CopyLines | libs/librepcbprojecteditor/cmd/cmdcombineschematicnetpoints.cpp:98-104 | the line loop appends one copy per line, between the mapped ends |
| CombineNetPointsCmd.CopyLabels | libs/librepcbprojecteditor/cmd/cmdcombineschematicnetpoints.cpp:106-109 | the label loop appends one label per old label |
| CombineNetPointsCmd.AppendRewires | libs/librepcbprojecteditor/cmd/cmdcombineschematicnetpoints.cpp:114-126 | the loop over the losing point's lines appends exactly the rewiring |
| CombineNetPointsCmd.Execute | libs/librepcbprojecteditor/cmd/cmdcombineschematicnetpoints.cpp:63-136 | performExecute yields exactly the combine plan for the two cases |
| CombineNetSignalsCmd.PointsLinesHas | libs/librepcbprojecteditor/cmd/cmdcombinenetsignals.cpp:79-84 | the lines gathered are exactly the lines at some board point of the removed net signal |
| CombineNetSignalsCmd.BoardLines | libs/librepcbprojecteditor/cmd/cmdcombinenetsignals.cpp:79-84 | the board lines taken away temporarily: every line at a board point of the net signal, each once |
| CombineNetSignalsCmd.InsertLines | libs/librepcbprojecteditor/cmd/cmdcombinenetsignals.cpp:80-82 | the inner loop inserts the lines of one board point into the set |
| CombineNetSignalsCmd.CollectBoardLines | libs/librepcbprojecteditor/cmd/cmdcombinenetsignals.cpp:79-84 | the nested loops collect exactly those lines, each once |
| CombineNetSignalsCmd.SegmentRemovalsHas | libs/librepcbprojecteditor/cmd/cmdcombinenetsignals.cpp:87-89 | exactly the schematic segments of the removed net signal are removed |
| CombineNetSignalsCmd.AppendSegmentRemovals | libs/librepcbprojecteditor/cmd/cmdcombinenetsignals.cpp:87-89 | the loop appends those removals |
| CombineNetSignalsCmd.PointRemovalsHas | libs/librepcbprojecteditor/cmd/cmdcombinenetsignals.cpp:97-99 | exactly its board points are removed |
| CombineNetSignalsCmd.AppendPointRemovals | libs/librepcbprojecteditor/cmd/cmdcombinenetsignals.cpp:97-99 | the loop appends those removals |
| CombineNetSignalsCmd.ViaRemovalsHas | libs/librepcbprojecteditor/cmd/cmdcombinenetsignals.cpp:102-104 | exactly its vias are removed |
| CombineNetSignalsCmd.AppendViaRemovals | libs/librepcbprojecteditor/cmd/cmdcombinenetsignals.cpp:102-104 | the loop appends those removals |
| CombineNetSignalsCmd.CmpSigMovesHas | libs/librepcbprojecteditor/cmd/cmdcombinenetsignals.cpp:107-109 | exactly its component signals are moved, each to the resulting net signal |
| CombineNetSignalsCmd.AppendCmpSigMoves | libs/librepcbprojecteditor/cmd/cmdcombinenetsignals.cpp:107-109 | the loop appends those moves |
| CombineNetSignalsCmd.LineReAddsHas | libs/librepcbprojecteditor/cmd/cmdcombinenetsignals.cpp:128-130 | exactly the gathered board lines are added back |
| CombineNetSignalsCmd.AppendLineReAdds | libs/librepcbprojecteditor/cmd/cmdcombinenetsignals.cpp:128-130 | the loop appends those additions |
| CombineNetSignalsCmd.ViaReAddsHas | libs/librepcbprojecteditor/cmd/cmdcombinenetsignals.cpp:112-117 | each via is edited to the resulting net signal and added back |
| CombineNetSignalsCmd.ViaReAddsPaired | libs/librepcbprojecteditor/cmd/cmdcombinenetsignals.cpp:112-117 | each via is added back right after its edit |
| CombineNetSignalsCmd.AppendViaReAdds | libs/librepcbprojecteditor/cmd/cmdcombinenetsignals.cpp:112-117 | the loop appends the edit/add pairs |
| CombineNetSignalsCmd.PointReAddsHas | libs/librepcbprojecteditor/cmd/cmdcombinenetsignals.cpp:120-125 | each board point is edited to the resulting net signal and added back |
| CombineNetSignalsCmd.PointReAddsPaired | libs/librepcbprojecteditor/cmd/cmdcombinenetsignals.cpp:120-125 | each board point is added back right after its edit |
| CombineNetSignalsCmd.AppendPointReAdds | libs/librepcbprojecteditor/cmd/cmdcombinenetsignals.cpp:120-125 | the loop appends the edit/add pairs |
| CombineNetSignalsCmd.SegmentReAddsHas | libs/librepcbprojecteditor/cmd/cmdcombinenetsignals.cpp:133-138 | each schematic segment is edited to the resulting net signal and added back |
| CombineNetSignalsCmd.SegmentReAddsPaired | libs/librepcbprojecteditor/cmd/cmdcombinenetsignals.cpp:133-138 | each segment is added back right after its edit |
| CombineNetSignalsCmd.AppendSegmentReAdds | libs/librepcbprojecteditor/cmd/cmdcombinenetsignals.cpp:133-138 | the loop appends the edit/add pairs |
| CombineNetSignalsCmd.EditsBeforeAddsMeans | libs/librepcbprojecteditor/cmd/cmdcombinenetsignals.cpp:112-138 | the pairing means: every re-addition directly follows the edit of the same item |
| CombineNetSignalsCmd.Execute | libs/librepcbprojecteditor/cmd/cmdcombinenetsignals.cpp:70-145 | performExecute yields exactly the ten loops of children, in order, and returns true |
| CombineNetSignalsCmd.CombineLogPhases | libs/librepcbprojecteditor/cmd/cmdcombinenetsignals.cpp:86-141 | the stages run in order: all removals, then the component signal moves, then the re-additions of vias, board points, board lines and segments, and the net signal removal last of all |
| CombineNetSignalsCmd.CombineLogHas | libs/librepcbprojecteditor/cmd/cmdcombinenetsignals.cpp:86-141 | the log holds exactly the children of its stages |
| CombineNetSignalsCmd.CombineLogReAdds | libs/librepcbprojecteditor/cmd/cmdcombinenetsignals.cpp:76-141 | everything taken away is put back and nothing else: the removed net signal's segments, vias, board points and the lines at those points; each of its component signals is moved to the resulting net signal |
| CombineNetSignalsCmd.CombineLogEditsBeforeAdds | libs/librepcbprojecteditor/cmd/cmdcombinenetsignals.cpp:112-138 | each via, board point and segment is put back immediately after it was given the resulting net signal |
| CombineAllCmd.PointSegmentsHas | libs/librepcbprojecteditor/cmd/cmdcombineallnetsignalsunderschematicnetpoint.cpp:89-96 | the segments seen through the points are exactly the points' segments |
| CombineAllCmd.LineSegmentsHas | libs/librepcbprojecteditor/cmd/cmdcombineallnetsignalsunderschematicnetpoint.cpp:97-104 | the segments seen through the lines are exactly the lines' segments |
| CombineAllCmd.PointSignalsHas | libs/librepcbprojecteditor/cmd/cmdcombineallnetsignalsunderschematicnetpoint.cpp:89-96 | the net signals seen through the points are exactly their segments' net signals |
| CombineAllCmd.LineSignalsHas | libs/librepcbprojecteditor/cmd/cmdcombineallnetsignalsunderschematicnetpoint.cpp:97-104 | the same through the lines |
| CombineAllCmd.PinSignal | libs/librepcbprojecteditor/cmd/cmdcombineallnetsignalsunderschematicnetpoint.cpp:106-110 | a pin contributes a net signal exactly when its component signal has one |
| CombineAllCmd.PinSignalsHas | libs/librepcbprojecteditor/cmd/cmdcombineallnetsignalsunderschematicnetpoint.cpp:105-110 | the net signals seen through the pins are exactly those of their component signals |
| CombineAllCmd.PinForcedName | libs/librepcbprojecteditor/cmd/cmdcombineallnetsignalsunderschematicnetpoint.cpp:111-115 | a pin contributes a forced name exactly when its component signal forces one |
| CombineAllCmd.PinForcedNamesHas | libs/librepcbprojecteditor/cmd/cmdcombineallnetsignalsunderschematicnetpoint.cpp:105-116 | the forced names seen through the pins are exactly those their component signals force |
| CombineAllCmd.SignalForcedName | libs/librepcbprojecteditor/cmd/cmdcombineallnetsignalsunderschematicnetpoint.cpp:118-120 | a net signal contributes its name exactly when the name is forced |
| CombineAllCmd.SignalForcedNamesHas | libs/librepcbprojecteditor/cmd/cmdcombineallnetsignalsunderschematicnetpoint.cpp:117-121 | the forced names of the collected net signals are exactly the forced ones among them |
| CombineAllCmd.GatherHas | libs/librepcbprojecteditor/cmd/cmdcombineallnetsignalsunderschematicnetpoint.cpp:86-121 | the collected segments, net signals and forced names have no repeats and hold exactly the segments of the points and lines, the net signals of those and of the pins' component signals, and the forced names of those component signals and net signals |
| CombineAllCmd.SegmentsCollected | libs/librepcbprojecteditor/cmd/cmdcombineallnetsignalsunderschematicnetpoint.cpp:89-104 | the segments collected are repeat-free and exactly those of the points and lines |
| CombineAllCmd.SignalsCollected | libs/librepcbprojecteditor/cmd/cmdcombineallnetsignalsunderschematicnetpoint.cpp:89-110 | the net signals collected are repeat-free and exactly those of the points, lines and pins |
| CombineAllCmd.ForcedCollected | libs/librepcbprojecteditor/cmd/cmdcombineallnetsignalsunderschematicnetpoint.cpp:105-121 | the forced names collected are repeat-free and exactly those of the pins and collected net signals |
| CombineAllCmd.GatherPointSegments | libs/librepcbprojecteditor/cmd/cmdcombineallnetsignalsunderschematicnetpoint.cpp:89-96 | the point loop equals collecting the segments and their net signals separately |
| CombineAllCmd.GatherLineSegments | libs/librepcbprojecteditor/cmd/cmdcombineallnetsignalsunderschematicnetpoint.cpp:97-104 | the line loop, likewise |
| CombineAllCmd.GatherPins | libs/librepcbprojecteditor/cmd/cmdcombineallnetsignalsunderschematicnetpoint.cpp:105-116 | the pin loop collects the pins' net signals and forced names |
| CombineAllCmd.GatherForcedNames | libs/librepcbprojecteditor/cmd/cmdcombineallnetsignalsunderschematicnetpoint.cpp:117-121 | the loop over the net signals collects their forced names |
| CombineAllCmd.CollectSegments | libs/librepcbprojecteditor/cmd/cmdcombineallnetsignalsunderschematicnetpoint.cpp:89-104 | the point and line loops together |
| CombineAllCmd.Collect | libs/librepcbprojecteditor/cmd/cmdcombineallnetsignalsunderschematicnetpoint.cpp:81-121 | the whole collection part |
| CombineAllCmd.ResultName | libs/librepcbprojecteditor/cmd/cmdcombineallnetsignalsunderschematicnetpoint.cpp:124-133 | a runtime error exactly when more than one name is forced; with none, the name of the point's net signal; with one, that name |
| CombineAllCmd.ResultSignalNamed | libs/librepcbprojecteditor/cmd/cmdcombineallnetsignalsunderschematicnetpoint.cpp:136-143 | the resulting net signal carries the resolved name: an existing net signal of that name is used without renaming, or else the point's net signal is renamed to it, not forced |
| CombineAllCmd.SignalMergesHas | libs/librepcbprojecteditor/cmd/cmdcombineallnetsignalsunderschematicnetpoint.cpp:148-154 | every collected net signal other than the result is merged into it, and nothing else |
| CombineAllCmd.PointMergesHas | libs/librepcbprojecteditor/cmd/cmdcombineallnetsignalsunderschematicnetpoint.cpp:158-163 | every other point at the position is merged into the point, and nothing else |
| CombineAllCmd.AppendSignalMerges | libs/librepcbprojecteditor/cmd/cmdcombineallnetsignalsunderschematicnetpoint.cpp:148-154 | the loop appends exactly those merges |
| CombineAllCmd.AppendPointMerges | libs/librepcbprojecteditor/cmd/cmdcombineallnetsignalsunderschematicnetpoint.cpp:158-163 | the loop appends exactly those merges |
| CombineAllCmd.AppendMerged | libs/librepcbprojecteditor/cmd/cmdcombineallnetsignalsunderschematicnetpoint.cpp:136-163 | the rename if needed and the two merge loops |
| CombineAllCmd.AttachOrder | libs/librepcbprojecteditor/cmd/cmdcombineallnetsignalsunderschematicnetpoint.cpp:166-191 | attaching the single pin: its component signal is moved to the result exactly when, once the merges have run, it is on no net signal or on one that was neither merged nor the result; the move comes first; all the point's lines are taken off before the pin is set and put back after it, in the same order |
| CombineAllCmd.PinMoveOnlyWhenUnassigned | libs/librepcbprojecteditor/cmd/cmdcombineallnetsignalsunderschematicnetpoint.cpp:168-175 | when the pin's net signal is its component signal's (so that signal was collected and merged), the move happens exactly when the component signal had no net signal |
| CombineAllCmd.AppendLinesDetach | libs/librepcbprojecteditor/cmd/cmdcombineallnetsignalsunderschematicnetpoint.cpp:177-182 | the loop appends one removal per line at the point |
| CombineAllCmd.AppendLinesReattach | libs/librepcbprojecteditor/cmd/cmdcombineallnetsignalsunderschematicnetpoint.cpp:186-190 | the loop appends one re-addition per line |
| CombineAllCmd.Attach | libs/librepcbprojecteditor/cmd/cmdcombineallnetsignalsunderschematicnetpoint.cpp:166-200 | the pin stage: the move (judged after the merges), the line removals, the pin edit and the re-additions, in that order; a runtime error for several pins or for one pin when the point is on another pin |
| CombineAllCmd.SplitContents | libs/librepcbprojecteditor/cmd/cmdcombineallnetsignalsunderschematicnetpoint.cpp:204-218 | exactly the lines through the position that do not end at the point are removed |
| CombineAllCmd.SplitAt | libs/librepcbprojecteditor/cmd/cmdcombineallnetsignalsunderschematicnetpoint.cpp:205-217 | such a line is replaced by its two halves through the point, added right before the line is removed |
| CombineAllCmd.SplitsHas | libs/librepcbprojecteditor/cmd/cmdcombineallnetsignalsunderschematicnetpoint.cpp:205-218 | the split children are exactly those of the single lines |
| CombineAllCmd.AppendSplits | libs/librepcbprojecteditor/cmd/cmdcombineallnetsignalsunderschematicnetpoint.cpp:204-218 | the loop appends exactly the splits |
| CombineAllCmd.CombineAllResult | libs/librepcbprojecteditor/cmd/cmdcombineallnetsignalsunderschematicnetpoint.cpp:220-226 | the command returns true exactly when it ran children, and then the clean-up of unused net signals is last; an error is a runtime error, with no clean-up and false |
| CombineAllCmd.CombineAllErrors | libs/librepcbprojecteditor/cmd/cmdcombineallnetsignalsunderschematicnetpoint.cpp:124-200 | several forced names throw before any child; several pins, or one pin while the point sits on another, throw after the merges; nothing else throws |
| CombineAllCmd.CombineAllMerges | libs/librepcbprojecteditor/cmd/cmdcombineallnetsignalsunderschematicnetpoint.cpp:147-163 | once the name is resolved, every collected net signal other than the result is merged into it and every other point at the position into the point; no other merges happen |
| CombineAllCmd.MergesOnlyThere | libs/librepcbprojecteditor/cmd/cmdcombineallnetsignalsunderschematicnetpoint.cpp:136-218 | no merge comes from the rename, the pin stage or the splits |
| CombineAllCmd.ResolvedMerges | libs/librepcbprojecteditor/cmd/cmdcombineallnetsignalsunderschematicnetpoint.cpp:136-226 | which merge children the composite holds after the name is resolved |
| CombineAllCmd.ResolvedMembers | libs/librepcbprojecteditor/cmd/cmdcombineallnetsignalsunderschematicnetpoint.cpp:136-226 | the children after the name is resolved are exactly those of its stages |
| CombineAllCmd.ExecuteResolved | libs/librepcbprojecteditor/cmd/cmdcombineallnetsignalsunderschematicnetpoint.cpp:136-226 | performExecute from the name resolution on yields exactly the resolved plan, with the pin stage judging the component signal after the merges |
| CombineAllCmd.Execute | libs/librepcbprojecteditor/cmd/cmdcombineallnetsignalsunderschematicnetpoint.cpp:70-227 | performExecute yields exactly the composite plan |

## Left out

- Graphics and rendering are not modelled: graphics items, painting, grab areas, `updateIcon`, `setSelected`, `setSelectionRect`, `clearSelection`, `showInView` and `renderToQPainter`. They do not affect connectivity.
- Qt signal/slot connections and ERC message objects are not modelled. The dead-point flag of a net point is a plain boolean, and its message text is left out.
- The hit tests have no geometry. Which items lie at a position is an input, and `Schematic.GetItemsAtScenePos` models only how the results are ordered. `getNetPointsAtScenePos` and the other per-kind queries appear only as inputs of the commands that call them.
- File handling is not modelled: `SmartXmlFile`, `save`, XML document parsing, and serialization of whole pages. Only the attributes of one net point or net label element are modelled, together with their round trip.
- `getAttributeValue` and the page's name and icon accessors are not modelled. They only format text.
- `Point::rotated`, `Point::mapToGrid` and `Angle` are trigonometry and grid arithmetic. The model takes them as parameters (`rotated`, `snap`), so properties depending on what they compute are not stated.
- Fresh random UUIDs (`Uuid::createRandom`) are parameters of the constructors that use them.
- Several commands run as children of the composites but are not defined in the sources modelled here, so each appears as a named child without an implementation:
  - the board-side commands for lines, points and vias;
  - the circuit commands that add, rename or remove a net signal, set a component signal's net signal, or remove unused net signals;
  - the commands that remove a symbol instance, remove a device from a board, or edit a net point.
- Whether a child command fails is the free parameter `childError` of `Children.Run`; only the errors the composites throw themselves are computed.
- `Children.Run` models the generic undo group. It is a specification of the rollback order, not a verified model of the group's internals.
- `SI_Symbol`, `SI_SymbolPin` and the implementation of `SI_NetSegment` are not part of this model. In particular, a pin's registration of the net point attached to it is not modelled. Neither is the registration of a line at its end points when the segment adds it. Segment membership follows the header's add/remove contracts, and the lines registered at a point are a field the point's own methods change.
- The split of a segment builds a remove-elements command whose execution the source has commented out (`cmdremoveselectedschematicitems.cpp:193`). That command never runs, so it is not in the log; only the removal of the whole segment is.
- The unreachable branch that throws a heap-allocated logic error (`cmdremoveselectedschematicitems.cpp:133`) is modelled as an ordinary logic error.
- The net point a symbol pin holds is read from the circuit's pin registration before the command starts (`Children.Circuit.pinNetPoint`). `RemoveSelectedSteps.HeldAfter` derives what the pin holds when its symbol goes: the original point, nothing if that point's segment went, or the copy a split made of it. The pin's own update of that registration is not modelled.
- The sets a command builds by insertion are iterated in first-insertion order. The source iterates them in hash order, which is unspecified. So the order of the children that depend on them (board line removals in `CombineNetSignalsCmd`, the component signals detached before a split) is one possible order, not the source's.
- RemoveSelectedSteps.DisconnectAllFacts: the board items that a composite run as a child removes, such as the nested `ChangeSegmentToAddedSignal`, do not appear in the log the removal reads. The same holds for BoardDetach.AppendDisconnectAfter, RemoveSelectedSteps.WholeRemovalOnce, RemoveSelectedSteps.SplitUpOnce, RemoveSelectedCmd.StageRemovesOnce and RemoveSelectedCmd.PlanRemovesOnce: they show only that no listed board removal repeats an earlier listed one. That child stays one named entry of the log, so a later step does not see the board items it removes and could plan to remove one of them again.
- Items.NetPoint.FromAttributes: requires valid attributes, whereas the source's `init` throws a logic error on invalid ones (`si_netpoint.cpp:102`). That error path is modelled by `Items.SerializeNetPoint`'s validity check and by `SegmentElementsCmds.CmdNetSegmentAddElements.AddNetPointOnPin`.
- Items.NetPoint.AtPosition: requires a non-null UUID. The source draws a random UUID there, which is never null.
- Items.NetPoint.OnPin: requires a non-null UUID and a pin on the segment's net signal. The source throws a logic error otherwise, and that error is modelled by `SegmentElementsCmds.CmdNetSegmentAddElements.AddNetPointOnPin`.
- Items.NetLabel.FromAttributes: requires a non-null UUID instead of throwing the logic error of `checkAttributesValidity`. The check itself is modelled by `Items.ParseNetLabel` and `Items.SerializeNetLabel`.
- Items.NetLabel.AtPosition: requires a non-null UUID. The source draws a random one.
- Items.ParseNetPoint: covers only the runtime errors of reading the element. The validity check that follows in `init` belongs to `Items.NetPoint.FromAttributes`.
- Schematics.Schematic.constructor: requires a non-null UUID and a non-empty name. The logic error the source throws otherwise is modelled by `Schematics.Schematic.Load`.
- Schematics.Schematic.Load: takes the symbols and segments already read from the file. Reading them is file parsing and is left out.
- CombineAllCmd.Execute: requires `Runnable`. That excludes the case of a single pin, under an unattached point, whose component signal is null; the source dereferences that null pointer (`cmdcombineallnetsignalsunderschematicnetpoint.cpp:171-172`). The same holds for CombineAllCmd.ExecuteResolved, CombineAllCmd.Attach and the lemmas about the command's plan.
- RemoveSelectedCmd.Execute: requires a consistent selection, meaning every affected segment is well formed and every selected net point has all of its lines selected. The selection query is not part of this model.
- RotateCmd.Execute: takes the output of the selection query as inputs, not the query itself.
- ChangeNetSignalCmd.Execute: takes the source's enumeration of the segment's points as an input sequence without duplicates. The same holds for CombineNetPointsCmd.Execute and the segment's points, lines and labels.
- Connectivity.FindAllConnected: requires that lines are registered exactly at their end points for the points and lines still available. This is the segment invariant that `SI_NetSegment` maintains; the same holds for Connectivity.SubSegments.
- RotateCmd.SumPositions: sums positions as unbounded integers. The source adds 64-bit coordinates before dividing, and that sum could overflow; with real drawing coordinates it does not, so the wrap-around is not modelled.
