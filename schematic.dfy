/**
 * A schematic page: its placed symbols and net segments (kept as lists, in
 * the order they were added), and whether the page is part of the project.
 * Only while the page is part of the project can items be added or removed;
 * UUIDs are unique per kind of item.
 */
module Schematics {
  import opened Base
  import opened Items

  /** What a hit test at one position can return. */
  datatype SchematicItem =
    | PointItem(point: NetPoint)
    | LineItem(line: NetLine)
    | LabelItem(netLabel: NetLabel)
    | PinItem(pin: SymbolPin)
    | SymbolItem(symbol: Symbol)

  /**
   * Stacking layer of a hit: visible net points (0) are on top of hidden ones
   * (1), then net lines (2), net labels (3), then symbols with their pins (4).
   */
  function Layer(it: SchematicItem): (n: nat)
    reads if it.PointItem? then {it.point} else {}
    ensures n <= 4
    ensures it.PointItem? ==> (n == 0 <==> it.point.IsVisible()) && n <= 1
  {
    match it
    case PointItem(p) => if p.IsVisible() then 0 else 1
    case LineItem(_) => 2
    case LabelItem(_) => 3
    case PinItem(_) => 4
    case SymbolItem(_) => 4
  }

  /** The points of `points` whose visibility is `visible`, in order. */
  function PointsOfVisibility(points: seq<NetPoint>, visible: bool): (r: seq<SchematicItem>)
    reads points
    ensures |r| <= |points|
  {
    if points == [] then []
    else (if points[0].IsVisible() == visible then [PointItem(points[0])] else [])
         + PointsOfVisibility(points[1..], visible)
  }

  function LineItems(lines: seq<NetLine>): (r: seq<SchematicItem>)
    ensures |r| == |lines| && forall i :: 0 <= i < |r| ==> r[i] == LineItem(lines[i])
  {
    if lines == [] then [] else [LineItem(lines[0])] + LineItems(lines[1..])
  }

  function LabelItems(labels: seq<NetLabel>): (r: seq<SchematicItem>)
    ensures |r| == |labels| && forall i :: 0 <= i < |r| ==> r[i] == LabelItem(labels[i])
  {
    if labels == [] then [] else [LabelItem(labels[0])] + LabelItems(labels[1..])
  }

  /** For each symbol in page order: its hit pins, then the symbol itself if hit. */
  function SymbolHits(symbols: seq<Symbol>, pinHit: SymbolPin -> bool, symbolHit: Symbol -> bool): (r: seq<SchematicItem>)
    ensures forall it :: it in r ==> it.PinItem? || it.SymbolItem?
  {
    if symbols == [] then []
    else PinHits(symbols[0].pins, pinHit)
         + (if symbolHit(symbols[0]) then [SymbolItem(symbols[0])] else [])
         + SymbolHits(symbols[1..], pinHit, symbolHit)
  }

  function PinHits(pins: seq<SymbolPin>, pinHit: SymbolPin -> bool): (r: seq<SchematicItem>)
    ensures forall it :: it in r ==> it.PinItem? && it.pin in pins && pinHit(it.pin)
    ensures forall p :: p in pins && pinHit(p) ==> PinItem(p) in r
  {
    if pins == [] then []
    else (if pinHit(pins[0]) then [PinItem(pins[0])] else []) + PinHits(pins[1..], pinHit)
  }

  /** First net segment of the list with the given UUID (getNetSegmentByUuid). */
  function FirstSegmentWithUuid(segments: seq<NetSegment>, u: Uuid): (r: Option<NetSegment>)
    ensures r.None? <==> forall g :: g in segments ==> g.uuid != u
    ensures r.Some? ==> exists i :: 0 <= i < |segments| && segments[i] == r.value && r.value.uuid == u
                          && forall j :: 0 <= j < i ==> segments[j].uuid != u
  {
    if segments == [] then None
    else if segments[0].uuid == u then Some(segments[0])
    else
      var r := FirstSegmentWithUuid(segments[1..], u);
      if r.Some? then
        ghost var i :| 0 <= i < |segments[1..]| && segments[1..][i] == r.value && r.value.uuid == u
                      && forall j :: 0 <= j < i ==> segments[1..][j].uuid != u;
        assert segments[i + 1] == r.value && forall j :: 1 <= j < i + 1 ==> segments[j] == segments[1..][j - 1];
        r
      else r
  }

  predicate UniqueSymbolUuids(symbols: seq<Symbol>)
  {
    forall i, j :: 0 <= i < j < |symbols| ==> symbols[i].uuid != symbols[j].uuid
  }

  predicate UniqueSegmentUuids(segments: seq<NetSegment>)
  {
    forall i, j :: 0 <= i < j < |segments| ==> segments[i].uuid != segments[j].uuid
  }

  class Schematic {
    const uuid: Uuid
    const name: string
    const sheet: SheetId
    var isAddedToProject: bool
    var symbols: seq<Symbol>
    var netSegments: seq<NetSegment>

    /**
     * The page's invariant: UUIDs are unique per kind, every item was created
     * for this page, and an item is registered exactly while the page is part
     * of the project.
     */
    ghost predicate Valid()
      reads this, symbols, netSegments
    {
      UniqueSymbolUuids(symbols) && UniqueSegmentUuids(netSegments)
      && (forall s :: s in symbols ==> s.sheet == sheet && s.isAdded == isAddedToProject)
      && (forall g :: g in netSegments ==> g.sheet == sheet && g.isAdded == isAddedToProject)
    }

    /** checkAttributesValidity of a page: a UUID and a name. */
    static predicate AttributesValid(uuid: Uuid, name: string)
    {
      !IsNull(uuid) && name != ""
    }

    constructor (uuid: Uuid, name: string, sheet: SheetId)
      requires AttributesValid(uuid, name)
      ensures this.uuid == uuid && this.name == name && this.sheet == sheet
      ensures symbols == [] && netSegments == [] && !isAddedToProject && Valid()
    {
      this.uuid := uuid;
      this.name := name;
      this.sheet := sheet;
      isAddedToProject := false;
      symbols := [];
      netSegments := [];
    }

    /**
     * Opening a page from its file: the symbols and segments read from it are
     * appended one by one; a UUID met a second time is a file error, and a
     * null UUID or an empty name is a logic error.
     */
    static method Load(uuid: Uuid, name: string, sheet: SheetId, fileSymbols: seq<Symbol>, fileSegments: seq<NetSegment>)
      returns (r: Result<Schematic>)
      requires forall s :: s in fileSymbols ==> s.sheet == sheet && !s.isAdded
      requires forall g :: g in fileSegments ==> g.sheet == sheet && !g.isAdded
      ensures r.Ok? <==> UniqueSymbolUuids(fileSymbols) && UniqueSegmentUuids(fileSegments) && AttributesValid(uuid, name)
      ensures r.Err? ==> r.error == (if UniqueSymbolUuids(fileSymbols) && UniqueSegmentUuids(fileSegments) then LogicError else RuntimeError)
      ensures r.Ok? ==> fresh(r.value) && r.value.Valid() && r.value.uuid == uuid && r.value.name == name
                        && r.value.symbols == fileSymbols && r.value.netSegments == fileSegments && !r.value.isAddedToProject
    {
      var symbols: seq<Symbol> := [];
      var i := 0;
      while i < |fileSymbols|
        invariant 0 <= i <= |fileSymbols| && symbols == fileSymbols[..i]
        invariant UniqueSymbolUuids(symbols)
      {
        var s := fileSymbols[i];
        if FirstSymbolWithUuid(symbols, s.uuid).Some? {
          assert !UniqueSymbolUuids(fileSymbols) by {
            var k :| 0 <= k < i && symbols[k].uuid == s.uuid;
            assert fileSymbols[k].uuid == fileSymbols[i].uuid;
          }
          return Err(RuntimeError);
        }
        symbols := symbols + [s];
        i := i + 1;
      }
      assert symbols == fileSymbols;
      var segments: seq<NetSegment> := [];
      i := 0;
      while i < |fileSegments|
        invariant 0 <= i <= |fileSegments| && segments == fileSegments[..i]
        invariant UniqueSegmentUuids(segments)
      {
        var g := fileSegments[i];
        if FirstSegmentWithUuid(segments, g.uuid).Some? {
          assert !UniqueSegmentUuids(fileSegments) by {
            var k :| 0 <= k < i && segments[k].uuid == g.uuid;
            assert fileSegments[k].uuid == fileSegments[i].uuid;
          }
          return Err(RuntimeError);
        }
        segments := segments + [g];
        i := i + 1;
      }
      assert segments == fileSegments;
      if !AttributesValid(uuid, name) {
        return Err(LogicError);
      }
      var page := new Schematic(uuid, name, sheet);
      page.symbols := symbols;
      page.netSegments := segments;
      r := Ok(page);
    }

    predicate IsEmpty()
      reads this
      ensures IsEmpty() <==> symbols == [] && netSegments == []
    {
      |symbols| == 0 && |netSegments| == 0
    }

    /** The first symbol with the given UUID. */
    method GetSymbolByUuid(u: Uuid) returns (r: Option<Symbol>)
      ensures r == FirstSymbolWithUuid(symbols, u)
    {
      var i := 0;
      while i < |symbols|
        invariant 0 <= i <= |symbols|
        invariant FirstSymbolWithUuid(symbols, u) == FirstSymbolWithUuid(symbols[i..], u)
      {
        if symbols[i].uuid == u {
          return Some(symbols[i]);
        }
        assert symbols[i..][1..] == symbols[i + 1..];
        i := i + 1;
      }
      r := None;
    }

    /** The first net segment with the given UUID. */
    method GetNetSegmentByUuid(u: Uuid) returns (r: Option<NetSegment>)
      ensures r == FirstSegmentWithUuid(netSegments, u)
    {
      var i := 0;
      while i < |netSegments|
        invariant 0 <= i <= |netSegments|
        invariant FirstSegmentWithUuid(netSegments, u) == FirstSegmentWithUuid(netSegments[i..], u)
      {
        if netSegments[i].uuid == u {
          return Some(netSegments[i]);
        }
        assert netSegments[i..][1..] == netSegments[i + 1..];
        i := i + 1;
      }
      r := None;
    }

    /**
     * Everything under one position, top-most first. The hits of the net
     * segments (`pointsAtPos`, `linesAtPos`, `labelsAtPos`) and the pin and
     * symbol grab areas are given.
     */
    method GetItemsAtScenePos(pointsAtPos: seq<NetPoint>, linesAtPos: seq<NetLine>, labelsAtPos: seq<NetLabel>,
                              pinHit: SymbolPin -> bool, symbolHit: Symbol -> bool)
      returns (items: seq<SchematicItem>)
      ensures items == PointsOfVisibility(pointsAtPos, true) + PointsOfVisibility(pointsAtPos, false)
                       + LineItems(linesAtPos) + LabelItems(labelsAtPos) + SymbolHits(symbols, pinHit, symbolHit)
      ensures forall i, j :: 0 <= i < j < |items| ==> Layer(items[i]) <= Layer(items[j])
    {
      items := AppendPointsOfVisibility([], pointsAtPos, true);
      assert items == PointsOfVisibility(pointsAtPos, true);
      items := AppendPointsOfVisibility(items, pointsAtPos, false);
      items := AppendLineItems(items, linesAtPos);
      items := AppendLabelItems(items, labelsAtPos);
      items := AppendSymbolHits(items, symbols, pinHit, symbolHit);
      LayersOrdered(pointsAtPos, linesAtPos, labelsAtPos, SymbolHits(symbols, pinHit, symbolHit), items);
    }

    /**
     * Adding a symbol: the page must be part of the project, the symbol new to
     * it and created for it (else a logic error); its UUID must not be taken
     * (else a runtime error). The symbol is registered, then appended.
     */
    method AddSymbol(symbol: Symbol) returns (s: Status)
      requires Valid()
      modifies this, symbol
      ensures Valid()
      ensures s == if !old(isAddedToProject) || symbol in old(symbols) || symbol.sheet != sheet then Failure(LogicError)
                   else if FirstSymbolWithUuid(old(symbols), symbol.uuid).Some? then Failure(RuntimeError)
                   else if old(symbol.isAdded) then Failure(LogicError)
                   else Success
      ensures symbols == if s.Success? then old(symbols) + [symbol] else old(symbols)
      ensures netSegments == old(netSegments) && isAddedToProject == old(isAddedToProject)
    {
      if !isAddedToProject || symbol in symbols || symbol.sheet != sheet {
        return Failure(LogicError);
      }
      if FirstSymbolWithUuid(symbols, symbol.uuid).Some? {
        return Failure(RuntimeError);
      }
      s := symbol.AddToSchematic();
      if s.Failure? {
        return;
      }
      symbols := symbols + [symbol];
    }

    /** Removing a symbol: the page must be part of the project and hold it. */
    method RemoveSymbol(symbol: Symbol) returns (s: Status)
      requires Valid()
      modifies this, symbol
      ensures Valid()
      ensures s == if !old(isAddedToProject) || symbol !in old(symbols) then Failure(LogicError) else Success
      ensures symbols == if s.Success? then RemoveFirst(old(symbols), symbol) else old(symbols)
      ensures s.Success? ==> !symbol.isAdded && symbol !in symbols
      ensures netSegments == old(netSegments) && isAddedToProject == old(isAddedToProject)
    {
      if !isAddedToProject || symbol !in symbols {
        return Failure(LogicError);
      }
      s := symbol.RemoveFromSchematic();
      UniqueUuidsDistinct(symbols);
      RemoveFirstDistinct(symbols, symbol);
      RemoveFirstKeepsUniqueSymbols(symbols, symbol);
      symbols := RemoveFirst(symbols, symbol);
    }

    /**
     * Adding a net segment: the page must be part of the project, the segment
     * new to it and created for it (else a logic error); its UUID must not be
     * taken (else a runtime error). It is registered, then appended.
     */
    method AddNetSegment(segment: NetSegment) returns (s: Status)
      requires Valid()
      modifies this, segment
      ensures Valid()
      ensures s == if !old(isAddedToProject) || segment in old(netSegments) || segment.sheet != sheet then Failure(LogicError)
                   else if FirstSegmentWithUuid(old(netSegments), segment.uuid).Some? then Failure(RuntimeError)
                   else if old(segment.isAdded) then Failure(LogicError)
                   else Success
      ensures netSegments == if s.Success? then old(netSegments) + [segment] else old(netSegments)
      ensures symbols == old(symbols) && isAddedToProject == old(isAddedToProject)
      ensures segment.netSignal == old(segment.netSignal) && segment.netPoints == old(segment.netPoints)
      ensures segment.netLines == old(segment.netLines) && segment.netLabels == old(segment.netLabels)
    {
      if !isAddedToProject || segment in netSegments || segment.sheet != sheet {
        return Failure(LogicError);
      }
      if FirstSegmentWithUuid(netSegments, segment.uuid).Some? {
        return Failure(RuntimeError);
      }
      s := segment.AddToSchematic();
      if s.Failure? {
        return;
      }
      netSegments := netSegments + [segment];
    }

    /** Removing a net segment: the page must be part of the project and hold it. */
    method RemoveNetSegment(segment: NetSegment) returns (s: Status)
      requires Valid()
      modifies this, segment
      ensures Valid()
      ensures s == if !old(isAddedToProject) || segment !in old(netSegments) then Failure(LogicError) else Success
      ensures netSegments == if s.Success? then RemoveFirst(old(netSegments), segment) else old(netSegments)
      ensures s.Success? ==> !segment.isAdded && segment !in netSegments
      ensures symbols == old(symbols) && isAddedToProject == old(isAddedToProject)
      ensures segment.netSignal == old(segment.netSignal) && segment.netPoints == old(segment.netPoints)
      ensures segment.netLines == old(segment.netLines) && segment.netLabels == old(segment.netLabels)
    {
      if !isAddedToProject || segment !in netSegments {
        return Failure(LogicError);
      }
      s := segment.RemoveFromSchematic();
      UniqueSegmentUuidsDistinct(netSegments);
      RemoveFirstDistinct(netSegments, segment);
      RemoveFirstKeepsUniqueSegments(netSegments, segment);
      netSegments := RemoveFirst(netSegments, segment);
    }

    /**
     * Putting the page into the project registers every symbol, then every
     * segment. If one registration fails, those already made are undone in
     * reverse order and nothing has changed.
     */
    method AddToProject() returns (s: Status)
      modifies this, symbols, netSegments
      ensures s.Success? <==> !old(isAddedToProject) && Distinct(symbols) && Distinct(netSegments)
                              && (forall x :: x in old(symbols) ==> !old(x.isAdded))
                              && (forall g :: g in old(netSegments) ==> !old(g.isAdded))
      ensures s.Failure? ==> s.error == LogicError && isAddedToProject == old(isAddedToProject)
                             && (forall x :: x in old(symbols) ==> x.isAdded == old(x.isAdded))
                             && (forall g :: g in old(netSegments) ==> g.isAdded == old(g.isAdded))
      ensures s.Success? ==> isAddedToProject && (forall x :: x in symbols ==> x.isAdded)
                             && (forall g :: g in netSegments ==> g.isAdded)
      ensures old(Valid()) && !old(isAddedToProject) ==> s.Success? && Valid()
      ensures symbols == old(symbols) && netSegments == old(netSegments)
    {
      if isAddedToProject {
        return Failure(LogicError);
      }
      if Valid() {
        UniqueUuidsDistinct(symbols);
        UniqueSegmentUuidsDistinct(netSegments);
      }
      s := SetSymbolsAdded(true);
      if s.Failure? {
        return;
      }
      s := SetSegmentsAdded(true);
      if s.Failure? {
        RollBackSymbols(|symbols|, false);
        assert symbols[..|symbols|] == symbols;
        return;
      }
      isAddedToProject := true;
    }

    /**
     * Removing the page from the project: a logic error unless it is part of
     * it. Net segments are unregistered first, then symbols; if one of them
     * refuses, the ones already unregistered are registered again.
     */
    method RemoveFromProject() returns (s: Status)
      modifies this, symbols, netSegments
      ensures s.Success? <==> old(isAddedToProject) && Distinct(symbols) && Distinct(netSegments)
                              && (forall x :: x in old(symbols) ==> old(x.isAdded))
                              && (forall g :: g in old(netSegments) ==> old(g.isAdded))
      ensures s.Failure? ==> s.error == LogicError && isAddedToProject == old(isAddedToProject)
                             && (forall x :: x in old(symbols) ==> x.isAdded == old(x.isAdded))
                             && (forall g :: g in old(netSegments) ==> g.isAdded == old(g.isAdded))
      ensures s.Success? ==> !isAddedToProject && (forall x :: x in symbols ==> !x.isAdded)
                             && (forall g :: g in netSegments ==> !g.isAdded)
      ensures old(Valid()) && old(isAddedToProject) ==> s.Success? && Valid()
      ensures symbols == old(symbols) && netSegments == old(netSegments)
    {
      if !isAddedToProject {
        return Failure(LogicError);
      }
      if Valid() {
        UniqueUuidsDistinct(symbols);
        UniqueSegmentUuidsDistinct(netSegments);
      }
      s := SetSegmentsAdded(false);
      if s.Failure? {
        return;
      }
      s := SetSymbolsAdded(false);
      if s.Failure? {
        RollBackSegments(|netSegments|, true);
        assert netSegments[..|netSegments|] == netSegments;
        return;
      }
      isAddedToProject := false;
    }

    /**
     * Registers (`added`) or unregisters every symbol in list order; if one
     * refuses, those already done are reverted and the error is returned.
     */
    method SetSymbolsAdded(added: bool) returns (s: Status)
      modifies symbols
      ensures s.Success? <==> Distinct(symbols) && forall x :: x in symbols ==> old(x.isAdded) == !added
      ensures s.Success? ==> forall x :: x in symbols ==> x.isAdded == added
      ensures s.Failure? ==> s.error == LogicError && forall x :: x in symbols ==> x.isAdded == old(x.isAdded)
    {
      var i := 0;
      while i < |symbols|
        invariant 0 <= i <= |symbols| && Distinct(symbols[..i])
        invariant forall k :: 0 <= k < i ==> symbols[k].isAdded == added && old(symbols[k].isAdded) == !added
        invariant forall x :: x in symbols && x !in symbols[..i] ==> x.isAdded == old(x.isAdded)
      {
        var st;
        if added {
          st := symbols[i].AddToSchematic();
        } else {
          st := symbols[i].RemoveFromSchematic();
        }
        if st.Failure? {
          assert !Distinct(symbols) || old(symbols[i].isAdded) == added by {
            if old(symbols[i].isAdded) != added {
              var k :| 0 <= k < i && symbols[..i][k] == symbols[i];
            }
          }
          RollBackSymbols(i, !added);
          return st;
        }
        assert symbols[..i + 1] == symbols[..i] + [symbols[i]];
        DistinctSnoc(symbols[..i], symbols[i]);
        i := i + 1;
      }
      assert symbols[..i] == symbols;
      s := Success;
    }

    /** The same pass over the net segments. */
    method SetSegmentsAdded(added: bool) returns (s: Status)
      modifies netSegments
      ensures s.Success? <==> Distinct(netSegments) && forall g :: g in netSegments ==> old(g.isAdded) == !added
      ensures s.Success? ==> forall g :: g in netSegments ==> g.isAdded == added
      ensures s.Failure? ==> s.error == LogicError && forall g :: g in netSegments ==> g.isAdded == old(g.isAdded)
    {
      var i := 0;
      while i < |netSegments|
        invariant 0 <= i <= |netSegments| && Distinct(netSegments[..i])
        invariant forall k :: 0 <= k < i ==> netSegments[k].isAdded == added && old(netSegments[k].isAdded) == !added
        invariant forall g :: g in netSegments && g !in netSegments[..i] ==> g.isAdded == old(g.isAdded)
      {
        var st;
        if added {
          st := netSegments[i].AddToSchematic();
        } else {
          st := netSegments[i].RemoveFromSchematic();
        }
        if st.Failure? {
          assert !Distinct(netSegments) || old(netSegments[i].isAdded) == added by {
            if old(netSegments[i].isAdded) != added {
              var k :| 0 <= k < i && netSegments[..i][k] == netSegments[i];
            }
          }
          RollBackSegments(i, !added);
          return st;
        }
        assert netSegments[..i + 1] == netSegments[..i] + [netSegments[i]];
        DistinctSnoc(netSegments[..i], netSegments[i]);
        i := i + 1;
      }
      assert netSegments[..i] == netSegments;
      s := Success;
    }

    /** Puts the first `n` symbols back into the registration state `added`, last first. */
    method RollBackSymbols(n: nat, added: bool)
      requires n <= |symbols| && Distinct(symbols[..n])
      requires forall k :: 0 <= k < n ==> symbols[k].isAdded == !added
      modifies symbols
      ensures forall k :: 0 <= k < n ==> symbols[k].isAdded == added
      ensures forall x :: x in old(symbols) && x !in symbols[..n] ==> x.isAdded == old(x.isAdded)
    {
      var k := n;
      while k > 0
        invariant 0 <= k <= n
        invariant forall a :: 0 <= a < k ==> symbols[a].isAdded == !added
        invariant forall a :: k <= a < n ==> symbols[a].isAdded == added
        invariant forall x :: x in old(symbols) && x !in symbols[..n] ==> x.isAdded == old(x.isAdded)
      {
        k := k - 1;
        if added {
          var _ := symbols[k].AddToSchematic();
        } else {
          var _ := symbols[k].RemoveFromSchematic();
        }
        forall a | 0 <= a < k ensures symbols[a] != symbols[k] {
          assert symbols[..n][a] == symbols[a] && symbols[..n][k] == symbols[k];
        }
        assert symbols[..n][k] == symbols[k];
      }
    }

    /** Puts the first `n` segments back into the registration state `added`, last first. */
    method RollBackSegments(n: nat, added: bool)
      requires n <= |netSegments| && Distinct(netSegments[..n])
      requires forall k :: 0 <= k < n ==> netSegments[k].isAdded == !added
      modifies netSegments
      ensures forall k :: 0 <= k < n ==> netSegments[k].isAdded == added
      ensures forall g :: g in old(netSegments) && g !in netSegments[..n] ==> g.isAdded == old(g.isAdded)
    {
      var k := n;
      while k > 0
        invariant 0 <= k <= n
        invariant forall a :: 0 <= a < k ==> netSegments[a].isAdded == !added
        invariant forall a :: k <= a < n ==> netSegments[a].isAdded == added
        invariant forall g :: g in old(netSegments) && g !in netSegments[..n] ==> g.isAdded == old(g.isAdded)
      {
        k := k - 1;
        if added {
          var _ := netSegments[k].AddToSchematic();
        } else {
          var _ := netSegments[k].RemoveFromSchematic();
        }
        forall a | 0 <= a < k ensures netSegments[a] != netSegments[k] {
          assert netSegments[..n][a] == netSegments[a] && netSegments[..n][k] == netSegments[k];
        }
        assert netSegments[..n][k] == netSegments[k];
      }
    }
  }

  /** One pass over the net points under the cursor, keeping those of the given visibility. */
  method AppendPointsOfVisibility(items: seq<SchematicItem>, points: seq<NetPoint>, visible: bool) returns (r: seq<SchematicItem>)
    ensures r == items + PointsOfVisibility(points, visible)
  {
    r := items;
    var i := 0;
    while i < |points|
      invariant 0 <= i <= |points|
      invariant r + PointsOfVisibility(points[i..], visible) == items + PointsOfVisibility(points, visible)
    {
      PointsOfVisibilityStep(points, i, visible);
      ConcatAssoc(r, if points[i].IsVisible() == visible then [PointItem(points[i])] else [],
                  PointsOfVisibility(points[i + 1..], visible));
      if points[i].IsVisible() == visible {
        r := r + [PointItem(points[i])];
      }
      i := i + 1;
    }
  }

  /** Exactly the points of the given visibility are listed. */
  lemma {:induction false} PointsOfVisibilityExact(points: seq<NetPoint>, visible: bool)
    ensures forall it :: it in PointsOfVisibility(points, visible) ==>
              it.PointItem? && it.point in points && it.point.IsVisible() == visible
    ensures forall p :: p in points && p.IsVisible() == visible ==> PointItem(p) in PointsOfVisibility(points, visible)
  {
    if points != [] {
      PointsOfVisibilityExact(points[1..], visible);
      forall p | p in points && p.IsVisible() == visible
        ensures PointItem(p) in PointsOfVisibility(points, visible)
      {
        if p != points[0] { assert p in points[1..]; }
      }
    }
  }

  lemma PointsOfVisibilityStep(points: seq<NetPoint>, i: nat, visible: bool)
    requires i < |points|
    ensures PointsOfVisibility(points[i..], visible)
            == (if points[i].IsVisible() == visible then [PointItem(points[i])] else [])
               + PointsOfVisibility(points[i + 1..], visible)
  {
    assert points[i..][1..] == points[i + 1..];
  }

  method AppendLineItems(items: seq<SchematicItem>, lines: seq<NetLine>) returns (r: seq<SchematicItem>)
    ensures r == items + LineItems(lines)
  {
    r := items;
    var i := 0;
    while i < |lines|
      invariant 0 <= i <= |lines|
      invariant r == items + LineItems(lines[..i])
    {
      assert LineItems(lines[..i + 1]) == LineItems(lines[..i]) + [LineItem(lines[i])];
      r := r + [LineItem(lines[i])];
      i := i + 1;
    }
    assert lines[..i] == lines;
  }

  method AppendLabelItems(items: seq<SchematicItem>, labels: seq<NetLabel>) returns (r: seq<SchematicItem>)
    ensures r == items + LabelItems(labels)
  {
    r := items;
    var i := 0;
    while i < |labels|
      invariant 0 <= i <= |labels|
      invariant r == items + LabelItems(labels[..i])
    {
      assert LabelItems(labels[..i + 1]) == LabelItems(labels[..i]) + [LabelItem(labels[i])];
      r := r + [LabelItem(labels[i])];
      i := i + 1;
    }
    assert labels[..i] == labels;
  }

  /** The symbol pass: each symbol's hit pins, then the symbol itself if hit. */
  method AppendSymbolHits(items: seq<SchematicItem>, symbols: seq<Symbol>, pinHit: SymbolPin -> bool,
                          symbolHit: Symbol -> bool) returns (r: seq<SchematicItem>)
    ensures r == items + SymbolHits(symbols, pinHit, symbolHit)
  {
    r := items;
    var i := 0;
    while i < |symbols|
      invariant 0 <= i <= |symbols|
      invariant r + SymbolHits(symbols[i..], pinHit, symbolHit) == items + SymbolHits(symbols, pinHit, symbolHit)
    {
      var symbol := symbols[i];
      assert symbols[i..][1..] == symbols[i + 1..];
      r := AppendPinHits(r, symbol.pins, pinHit);
      if symbolHit(symbol) {
        r := r + [SymbolItem(symbol)];
      }
      i := i + 1;
    }
  }

  /** One pass over a symbol's pins, keeping those whose grab area is hit. */
  method AppendPinHits(items: seq<SchematicItem>, pins: seq<SymbolPin>, pinHit: SymbolPin -> bool) returns (r: seq<SchematicItem>)
    ensures r == items + PinHits(pins, pinHit)
  {
    r := items;
    var i := 0;
    while i < |pins|
      invariant 0 <= i <= |pins|
      invariant r + PinHits(pins[i..], pinHit) == items + PinHits(pins, pinHit)
    {
      assert pins[i..][1..] == pins[i + 1..];
      if pinHit(pins[i]) {
        r := r + [PinItem(pins[i])];
      }
      i := i + 1;
    }
  }

  /** Equal objects have equal UUIDs, so unique UUIDs mean no repeated symbol. */
  lemma UniqueUuidsDistinct(symbols: seq<Symbol>)
    requires UniqueSymbolUuids(symbols)
    ensures Distinct(symbols)
  {
  }

  lemma UniqueSegmentUuidsDistinct(segments: seq<NetSegment>)
    requires UniqueSegmentUuids(segments)
    ensures Distinct(segments)
  {
  }

  lemma {:induction false} RemoveFirstKeepsUniqueSymbols(symbols: seq<Symbol>, x: Symbol)
    requires UniqueSymbolUuids(symbols)
    ensures UniqueSymbolUuids(RemoveFirst(symbols, x))
  {
    if symbols != [] && symbols[0] != x {
      RemoveFirstKeepsUniqueSymbols(symbols[1..], x);
      var rest := RemoveFirst(symbols[1..], x);
      var r := [symbols[0]] + rest;
      forall i, j | 0 <= i < j < |r| ensures r[i].uuid != r[j].uuid {
        if i == 0 {
          assert r[j] in rest && r[j] in symbols[1..];
          var k :| 0 <= k < |symbols[1..]| && symbols[1..][k] == r[j];
          assert symbols[k + 1] == r[j];
        } else {
          assert r[i] == rest[i - 1] && r[j] == rest[j - 1];
        }
      }
    }
  }

  lemma {:induction false} RemoveFirstKeepsUniqueSegments(segments: seq<NetSegment>, x: NetSegment)
    requires UniqueSegmentUuids(segments)
    ensures UniqueSegmentUuids(RemoveFirst(segments, x))
  {
    if segments != [] && segments[0] != x {
      RemoveFirstKeepsUniqueSegments(segments[1..], x);
      var rest := RemoveFirst(segments[1..], x);
      var r := [segments[0]] + rest;
      forall i, j | 0 <= i < j < |r| ensures r[i].uuid != r[j].uuid {
        if i == 0 {
          assert r[j] in rest && r[j] in segments[1..];
          var k :| 0 <= k < |segments[1..]| && segments[1..][k] == r[j];
          assert segments[k + 1] == r[j];
        } else {
          assert r[i] == rest[i - 1] && r[j] == rest[j - 1];
        }
      }
    }
  }

  /** The hit list is stacked: no item is listed before one from a higher layer. */
  lemma LayersOrdered(points: seq<NetPoint>, lines: seq<NetLine>, labels: seq<NetLabel>, symbolPart: seq<SchematicItem>,
                      items: seq<SchematicItem>)
    requires forall it :: it in symbolPart ==> it.PinItem? || it.SymbolItem?
    requires items == PointsOfVisibility(points, true) + PointsOfVisibility(points, false)
                      + LineItems(lines) + LabelItems(labels) + symbolPart
    ensures forall i, j :: 0 <= i < j < |items| ==> Layer(items[i]) <= Layer(items[j])
  {
    var a := PointsOfVisibility(points, true);
    var b := PointsOfVisibility(points, false);
    var c := LineItems(lines);
    var d := LabelItems(labels);
    var e := symbolPart;
    PointsOfVisibilityExact(points, true);
    PointsOfVisibilityExact(points, false);
    assert forall x :: x in a ==> Layer(x) == 0;
    assert forall x :: x in b ==> Layer(x) == 1;
    assert forall k :: 0 <= k < |c| ==> Layer(c[k]) == 2;
    assert forall k :: 0 <= k < |d| ==> Layer(d[k]) == 3;
    assert forall x :: x in e ==> Layer(x) == 4;
    forall i, j | 0 <= i < j < |items| ensures Layer(items[i]) <= Layer(items[j]) {
      BandAt(a, b, c, d, e, i);
      BandAt(a, b, c, d, e, j);
    }
  }

  /** The layer of the k-th hit is fixed by the part of the list it falls in. */
  lemma BandAt(a: seq<SchematicItem>, b: seq<SchematicItem>, c: seq<SchematicItem>, d: seq<SchematicItem>,
               e: seq<SchematicItem>, k: nat)
    requires forall x :: x in a ==> Layer(x) == 0
    requires forall x :: x in b ==> Layer(x) == 1
    requires forall i :: 0 <= i < |c| ==> Layer(c[i]) == 2
    requires forall i :: 0 <= i < |d| ==> Layer(d[i]) == 3
    requires forall x :: x in e ==> Layer(x) == 4
    requires k < |a + b + c + d + e|
    ensures Layer((a + b + c + d + e)[k]) == if k < |a| then 0 else if k < |a| + |b| then 1
                                             else if k < |a| + |b| + |c| then 2
                                             else if k < |a| + |b| + |c| + |d| then 3 else 4
  {
    var s := a + b + c + d + e;
    if k < |a| { assert s[k] == a[k] && a[k] in a; }
    else if k < |a| + |b| { assert s[k] == b[k - |a|] && b[k - |a|] in b; }
    else if k < |a| + |b| + |c| { assert s[k] == c[k - |a| - |b|]; }
    else if k < |a| + |b| + |c| + |d| { assert s[k] == d[k - |a| - |b| - |c|]; }
    else { assert s[k] == e[k - |a| - |b| - |c| - |d|] && e[k - |a| - |b| - |c| - |d|] in e; }
  }
}
