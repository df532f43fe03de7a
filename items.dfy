/**
 * The items of a schematic page: placed symbols, net segments and the net
 * points, net lines and net labels a segment owns. Items compare by object
 * identity. Each item knows the page it was created for (`sheet`); whether it
 * is currently registered with that page is its `isAdded` flag.
 */
module Items {
  import opened Base

  // ---------------------------------------------------------------------------
  // Set-level membership changes used by a net segment
  // ---------------------------------------------------------------------------

  /** Adding a batch succeeds when the batch has no repeats and none of it is present yet. */
  function Added<T(==)>(s: set<T>, xs: seq<T>): (r: Option<set<T>>)
    ensures r.Some? <==> Distinct(xs) && forall x :: x in xs ==> x !in s
    ensures r.Some? ==> s <= r.value && (forall x :: x in xs ==> x in r.value)
                        && forall y :: y in r.value && y !in s ==> y in xs
  {
    if Distinct(xs) && (forall x :: x in xs ==> x !in s) then Some(s + Elements(xs)) else None
  }

  /** Removing a batch succeeds when the batch has no repeats and all of it is present. */
  function Removed<T(==)>(s: set<T>, xs: seq<T>): (r: Option<set<T>>)
    ensures r.Some? <==> Distinct(xs) && forall x :: x in xs ==> x in s
    ensures r.Some? ==> r.value <= s && (forall x :: x in xs ==> x !in r.value)
                        && forall y :: y in s && y !in r.value ==> y in xs
  {
    if Distinct(xs) && (forall x :: x in xs ==> x in s) then Some(s - Elements(xs)) else None
  }

  /** Undo of an add: removing what was just added gives back the old set. */
  lemma RemovedUndoesAdded<T>(s: set<T>, xs: seq<T>)
    requires Added(s, xs).Some?
    ensures Removed(Added(s, xs).value, xs) == Some(s)
  {
    var t := Added(s, xs).value;
    assert t - Elements(xs) == s;
  }

  /** Undo of a remove: adding back what was just removed gives back the old set. */
  lemma AddedUndoesRemoved<T>(s: set<T>, xs: seq<T>)
    requires Removed(s, xs).Some?
    ensures Added(Removed(s, xs).value, xs) == Some(s)
  {
    var t := Removed(s, xs).value;
    assert t + Elements(xs) == s;
  }

  /** `xs` with its first occurrence of `x` removed (a list's removeOne). */
  function RemoveFirst<T(==)>(xs: seq<T>, x: T): (r: seq<T>)
    ensures x in xs ==> |r| == |xs| - 1
    ensures x !in xs ==> r == xs
    ensures forall y :: y in r ==> y in xs
  {
    if xs == [] then []
    else if xs[0] == x then xs[1..]
    else [xs[0]] + RemoveFirst(xs[1..], x)
  }

  /** Appending a new element and then removing it gives back the list. */
  lemma {:induction false} RemoveFirstAppended<T>(xs: seq<T>, x: T)
    requires x !in xs
    ensures RemoveFirst(xs + [x], x) == xs
  {
    if xs != [] {
      assert (xs + [x])[1..] == xs[1..] + [x];
      RemoveFirstAppended(xs[1..], x);
      assert [xs[0]] + xs[1..] == xs;
    }
  }

  /** On a list without repeats, removeOne removes exactly that element and keeps the list repeat-free. */
  lemma {:induction false} RemoveFirstDistinct<T>(xs: seq<T>, x: T)
    requires Distinct(xs)
    ensures Distinct(RemoveFirst(xs, x))
    ensures Elements(RemoveFirst(xs, x)) == Elements(xs) - {x}
  {
    if xs != [] {
      DistinctTail(xs);
      ElementsCons(xs);
      if xs[0] != x {
        RemoveFirstDistinct(xs[1..], x);
        var rest := RemoveFirst(xs[1..], x);
        DistinctCons(xs[0], rest);
        ElementsCons([xs[0]] + rest);
        assert ([xs[0]] + rest)[1..] == rest;
      }
    }
  }

  lemma DistinctTail<T>(xs: seq<T>)
    requires Distinct(xs) && xs != []
    ensures Distinct(xs[1..]) && xs[0] !in xs[1..]
  {
    forall i, j | 0 <= i < j < |xs[1..]| ensures xs[1..][i] != xs[1..][j] {
      assert xs[1..][i] == xs[i + 1] && xs[1..][j] == xs[j + 1];
    }
    forall k | 0 <= k < |xs[1..]| ensures xs[1..][k] != xs[0] {
      assert xs[1..][k] == xs[k + 1];
    }
  }

  lemma DistinctCons<T>(h: T, rest: seq<T>)
    requires Distinct(rest) && h !in rest
    ensures Distinct([h] + rest)
  {
    var r := [h] + rest;
    forall i, j | 0 <= i < j < |r| ensures r[i] != r[j] {
      assert r[j] == rest[j - 1];
      if i == 0 { assert r[j] in rest; } else { assert r[i] == rest[i - 1]; }
    }
  }

  lemma ElementsCons<T>(xs: seq<T>)
    requires xs != []
    ensures Elements(xs) == {xs[0]} + Elements(xs[1..])
  {
    assert xs == [xs[0]] + xs[1..];
  }

  // ---------------------------------------------------------------------------
  // Symbols (only what the net model needs of them)
  // ---------------------------------------------------------------------------

  class Symbol {
    const uuid: Uuid
    const sheet: SheetId
    const pins: seq<SymbolPin>
    var isAdded: bool

    constructor (uuid: Uuid, sheet: SheetId, pins: seq<SymbolPin>)
      ensures this.uuid == uuid && this.sheet == sheet && this.pins == pins && !isAdded
    {
      this.uuid := uuid;
      this.sheet := sheet;
      this.pins := pins;
      isAdded := false;
    }

    /** The pin of this symbol with the given library pin UUID. */
    function GetPin(libPinUuid: Uuid): (r: Option<SymbolPin>)
      ensures r.Some? ==> r.value in pins && r.value.libPinUuid == libPinUuid
      ensures r.None? ==> forall p :: p in pins ==> p.libPinUuid != libPinUuid
    {
      FirstPinWithUuid(pins, libPinUuid)
    }

    method AddToSchematic() returns (s: Status)
      modifies this
      ensures s == (if old(isAdded) then Failure(LogicError) else Success)
      ensures isAdded
    {
      if isAdded { return Failure(LogicError); }
      isAdded := true;
      s := Success;
    }

    method RemoveFromSchematic() returns (s: Status)
      modifies this
      ensures s == (if old(isAdded) then Success else Failure(LogicError))
      ensures !isAdded
    {
      if !isAdded { return Failure(LogicError); }
      isAdded := false;
      s := Success;
    }
  }

  function FirstPinWithUuid(pins: seq<SymbolPin>, u: Uuid): (r: Option<SymbolPin>)
    ensures r.Some? ==> r.value in pins && r.value.libPinUuid == u
    ensures r.None? ==> forall p :: p in pins ==> p.libPinUuid != u
  {
    if pins == [] then None
    else if pins[0].libPinUuid == u then Some(pins[0])
    else FirstPinWithUuid(pins[1..], u)
  }

  /** The first symbol of the list with the given UUID (getSymbolByUuid). */
  function FirstSymbolWithUuid(symbols: seq<Symbol>, u: Uuid): (r: Option<Symbol>)
    ensures r.None? <==> forall s :: s in symbols ==> s.uuid != u
    ensures r.Some? ==> exists i :: 0 <= i < |symbols| && symbols[i] == r.value && r.value.uuid == u
                          && forall j :: 0 <= j < i ==> symbols[j].uuid != u
  {
    if symbols == [] then None
    else if symbols[0].uuid == u then Some(symbols[0])
    else
      var r := FirstSymbolWithUuid(symbols[1..], u);
      if r.Some? then
        ghost var i :| 0 <= i < |symbols[1..]| && symbols[1..][i] == r.value && r.value.uuid == u
                      && forall j :: 0 <= j < i ==> symbols[1..][j].uuid != u;
        assert symbols[i + 1] == r.value && forall j :: 1 <= j < i + 1 ==> symbols[j] == symbols[1..][j - 1];
        r
      else r
  }

  // ---------------------------------------------------------------------------
  // Net segments
  // ---------------------------------------------------------------------------

  /**
   * A connected piece of wiring on one page. It holds its net signal and the
   * sets of its points, lines and labels; membership order carries no meaning.
   */
  class NetSegment {
    const uuid: Uuid
    const sheet: SheetId
    var netSignal: NetSignal
    var netPoints: set<NetPoint>
    var netLines: set<NetLine>
    var netLabels: set<NetLabel>
    var isAdded: bool

    constructor (sheet: SheetId, netSignal: NetSignal, uuid: Uuid)
      ensures this.sheet == sheet && this.netSignal == netSignal && this.uuid == uuid
      ensures netPoints == {} && netLines == {} && netLabels == {} && !isAdded
    {
      this.sheet := sheet;
      this.netSignal := netSignal;
      this.uuid := uuid;
      netPoints := {};
      netLines := {};
      netLabels := {};
      isAdded := false;
    }

    /** Every point and line of the batch was created for this segment. */
    predicate Owns(points: seq<NetPoint>, lines: seq<NetLine>)
    {
      (forall p :: p in points ==> p.segment == this) && (forall l :: l in lines ==> l.segment == this)
    }

    method AddNetPointsAndNetLines(points: seq<NetPoint>, lines: seq<NetLine>) returns (s: Status)
      modifies this
      ensures s.Success? <==> Owns(points, lines) && Added(old(netPoints), points).Some? && Added(old(netLines), lines).Some?
      ensures s.Success? ==> netPoints == Added(old(netPoints), points).value && netLines == Added(old(netLines), lines).value
      ensures s.Failure? ==> s.error == LogicError && netPoints == old(netPoints) && netLines == old(netLines)
      ensures netSignal == old(netSignal) && netLabels == old(netLabels) && isAdded == old(isAdded)
    {
      var ps := Added(netPoints, points);
      var ls := Added(netLines, lines);
      if !Owns(points, lines) || ps.None? || ls.None? {
        return Failure(LogicError);
      }
      netPoints, netLines := ps.value, ls.value;
      s := Success;
    }

    method RemoveNetPointsAndNetLines(points: seq<NetPoint>, lines: seq<NetLine>) returns (s: Status)
      modifies this
      ensures s.Success? <==> Removed(old(netPoints), points).Some? && Removed(old(netLines), lines).Some?
      ensures s.Success? ==> netPoints == Removed(old(netPoints), points).value && netLines == Removed(old(netLines), lines).value
      ensures s.Failure? ==> s.error == LogicError && netPoints == old(netPoints) && netLines == old(netLines)
      ensures netSignal == old(netSignal) && netLabels == old(netLabels) && isAdded == old(isAdded)
    {
      var ps := Removed(netPoints, points);
      var ls := Removed(netLines, lines);
      if ps.None? || ls.None? {
        return Failure(LogicError);
      }
      netPoints, netLines := ps.value, ls.value;
      s := Success;
    }

    method AddNetLabel(netLabel: NetLabel) returns (s: Status)
      modifies this
      ensures s.Success? <==> netLabel.segment == this && netLabel !in old(netLabels)
      ensures netLabels == (if s.Success? then old(netLabels) + {netLabel} else old(netLabels))
      ensures s.Failure? ==> s.error == LogicError
      ensures netSignal == old(netSignal) && netPoints == old(netPoints) && netLines == old(netLines) && isAdded == old(isAdded)
    {
      if netLabel.segment != this || netLabel in netLabels {
        return Failure(LogicError);
      }
      netLabels := netLabels + {netLabel};
      s := Success;
    }

    method RemoveNetLabel(netLabel: NetLabel) returns (s: Status)
      modifies this
      ensures s.Success? <==> netLabel in old(netLabels)
      ensures netLabels == old(netLabels) - {netLabel}
      ensures s.Failure? ==> s.error == LogicError
      ensures netSignal == old(netSignal) && netPoints == old(netPoints) && netLines == old(netLines) && isAdded == old(isAdded)
    {
      if netLabel !in netLabels {
        return Failure(LogicError);
      }
      netLabels := netLabels - {netLabel};
      s := Success;
    }

    method SetNetSignal(signal: NetSignal)
      modifies this
      ensures netSignal == signal
      ensures netPoints == old(netPoints) && netLines == old(netLines) && netLabels == old(netLabels) && isAdded == old(isAdded)
    {
      netSignal := signal;
    }

    method AddToSchematic() returns (s: Status)
      modifies this
      ensures s == (if old(isAdded) then Failure(LogicError) else Success)
      ensures isAdded
      ensures netSignal == old(netSignal) && netPoints == old(netPoints) && netLines == old(netLines) && netLabels == old(netLabels)
    {
      if isAdded { return Failure(LogicError); }
      isAdded := true;
      s := Success;
    }

    method RemoveFromSchematic() returns (s: Status)
      modifies this
      ensures s == (if old(isAdded) then Success else Failure(LogicError))
      ensures !isAdded
      ensures netSignal == old(netSignal) && netPoints == old(netPoints) && netLines == old(netLines) && netLabels == old(netLabels)
    {
      if !isAdded { return Failure(LogicError); }
      isAdded := false;
      s := Success;
    }
  }

  // ---------------------------------------------------------------------------
  // Net lines
  // ---------------------------------------------------------------------------

  /** A wire between two net points of one segment; its end points never change. */
  class NetLine {
    const uuid: Uuid
    const segment: NetSegment
    const start: NetPoint
    const end: NetPoint
    const width: int

    constructor (uuid: Uuid, start: NetPoint, end: NetPoint, width: int)
      ensures this.uuid == uuid && this.start == start && this.end == end && this.width == width
      ensures segment == start.segment
    {
      this.uuid := uuid;
      this.segment := start.segment;
      this.start := start;
      this.end := end;
      this.width := width;
    }

    /** The end point opposite to `p`, none when `p` is not an end point. */
    function OtherPoint(p: NetPoint): (r: Option<NetPoint>)
      ensures r.None? <==> p != start && p != end
      ensures r.Some? ==> {p, r.value} == {start, end}
    {
      if p == start then Some(end) else if p == end then Some(start) else None
    }
  }

  // ---------------------------------------------------------------------------
  // Net points
  // ---------------------------------------------------------------------------

  /** What a net point's file element carries. */
  datatype NetPointAttrs = NetPointAttrs(uuid: Uuid, position: Point, pin: Option<SymbolPin>)

  /**
   * checkAttributesValidity of a net point: a non-null UUID and, when attached,
   * a pin whose component signal is on the segment's net signal.
   */
  predicate NetPointAttrsValid(a: NetPointAttrs, segmentSignal: NetSignal, pinNetSignal: Option<NetSignal>)
  {
    !IsNull(a.uuid) && (a.pin.Some? ==> pinNetSignal == Some(segmentSignal))
  }

  /** The file element of a net point: the pin reference when attached, else the coordinates. */
  function SerializeNetPoint(a: NetPointAttrs, segmentSignal: NetSignal, pinNetSignal: Option<NetSignal>): (r: Result<XmlElement>)
    ensures r.Err? <==> !NetPointAttrsValid(a, segmentSignal, pinNetSignal)
    ensures r.Err? ==> r.error == LogicError
    ensures r.Ok? ==> r.value.name == "netpoint" && GetBool(r.value, "attached") == Ok(a.pin.Some?)
    ensures r.Ok? && a.pin.Some? ==> "x" !in r.value.attributes && "y" !in r.value.attributes
    ensures r.Ok? && a.pin.None? ==> "symbol" !in r.value.attributes && "pin" !in r.value.attributes
  {
    if !NetPointAttrsValid(a, segmentSignal, pinNetSignal) then Err(LogicError)
    else if a.pin.Some? then
      Ok(XmlElement("netpoint", map["uuid" := UuidValue(a.uuid), "attached" := BoolValue(true),
                                    "symbol" := UuidValue(a.pin.value.symbolUuid), "pin" := UuidValue(a.pin.value.libPinUuid)]))
    else
      Ok(XmlElement("netpoint", map["uuid" := UuidValue(a.uuid), "attached" := BoolValue(false),
                                    "x" := LengthValue(a.position.x), "y" := LengthValue(a.position.y)]))
  }

  /**
   * The element's "symbol" and "pin" attributes are UUIDs, the page has a
   * symbol with the first, and the first such symbol has a pin with the second.
   */
  predicate PinReferenceResolves(e: XmlElement, symbols: seq<Symbol>)
  {
    var symbolUuid := GetUuid(e, "symbol");
    var pinUuid := GetUuid(e, "pin");
    symbolUuid.Ok? && pinUuid.Ok?
    && var s := FirstSymbolWithUuid(symbols, symbolUuid.value);
       s.Some? && exists p :: p in s.value.pins && p.libPinUuid == pinUuid.value
  }

  /**
   * Reading a net point's file element: an attached point resolves its symbol
   * among the page's symbols and the pin within the symbol, and takes the
   * pin's position; an unknown symbol or pin is a file error.
   */
  function ParseNetPoint(e: XmlElement, symbols: seq<Symbol>, pinPosition: SymbolPin -> Point): (r: Result<NetPointAttrs>)
    ensures r.Err? ==> r.error == RuntimeError
    ensures r.Err? <==>
              GetUuid(e, "uuid").Err? || GetBool(e, "attached").Err?
              || (GetBool(e, "attached") == Ok(true) && !PinReferenceResolves(e, symbols))
              || (GetBool(e, "attached") == Ok(false) && (GetLength(e, "x").Err? || GetLength(e, "y").Err?))
    ensures r.Ok? && r.value.pin.Some? ==>
              GetUuid(e, "symbol").Ok?
              && var s := FirstSymbolWithUuid(symbols, GetUuid(e, "symbol").value);
                 s.Some? && r.value.pin.value in s.value.pins
    ensures r.Ok? ==> GetUuid(e, "uuid") == Ok(r.value.uuid) && GetBool(e, "attached") == Ok(r.value.pin.Some?)
    ensures r.Ok? && r.value.pin.Some? ==>
              r.value.position == pinPosition(r.value.pin.value) && GetUuid(e, "pin") == Ok(r.value.pin.value.libPinUuid)
    ensures r.Ok? && r.value.pin.None? ==>
              GetLength(e, "x") == Ok(r.value.position.x) && GetLength(e, "y") == Ok(r.value.position.y)
  {
    var u := GetUuid(e, "uuid");
    var attached := GetBool(e, "attached");
    if u.Err? || attached.Err? then Err(RuntimeError)
    else if attached.value then
      var symbolUuid := GetUuid(e, "symbol");
      if symbolUuid.Err? then Err(RuntimeError)
      else
        var symbol := FirstSymbolWithUuid(symbols, symbolUuid.value);
        if symbol.None? then Err(RuntimeError)
        else
          var pinUuid := GetUuid(e, "pin");
          if pinUuid.Err? then Err(RuntimeError)
          else
            var pin := symbol.value.GetPin(pinUuid.value);
            if pin.None? then Err(RuntimeError)
            else
              Ok(NetPointAttrs(u.value, pinPosition(pin.value), pin))
    else
      var x := GetLength(e, "x");
      var y := GetLength(e, "y");
      if x.Err? || y.Err? then Err(RuntimeError)
      else Ok(NetPointAttrs(u.value, Point(x.value, y.value), None))
  }

  /** The pin reference written for `pin` leads back to `pin` on this page. */
  predicate Resolves(symbols: seq<Symbol>, pin: SymbolPin)
  {
    var s := FirstSymbolWithUuid(symbols, pin.symbolUuid);
    s.Some? && s.value.GetPin(pin.libPinUuid) == Some(pin)
  }

  /**
   * Saving and reloading a valid net point gives back its UUID, pin and
   * position, provided its pin reference resolves on the page and an attached
   * point sits on its pin.
   */
  lemma NetPointRoundTrip(a: NetPointAttrs, segmentSignal: NetSignal, pinNetSignal: Option<NetSignal>,
                          symbols: seq<Symbol>, pinPosition: SymbolPin -> Point)
    requires NetPointAttrsValid(a, segmentSignal, pinNetSignal)
    requires a.pin.Some? ==> Resolves(symbols, a.pin.value) && a.position == pinPosition(a.pin.value)
    ensures SerializeNetPoint(a, segmentSignal, pinNetSignal).Ok?
    ensures ParseNetPoint(SerializeNetPoint(a, segmentSignal, pinNetSignal).value, symbols, pinPosition) == Ok(a)
  {
    var e := SerializeNetPoint(a, segmentSignal, pinNetSignal).value;
    if a.pin.Some? {
      assert GetUuid(e, "symbol") == Ok(a.pin.value.symbolUuid);
      assert GetUuid(e, "pin") == Ok(a.pin.value.libPinUuid);
    } else {
      assert GetLength(e, "x") == Ok(a.position.x) && GetLength(e, "y") == Ok(a.position.y);
    }
  }

  /**
   * A point of a segment. It may be attached to a symbol pin, and it keeps the
   * list of net lines registered at it. The "dead net point" ERC message is
   * shown exactly while the point is on the page without any line.
   */
  class NetPoint {
    const uuid: Uuid
    const segment: NetSegment
    var position: Point
    var pin: Option<SymbolPin>
    var lines: seq<NetLine>
    var isAdded: bool
    var deadMessageVisible: bool

    ghost predicate Valid()
      reads this
    {
      deadMessageVisible == (isAdded && |lines| == 0) && Distinct(lines)
    }

    function Attributes(): NetPointAttrs
      reads this
    {
      NetPointAttrs(uuid, position, pin)
    }

    /** Construction from a file element already read by ParseNetPoint. */
    constructor FromAttributes(segment: NetSegment, a: NetPointAttrs, pinNetSignal: Option<NetSignal>)
      requires NetPointAttrsValid(a, segment.netSignal, pinNetSignal)
      ensures Valid() && Attributes() == a && this.segment == segment
      ensures lines == [] && !isAdded
    {
      this.segment := segment;
      uuid := a.uuid;
      position := a.position;
      pin := a.pin;
      lines := [];
      isAdded := false;
      deadMessageVisible := false;
    }

    /** A new floating point at `position`; `uuid` is the freshly generated random UUID. */
    constructor AtPosition(segment: NetSegment, uuid: Uuid, position: Point)
      requires !IsNull(uuid)
      ensures Valid() && Attributes() == NetPointAttrs(uuid, position, None) && this.segment == segment
      ensures lines == [] && !isAdded
    {
      this.segment := segment;
      this.uuid := uuid;
      this.position := position;
      pin := None;
      lines := [];
      isAdded := false;
      deadMessageVisible := false;
    }

    /** A new point attached to `pin`, placed on the pin. */
    constructor OnPin(segment: NetSegment, uuid: Uuid, pin: SymbolPin, pinPosition: Point, pinNetSignal: Option<NetSignal>)
      requires !IsNull(uuid) && pinNetSignal == Some(segment.netSignal)
      ensures Valid() && Attributes() == NetPointAttrs(uuid, pinPosition, Some(pin)) && this.segment == segment
      ensures lines == [] && !isAdded
    {
      this.segment := segment;
      this.uuid := uuid;
      this.position := pinPosition;
      this.pin := Some(pin);
      lines := [];
      isAdded := false;
      deadMessageVisible := false;
    }

    predicate IsAttachedToPin()
      reads this
    {
      pin.Some?
    }

    predicate IsUsed()
      reads this
    {
      |lines| > 0
    }

    /**
     * A point is drawn as a dot where three or more lines meet, or where two
     * lines meet at a pin; a plain bend or an open end is not drawn.
     */
    predicate IsVisible()
      reads this
      ensures pin.None? ==> (IsVisible() <==> |lines| >= 3)
      ensures pin.Some? ==> (IsVisible() <==> |lines| >= 2)
    {
      if |lines| > 2 then true
      else if |lines| > 1 && IsAttachedToPin() then true
      else false
    }

    function NetSignalOfNetSegment(): NetSignal
      reads segment
    {
      segment.netSignal
    }

    /**
     * Attaching to (Some) or detaching from (None) a pin. The same pin is a
     * no-op. A point with lines, or a pin of another page, is refused. On the
     * page, a new pin must carry the segment's net signal, and the point moves
     * onto it; off the page only the reference changes.
     */
    method SetPinToAttach(newPin: Option<SymbolPin>, pinPosition: Point, pinNetSignal: Option<NetSignal>) returns (s: Status)
      requires Valid()
      modifies this
      ensures Valid()
      ensures s.Failure? <==> newPin != old(pin)
                              && (old(|lines|) > 0 || (newPin.Some? && newPin.value.sheet != segment.sheet)
                                  || (old(isAdded) && newPin.Some? && pinNetSignal != Some(segment.netSignal)))
      ensures s.Failure? ==> s.error == LogicError && pin == old(pin) && position == old(position)
      ensures s.Success? ==> pin == newPin
      ensures s.Success? ==> position == (if old(isAdded) && newPin.Some? && newPin != old(pin) then pinPosition else old(position))
      ensures lines == old(lines) && isAdded == old(isAdded) && deadMessageVisible == old(deadMessageVisible)
    {
      if newPin == pin {
        return Success;
      }
      if IsUsed() || (newPin.Some? && newPin.value.sheet != segment.sheet) {
        return Failure(LogicError);
      }
      if isAdded {
        if newPin.Some? {
          if pinNetSignal != Some(segment.netSignal) {
            return Failure(LogicError);
          }
          var _ := SetPosition(pinPosition);
        }
      }
      pin := newPin;
      s := Success;
    }

    /** Moving the point; reports whether it actually moved (only then are its lines updated). */
    method SetPosition(p: Point) returns (moved: bool)
      modifies this`position
      ensures position == p
      ensures moved == (old(position) != p)
    {
      moved := p != position;
      if moved {
        position := p;
      }
    }

    /** Registering with the page; an attached point's pin must be on the segment's net signal. */
    method AddToSchematic(pinNetSignal: Option<NetSignal>) returns (s: Status)
      requires Valid()
      modifies this
      ensures Valid()
      ensures s.Failure? <==> old(isAdded) || old(|lines|) > 0 || (pin.Some? && pinNetSignal != Some(segment.netSignal))
      ensures s.Failure? ==> s.error == LogicError && isAdded == old(isAdded)
      ensures s.Success? ==> isAdded && deadMessageVisible
      ensures lines == old(lines) && pin == old(pin) && position == old(position)
    {
      if isAdded || IsUsed() {
        return Failure(LogicError);
      }
      if IsAttachedToPin() && pinNetSignal != Some(segment.netSignal) {
        return Failure(LogicError);
      }
      deadMessageVisible := true;
      isAdded := true;
      s := Success;
    }

    method RemoveFromSchematic(pinNetSignal: Option<NetSignal>) returns (s: Status)
      requires Valid()
      modifies this
      ensures Valid()
      ensures s.Failure? <==> !old(isAdded) || old(|lines|) > 0 || (pin.Some? && pinNetSignal != Some(segment.netSignal))
      ensures s.Failure? ==> s.error == LogicError && isAdded == old(isAdded)
      ensures s.Success? ==> !isAdded && !deadMessageVisible
      ensures lines == old(lines) && pin == old(pin) && position == old(position)
    {
      if !isAdded || IsUsed() {
        return Failure(LogicError);
      }
      if IsAttachedToPin() && pinNetSignal != Some(segment.netSignal) {
        return Failure(LogicError);
      }
      deadMessageVisible := false;
      isAdded := false;
      s := Success;
    }

    /** A line of the same page is registered once, and only while the point is on the page. */
    method RegisterNetLine(line: NetLine) returns (s: Status)
      requires Valid()
      modifies this
      ensures Valid()
      ensures s.Failure? <==> !isAdded || line in old(lines) || line.segment.sheet != segment.sheet
      ensures s.Failure? ==> s.error == LogicError
      ensures lines == if s.Success? then old(lines) + [line] else old(lines)
      ensures s.Success? ==> !deadMessageVisible
      ensures isAdded == old(isAdded) && pin == old(pin) && position == old(position)
    {
      if !isAdded || line in lines || line.segment.sheet != segment.sheet {
        return Failure(LogicError);
      }
      forall i, j | 0 <= i < j < |lines + [line]| ensures (lines + [line])[i] != (lines + [line])[j] {
        if j == |lines| { assert (lines + [line])[i] == lines[i]; }
      }
      lines := lines + [line];
      deadMessageVisible := false;
      s := Success;
    }

    method UnregisterNetLine(line: NetLine) returns (s: Status)
      requires Valid()
      modifies this
      ensures Valid()
      ensures s.Failure? <==> !isAdded || line !in old(lines)
      ensures s.Failure? ==> s.error == LogicError
      ensures lines == if s.Success? then RemoveFirst(old(lines), line) else old(lines)
      ensures s.Success? ==> Elements(lines) == Elements(old(lines)) - {line}
      ensures s.Success? ==> deadMessageVisible == (|lines| == 0)
      ensures isAdded == old(isAdded) && pin == old(pin) && position == old(position)
    {
      RemoveFirstDistinct(lines, line);
      if !isAdded || line !in lines {
        return Failure(LogicError);
      }
      lines := RemoveFirst(lines, line);
      deadMessageVisible := |lines| == 0;
      s := Success;
    }
  }

  // ---------------------------------------------------------------------------
  // Net labels
  // ---------------------------------------------------------------------------

  /** What a net label's file element carries. */
  datatype NetLabelAttrs = NetLabelAttrs(uuid: Uuid, position: Point, rotation: Angle)

  function SerializeNetLabel(a: NetLabelAttrs): (r: Result<XmlElement>)
    ensures r.Err? <==> IsNull(a.uuid)
    ensures r.Err? ==> r.error == LogicError
    ensures r.Ok? ==> r.value.name == "netlabel"
  {
    if IsNull(a.uuid) then Err(LogicError)
    else Ok(XmlElement("netlabel", map["uuid" := UuidValue(a.uuid), "x" := LengthValue(a.position.x),
                                       "y" := LengthValue(a.position.y), "rotation" := AngleValue(a.rotation)]))
  }

  /**
   * Reading a net label's file element: a missing attribute is a file error,
   * a null UUID fails the validity check.
   */
  function ParseNetLabel(e: XmlElement): (r: Result<NetLabelAttrs>)
    ensures r.Ok? ==> !IsNull(r.value.uuid)
    ensures r.Err? && r.error == LogicError ==> GetUuid(e, "uuid") == Ok(NullUuid)
    ensures r.Ok? <==> GetUuid(e, "uuid").Ok? && !IsNull(GetUuid(e, "uuid").value) && GetLength(e, "x").Ok?
                       && GetLength(e, "y").Ok? && GetAngle(e, "rotation").Ok?
    ensures GetUuid(e, "uuid").Err? || GetLength(e, "x").Err? || GetLength(e, "y").Err? || GetAngle(e, "rotation").Err?
            ==> r == Err(RuntimeError)
    ensures r.Ok? ==> r.value.uuid == GetUuid(e, "uuid").value
                      && r.value.position == Point(GetLength(e, "x").value, GetLength(e, "y").value)
                      && r.value.rotation == GetAngle(e, "rotation").value
  {
    var u := GetUuid(e, "uuid");
    var x := GetLength(e, "x");
    var y := GetLength(e, "y");
    var rot := GetAngle(e, "rotation");
    if u.Err? || x.Err? || y.Err? || rot.Err? then Err(RuntimeError)
    else if IsNull(u.value) then Err(LogicError)
    else Ok(NetLabelAttrs(u.value, Point(x.value, y.value), rot.value))
  }

  /** Saving and reloading a valid net label gives it back unchanged. */
  lemma NetLabelRoundTrip(a: NetLabelAttrs)
    requires !IsNull(a.uuid)
    ensures SerializeNetLabel(a).Ok? && ParseNetLabel(SerializeNetLabel(a).value) == Ok(a)
  {
    var e := SerializeNetLabel(a).value;
    assert GetUuid(e, "uuid") == Ok(a.uuid);
    assert GetLength(e, "x") == Ok(a.position.x) && GetLength(e, "y") == Ok(a.position.y);
    assert GetAngle(e, "rotation") == Ok(a.rotation);
  }

  /** A text label naming the net of its segment. */
  class NetLabel {
    const uuid: Uuid
    const segment: NetSegment
    var position: Point
    var rotation: Angle
    var isAdded: bool

    function Attributes(): NetLabelAttrs
      reads this
    {
      NetLabelAttrs(uuid, position, rotation)
    }

    /** Construction from a file element already read by ParseNetLabel. */
    constructor FromAttributes(segment: NetSegment, a: NetLabelAttrs)
      requires !IsNull(a.uuid)
      ensures Attributes() == a && this.segment == segment && !isAdded
    {
      this.segment := segment;
      uuid := a.uuid;
      position := a.position;
      rotation := a.rotation;
      isAdded := false;
    }

    /** A new label at `position`, unrotated; `uuid` is the freshly generated random UUID. */
    constructor AtPosition(segment: NetSegment, uuid: Uuid, position: Point)
      requires !IsNull(uuid)
      ensures Attributes() == NetLabelAttrs(uuid, position, DegZero) && this.segment == segment && !isAdded
    {
      this.segment := segment;
      this.uuid := uuid;
      this.position := position;
      rotation := DegZero;
      isAdded := false;
    }

    /** The label shows the net signal of its segment. */
    function NetSignalOfNetSegment(): NetSignal
      reads segment
    {
      segment.netSignal
    }

    /** Moving the label; reports whether it actually moved (only then is it redrawn). */
    method SetPosition(p: Point) returns (moved: bool)
      modifies this`position
      ensures position == p && moved == (old(position) != p)
    {
      moved := p != position;
      if moved {
        position := p;
      }
    }

    /** Rotating the label; reports whether the angle actually changed (only then is it redrawn). */
    method SetRotation(r: Angle) returns (turned: bool)
      modifies this`rotation
      ensures rotation == r && turned == (old(rotation) != r)
    {
      turned := r != rotation;
      if turned {
        rotation := r;
      }
    }

    method AddToSchematic() returns (s: Status)
      modifies this`isAdded
      ensures s == (if old(isAdded) then Failure(LogicError) else Success)
      ensures isAdded
    {
      if isAdded { return Failure(LogicError); }
      isAdded := true;
      s := Success;
    }

    method RemoveFromSchematic() returns (s: Status)
      modifies this`isAdded
      ensures s == (if old(isAdded) then Success else Failure(LogicError))
      ensures !isAdded
    {
      if !isAdded { return Failure(LogicError); }
      isAdded := false;
      s := Success;
    }
  }
}
