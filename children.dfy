/**
 * What the composite editor commands are made of: the child commands they
 * run, the view of the circuit and the boards they consult, and the undo
 * group that runs children in order and undoes the applied ones, last first,
 * when one of them (or the composite itself) throws.
 *
 * A composite is modelled by the ordered list of children it runs (its log)
 * together with the error it throws after them, if any, and the value it
 * returns. The children themselves are commands whose implementations live
 * elsewhere; a child is named by what it does and to which object.
 */
module Children {
  import opened Base
  import opened Items

  /** A net point a new line ends at: an existing one, or the point created as a copy of `source`. */
  datatype PointRef = Existing(point: NetPoint) | CopyOf(source: NetPoint)

  /** The segment elements are added to: an existing one, or the `k`-th segment this composite creates. */
  datatype SegmentRef = ExistingSegment(segment: NetSegment) | CreatedSegment(k: nat)

  /** Where a new net point sits: on a symbol pin, or floating at a position. */
  datatype Placement = OnPin(pin: SymbolPin) | AtPosition(position: Point)

  /** A net point to create, copying the placement of `source`. */
  datatype NewPoint = NewPoint(source: NetPoint, placement: Placement)

  /** A line to add: an existing line object, or a new line of default width between two points. */
  datatype LineSpec = KeepLine(line: NetLine) | LineBetween(from: PointRef, to: PointRef)

  datatype Child =
    // schematic net segments and their elements
    | SegmentRemove(segment: NetSegment)
    | SegmentAdd(segment: NetSegment)
    | SegmentAddNew(signal: NetSignal, k: nat)
    | SegmentEdit(segment: NetSegment, signal: NetSignal)
    | AddElements(target: SegmentRef, points: seq<NewPoint>, lines: seq<LineSpec>)
    | RemoveElements(segment: NetSegment, netPoints: seq<NetPoint>, netLines: seq<NetLine>)
    | LabelRemove(netLabel: NetLabel)
    | LabelAdd(segment: NetSegment, position: Point)
    | NetPointSetPin(netPoint: NetPoint, pin: Option<SymbolPin>)
    // the same three on what this composite created: its `k`-th segment, the copy of `source`
    | CreatedSegmentRemove(k: nat)
    | CreatedSegmentAdd(k: nat)
    | CopySetPin(source: NetPoint, pin: Option<SymbolPin>)
    | NetPointSetPosition(netPoint: NetPoint, position: Point)
    | LabelRotate(netLabel: NetLabel, angle: Angle, center: Point)
    // symbols, components and devices
    | SymbolRemove(symbol: Symbol)
    | SymbolRotate(symbol: Symbol, angle: Angle, center: Point)
    | DeviceRemove(device: Device)
    | ComponentRemove(component: Component)
    // board items
    | BoardLineRemove(boardLine: BoardNetLine)
    | BoardLineAdd(boardLine: BoardNetLine)
    | BoardPointRemove(boardPoint: BoardNetPoint)
    | BoardPointEdit(boardPoint: BoardNetPoint, signal: NetSignal)
    | BoardPointAdd(boardPoint: BoardNetPoint)
    | ViaRemove(via: Via)
    | ViaEdit(via: Via, signal: NetSignal)
    | ViaAdd(via: Via)
    // the circuit
    | CompSigSetNetSignal(cmpSig: ComponentSignal, netSignal: Option<NetSignal>)
    | NetSignalAdd(netClass: NetClass, name: Option<string>)
    | NetSignalRename(renamed: NetSignal, newName: string, forced: bool)
    | NetSignalRemove(removed: NetSignal)
    | RemoveUnusedNetSignals
    // composites run as children of other composites
    | CombineNetSignals(toBeRemoved: NetSignal, result: NetSignal)
    | CombineNetPoints(pointToBeRemoved: NetPoint, resultingPoint: NetPoint)
    | ChangeSegmentToAddedSignal(segment: NetSegment)

  /**
   * The circuit and the boards as they are when a composite starts. Lists
   * are in the order the objects report them. A composite that runs each
   * child before it looks at the next one sees what its earlier children
   * removed: it reads that from its own log of children.
   */
  datatype Circuit = Circuit(
    pinCmpSig: SymbolPin -> Option<ComponentSignal>,
    pinNetSignal: SymbolPin -> Option<NetSignal>,
    pinNetPoint: SymbolPin -> Option<NetPoint>,
    cmpSigPins: ComponentSignal -> seq<SymbolPin>,
    cmpSigNetSignal: ComponentSignal -> Option<NetSignal>,
    cmpSigForcedName: ComponentSignal -> Option<string>,
    cmpSigPads: ComponentSignal -> seq<FootprintPad>,
    padPoints: FootprintPad -> seq<BoardNetPoint>,
    boardPointLines: BoardNetPoint -> seq<BoardNetLine>,
    signalName: NetSignal -> string,
    signalNameForced: NetSignal -> bool,
    signalByName: string -> Option<NetSignal>,
    signalSegments: NetSignal -> seq<NetSegment>,
    signalVias: NetSignal -> seq<Via>,
    signalBoardPoints: NetSignal -> seq<BoardNetPoint>,
    signalCmpSigs: NetSignal -> seq<ComponentSignal>,
    segmentForcedNames: NetSegment -> seq<string>,
    segmentNetClass: NetSegment -> NetClass,
    symbolComponent: Symbol -> Component,
    componentSymbols: Component -> set<Symbol>,
    componentDevices: Component -> seq<Device>)

  /** What a composite does: its children in order, the error it throws after them, and its return value. */
  datatype Plan = Plan(children: seq<Child>, abort: Option<ErrorKind>, result: bool)

  /** A finished group: all children applied; or an error, after undoing the applied children. */
  datatype Outcome = Done(applied: seq<Child>, result: bool) | Failed(error: ErrorKind, undone: seq<Child>)

  function Reversed<T>(s: seq<T>): (r: seq<T>)
    ensures |r| == |s| && forall i :: 0 <= i < |s| ==> r[i] == s[|s| - 1 - i]
  {
    if s == [] then [] else Reversed(s[1..]) + [s[0]]
  }

  /** Number of children that run before the first one that throws (all of them when none does). */
  function {:induction false} ApplicableCount(children: seq<Child>, childError: Child -> Option<ErrorKind>): (n: nat)
    ensures n <= |children|
    ensures forall i :: 0 <= i < n ==> childError(children[i]).None?
    ensures n < |children| ==> childError(children[n]).Some?
  {
    if children == [] then 0
    else if childError(children[0]).Some? then 0
    else 1 + ApplicableCount(children[1..], childError)
  }

  /**
   * The undo group: runs the children in order; the first that throws (as
   * `childError` says) stops the group, and so does the composite's own
   * error after its last child. On an error, the children applied so far
   * are undone, the last applied first.
   */
  function Run(plan: Plan, childError: Child -> Option<ErrorKind>): (o: Outcome)
    ensures o.Done? <==> plan.abort.None? && forall c :: c in plan.children ==> childError(c).None?
    ensures o.Done? ==> o.applied == plan.children && o.result == plan.result
    ensures o.Failed? ==> exists n :: 0 <= n <= |plan.children| && o.undone == Reversed(plan.children[..n])
                                      && (forall i :: 0 <= i < n ==> childError(plan.children[i]).None?)
                                      && (if n < |plan.children| then childError(plan.children[n]) == Some(o.error)
                                          else plan.abort == Some(o.error))
  {
    var n := ApplicableCount(plan.children, childError);
    if n < |plan.children| then
      Failed(childError(plan.children[n]).value, Reversed(plan.children[..n]))
    else if plan.abort.Some? then
      assert plan.children[..n] == plan.children;
      Failed(plan.abort.value, Reversed(plan.children))
    else
      assert forall c :: c in plan.children ==> childError(c).None? by {
        forall c | c in plan.children ensures childError(c).None? {
          var i :| 0 <= i < |plan.children| && plan.children[i] == c;
        }
      }
      Done(plan.children, plan.result)
  }

  /** Undoing in reverse order and then redoing in order: reversing the undo list gives back the applied prefix. */
  lemma {:induction false} ReversedTwice<T>(s: seq<T>)
    ensures Reversed(Reversed(s)) == s
  {
    var r := Reversed(Reversed(s));
    assert |r| == |s|;
    forall i | 0 <= i < |s| ensures r[i] == s[i] {
      assert r[i] == Reversed(s)[|s| - 1 - i];
    }
  }

  /**
   * `acc` followed by the elements of `xs` it does not hold yet, each at its
   * first occurrence: a list filled by "append unless contained".
   */
  function InsertAll<T(==)>(acc: seq<T>, xs: seq<T>): seq<T>
    decreases |xs|
  {
    if xs == [] then acc else InsertAll(if xs[0] in acc then acc else acc + [xs[0]], xs[1..])
  }

  /** Inserting keeps the list repeat-free and holds exactly the elements of both lists. */
  lemma {:induction false} InsertAllElements<T>(acc: seq<T>, xs: seq<T>)
    requires Distinct(acc)
    ensures Distinct(InsertAll(acc, xs)) && forall x :: x in InsertAll(acc, xs) <==> x in acc || x in xs
    decreases |xs|
  {
    if xs != [] {
      var next := if xs[0] in acc then acc else acc + [xs[0]];
      if xs[0] !in acc { DistinctSnoc(acc, xs[0]); }
      InsertAllElements(next, xs[1..]);
      assert xs == [xs[0]] + xs[1..];
    }
  }

  /** Inserting two lists one after the other. */
  lemma {:induction false} InsertAllConcat<T>(acc: seq<T>, xs: seq<T>, ys: seq<T>)
    ensures InsertAll(acc, xs + ys) == InsertAll(InsertAll(acc, xs), ys)
    decreases |xs|
  {
    if xs != [] {
      assert (xs + ys)[0] == xs[0] && (xs + ys)[1..] == xs[1..] + ys;
      InsertAllConcat(if xs[0] in acc then acc else acc + [xs[0]], xs[1..], ys);
    } else {
      assert xs + ys == ys;
    }
  }

  // ---------------------------------------------------------------------------
  // Ordering of a log by phases
  // ---------------------------------------------------------------------------

  /** The children come in non-decreasing phase. */
  predicate InPhaseOrder(log: seq<Child>, phase: Child -> nat)
  {
    forall i, j :: 0 <= i < j < |log| ==> phase(log[i]) <= phase(log[j])
  }

  /** The log is in phase order and reaches no further than phase `p`. */
  predicate OrderedUpTo(log: seq<Child>, phase: Child -> nat, p: nat)
    decreases |log|
  {
    log == [] || (phase(log[|log| - 1]) <= p && OrderedUpTo(log[..|log| - 1], phase, phase(log[|log| - 1])))
  }

  lemma {:induction false} OrderedUpToLater(log: seq<Child>, phase: Child -> nat, p: nat, q: nat)
    requires OrderedUpTo(log, phase, p) && p <= q
    ensures OrderedUpTo(log, phase, q)
  {
  }

  /** What the ordering means: children in non-decreasing phase, none beyond `p`. */
  lemma {:induction false} OrderedUpToMeans(log: seq<Child>, phase: Child -> nat, p: nat)
    requires OrderedUpTo(log, phase, p)
    ensures InPhaseOrder(log, phase) && forall c :: c in log ==> phase(c) <= p
  {
    if log != [] {
      var n := |log| - 1;
      var front := log[..n];
      OrderedUpToMeans(front, phase, phase(log[n]));
      forall i, j | 0 <= i < j < |log| ensures phase(log[i]) <= phase(log[j]) {
        assert log[i] == front[i];
        if j < n {
          assert log[j] == front[j];
        } else {
          assert front[i] in front;
        }
      }
      forall c | c in log ensures phase(c) <= p {
        var k :| 0 <= k < |log| && log[k] == c;
        if k < n { assert front[k] == c && front[k] in front; }
      }
    }
  }

  /** Appending a block of phase `q` to a log ordered up to an earlier phase. */
  lemma {:induction false} OrderedAppend(log: seq<Child>, block: seq<Child>, phase: Child -> nat, p: nat, q: nat)
    requires OrderedUpTo(log, phase, p) && p <= q
    requires forall c :: c in block ==> phase(c) == q
    ensures OrderedUpTo(log + block, phase, q)
  {
    if block == [] {
      assert log + block == log;
      OrderedUpToLater(log, phase, p, q);
    } else {
      var n := |block| - 1;
      assert block[..n] + [block[n]] == block;
      assert forall c :: c in block[..n] ==> c in block;
      OrderedAppend(log, block[..n], phase, p, q);
      assert (log + block)[..|log + block| - 1] == log + block[..n];
    }
  }
}
