/**
 * Combining everything under a schematic net point: the net signals of all
 * segments of the points and lines at the point's position and of the pins
 * there are merged into one resulting net signal, all other points there
 * are merged into the point, a single pin there is attached to the point,
 * and every line passing through the point is split in two at it.
 *
 * The items at the position are what the page's hit tests return; they
 * are inputs here (`points`, `lines`, `pins`), and so are the lines at the
 * position after the merges (`linesAfter`) and the lines registered at the
 * point when the pin is attached (`pointLines`), both read again by the
 * command once earlier children have run.
 */
module CombineAllCmd {
  import opened Base
  import opened Items
  import opened Children

  // ---------------------------------------------------------------------------
  // Collecting segments, net signals and forced names
  // ---------------------------------------------------------------------------

  function PointSegments(points: seq<NetPoint>): seq<NetSegment>
  {
    if points == [] then [] else [points[0].segment] + PointSegments(points[1..])
  }

  lemma {:induction false} PointSegmentsHas(points: seq<NetPoint>, g: NetSegment)
    ensures g in PointSegments(points) <==> exists p :: p in points && p.segment == g
  {
    if points != [] {
      PointSegmentsHas(points[1..], g);
      assert points == [points[0]] + points[1..];
    }
  }

  function LineSegments(lines: seq<NetLine>): seq<NetSegment>
  {
    if lines == [] then [] else [lines[0].segment] + LineSegments(lines[1..])
  }

  lemma {:induction false} LineSegmentsHas(lines: seq<NetLine>, g: NetSegment)
    ensures g in LineSegments(lines) <==> exists l :: l in lines && l.segment == g
  {
    if lines != [] {
      LineSegmentsHas(lines[1..], g);
      assert lines == [lines[0]] + lines[1..];
    }
  }

  /** The net signals of the points' segments, in order. */
  function PointSignals(points: seq<NetPoint>): seq<NetSignal>
    reads set p | p in points :: p.segment
  {
    if points == [] then [] else [points[0].segment.netSignal] + PointSignals(points[1..])
  }

  lemma {:induction false} PointSignalsHas(points: seq<NetPoint>, s: NetSignal)
    ensures s in PointSignals(points) <==> exists p :: p in points && p.segment.netSignal == s
  {
    if points != [] {
      PointSignalsHas(points[1..], s);
      assert points == [points[0]] + points[1..];
    }
  }

  /** The net signals of the lines' segments, in order. */
  function LineSignals(lines: seq<NetLine>): seq<NetSignal>
    reads set l | l in lines :: l.segment
  {
    if lines == [] then [] else [lines[0].segment.netSignal] + LineSignals(lines[1..])
  }

  lemma {:induction false} LineSignalsHas(lines: seq<NetLine>, s: NetSignal)
    ensures s in LineSignals(lines) <==> exists l :: l in lines && l.segment.netSignal == s
  {
    if lines != [] {
      LineSignalsHas(lines[1..], s);
      assert lines == [lines[0]] + lines[1..];
    }
  }

  /** The net signal of the component signal behind a pin, if it has one. */
  function PinSignal(c: Circuit, pin: SymbolPin): (r: seq<NetSignal>)
    ensures |r| <= 1 && forall s :: s in r <==> c.pinNetSignal(pin) == Some(s)
  {
    if c.pinNetSignal(pin).Some? then [c.pinNetSignal(pin).value] else []
  }

  function PinSignals(c: Circuit, pins: seq<SymbolPin>): seq<NetSignal>
  {
    if pins == [] then [] else PinSignal(c, pins[0]) + PinSignals(c, pins[1..])
  }

  lemma {:induction false} PinSignalsHas(c: Circuit, pins: seq<SymbolPin>, s: NetSignal)
    ensures s in PinSignals(c, pins) <==> exists pin :: pin in pins && c.pinNetSignal(pin) == Some(s)
  {
    if pins != [] {
      PinSignalsHas(c, pins[1..], s);
      assert pins == [pins[0]] + pins[1..];
    }
  }

  /** `name` is the forced net name of the component signal behind `pin`. */
  predicate PinForces(c: Circuit, pin: SymbolPin, name: string)
  {
    c.pinCmpSig(pin).Some? && c.cmpSigForcedName(c.pinCmpSig(pin).value) == Some(name)
  }

  /** The forced net name of the component signal behind a pin, if it has one. */
  function PinForcedName(c: Circuit, pin: SymbolPin): (r: seq<string>)
    ensures |r| <= 1 && forall n :: n in r <==> PinForces(c, pin, n)
  {
    var cs := c.pinCmpSig(pin);
    if cs.Some? && c.cmpSigForcedName(cs.value).Some? then [c.cmpSigForcedName(cs.value).value] else []
  }

  function PinForcedNames(c: Circuit, pins: seq<SymbolPin>): seq<string>
  {
    if pins == [] then [] else PinForcedName(c, pins[0]) + PinForcedNames(c, pins[1..])
  }

  lemma {:induction false} PinForcedNamesHas(c: Circuit, pins: seq<SymbolPin>, name: string)
    ensures name in PinForcedNames(c, pins) <==> exists pin :: pin in pins && PinForces(c, pin, name)
  {
    if pins != [] {
      PinForcedNamesHas(c, pins[1..], name);
      assert pins == [pins[0]] + pins[1..];
    }
  }

  /** The name of a net signal, if it is forced. */
  function SignalForcedName(c: Circuit, s: NetSignal): (r: seq<string>)
    ensures |r| <= 1 && forall n :: n in r <==> c.signalNameForced(s) && c.signalName(s) == n
  {
    if c.signalNameForced(s) then [c.signalName(s)] else []
  }

  function SignalForcedNames(c: Circuit, sigs: seq<NetSignal>): seq<string>
  {
    if sigs == [] then [] else SignalForcedName(c, sigs[0]) + SignalForcedNames(c, sigs[1..])
  }

  lemma {:induction false} SignalForcedNamesHas(c: Circuit, sigs: seq<NetSignal>, name: string)
    ensures name in SignalForcedNames(c, sigs) <==> exists s :: s in sigs && c.signalNameForced(s) && c.signalName(s) == name
  {
    if sigs != [] {
      SignalForcedNamesHas(c, sigs[1..], name);
      assert sigs == [sigs[0]] + sigs[1..];
    }
  }

  /** Inserting at most one element: appended when new. */
  lemma InsertStep<T>(acc: seq<T>, head: seq<T>, rest: seq<T>)
    requires |head| <= 1
    ensures InsertAll(acc, head + rest) == InsertAll(if head == [] || head[0] in acc then acc else acc + head, rest)
  {
    InsertAllConcat(acc, head, rest);
    if head != [] {
      var next := if head[0] in acc then acc else acc + head;
      assert head[1..] == [] && acc + [head[0]] == acc + head;
      assert InsertAll(acc, head) == InsertAll(next, []) == next;
    } else {
      assert head + rest == rest;
    }
  }

  /** What the collection loops gather: segments, net signals and forced names, each once. */
  datatype Gathered = Gathered(segments: seq<NetSegment>, signals: seq<NetSignal>, forcedNames: seq<string>)

  function Gather(c: Circuit, points: seq<NetPoint>, lines: seq<NetLine>, pins: seq<SymbolPin>): Gathered
    reads set p | p in points :: p.segment, set l | l in lines :: l.segment
  {
    var signals := InsertAll(InsertAll([], PointSignals(points) + LineSignals(lines)), PinSignals(c, pins));
    Gathered(InsertAll([], PointSegments(points) + LineSegments(lines)), signals,
             InsertAll(InsertAll([], PinForcedNames(c, pins)), SignalForcedNames(c, signals)))
  }

  /**
   * The collected lists hold no repetitions: the segments of the points and
   * lines, the net signals of those segments and of the pins' component
   * signals, and the forced names of those component signals and of the
   * collected net signals.
   */
  lemma GatherHas(c: Circuit, points: seq<NetPoint>, lines: seq<NetLine>, pins: seq<SymbolPin>)
    ensures var g := Gather(c, points, lines, pins);
            Distinct(g.segments) && Distinct(g.signals) && Distinct(g.forcedNames)
            && (forall seg :: seg in g.segments <==>
                  (exists p :: p in points && p.segment == seg) || (exists l :: l in lines && l.segment == seg))
            && (forall s :: s in g.signals <==>
                  (exists p :: p in points && p.segment.netSignal == s) || (exists l :: l in lines && l.segment.netSignal == s)
                  || (exists pin :: pin in pins && c.pinNetSignal(pin) == Some(s)))
            && (forall n :: n in g.forcedNames <==>
                  (exists pin :: pin in pins && PinForces(c, pin, n))
                  || (exists s :: s in g.signals && c.signalNameForced(s) && c.signalName(s) == n))
  {
    SegmentsCollected(points, lines);
    SignalsCollected(c, points, lines, pins);
    ForcedCollected(c, Gather(c, points, lines, pins).signals, pins);
  }

  lemma SegmentsCollected(points: seq<NetPoint>, lines: seq<NetLine>)
    ensures var segs := InsertAll([], PointSegments(points) + LineSegments(lines));
            Distinct(segs)
            && forall seg :: seg in segs <==> (exists p :: p in points && p.segment == seg) || (exists l :: l in lines && l.segment == seg)
  {
    InsertAllElements([], PointSegments(points) + LineSegments(lines));
    forall seg ensures seg in PointSegments(points) + LineSegments(lines) <==>
                 (exists p :: p in points && p.segment == seg) || (exists l :: l in lines && l.segment == seg)
    {
      PointSegmentsHas(points, seg);
      LineSegmentsHas(lines, seg);
    }
  }

  lemma SignalsCollected(c: Circuit, points: seq<NetPoint>, lines: seq<NetLine>, pins: seq<SymbolPin>)
    ensures var sigs := InsertAll(InsertAll([], PointSignals(points) + LineSignals(lines)), PinSignals(c, pins));
            Distinct(sigs)
            && forall s :: s in sigs <==>
                 (exists p :: p in points && p.segment.netSignal == s) || (exists l :: l in lines && l.segment.netSignal == s)
                 || (exists pin :: pin in pins && c.pinNetSignal(pin) == Some(s))
  {
    var first := PointSignals(points) + LineSignals(lines);
    InsertAllElements([], first);
    InsertAllElements(InsertAll([], first), PinSignals(c, pins));
    forall s ensures s in first <==> (exists p :: p in points && p.segment.netSignal == s) || (exists l :: l in lines && l.segment.netSignal == s) {
      PointSignalsHas(points, s);
      LineSignalsHas(lines, s);
    }
    forall s ensures s in PinSignals(c, pins) <==> exists pin :: pin in pins && c.pinNetSignal(pin) == Some(s) {
      PinSignalsHas(c, pins, s);
    }
  }

  lemma ForcedCollected(c: Circuit, sigs: seq<NetSignal>, pins: seq<SymbolPin>)
    ensures var forced := InsertAll(InsertAll([], PinForcedNames(c, pins)), SignalForcedNames(c, sigs));
            Distinct(forced)
            && forall n :: n in forced <==>
                 (exists pin :: pin in pins && PinForces(c, pin, n)) || (exists s :: s in sigs && c.signalNameForced(s) && c.signalName(s) == n)
  {
    InsertAllElements([], PinForcedNames(c, pins));
    InsertAllElements(InsertAll([], PinForcedNames(c, pins)), SignalForcedNames(c, sigs));
    forall n ensures n in PinForcedNames(c, pins) <==> exists pin :: pin in pins && PinForces(c, pin, n) {
      PinForcedNamesHas(c, pins, n);
    }
    forall n ensures n in SignalForcedNames(c, sigs) <==> exists s :: s in sigs && c.signalNameForced(s) && c.signalName(s) == n {
      SignalForcedNamesHas(c, sigs, n);
    }
  }

  // ---------------------------------------------------------------------------
  // The resulting net signal
  // ---------------------------------------------------------------------------

  /**
   * The name of the resulting net signal: the point's own signal's name when
   * no name is forced, the forced name when there is one, and an error when
   * several different names are forced.
   */
  function ResultName(c: Circuit, forcedNames: seq<string>, pointSignal: NetSignal): (r: Result<string>)
    ensures r.Err? <==> |forcedNames| > 1
    ensures r.Err? ==> r.error == RuntimeError
    ensures |forcedNames| == 0 ==> r == Ok(c.signalName(pointSignal))
    ensures |forcedNames| == 1 ==> r == Ok(forcedNames[0]) && r.value in forcedNames
  {
    if |forcedNames| == 0 then Ok(c.signalName(pointSignal))
    else if |forcedNames| == 1 then Ok(forcedNames[0])
    else Err(RuntimeError)
  }

  /** The net signal with that name; when there is none, the point's own signal, renamed. */
  function ResultSignal(c: Circuit, name: string, pointSignal: NetSignal): NetSignal
  {
    if c.signalByName(name).Some? then c.signalByName(name).value else pointSignal
  }

  function Rename(c: Circuit, name: string, pointSignal: NetSignal): seq<Child>
  {
    if c.signalByName(name).Some? then [] else [NetSignalRename(pointSignal, name, false)]
  }

  /**
   * The resulting signal carries the resolved name: either a net signal of
   * that name exists (with a circuit whose lookup by name is consistent) and
   * nothing is renamed, or the point's signal is renamed to it without forcing.
   */
  lemma ResultSignalNamed(c: Circuit, name: string, pointSignal: NetSignal)
    requires forall n, s :: c.signalByName(n) == Some(s) ==> c.signalName(s) == n
    ensures var r := ResultSignal(c, name, pointSignal);
            (Rename(c, name, pointSignal) == [] && c.signalName(r) == name)
            || (Rename(c, name, pointSignal) == [NetSignalRename(r, name, false)] && r == pointSignal)
  {
  }

  // ---------------------------------------------------------------------------
  // The children
  // ---------------------------------------------------------------------------

  /** Each collected net signal other than the result merged into it. */
  function SignalMerges(sigs: seq<NetSignal>, result: NetSignal): seq<Child>
  {
    if sigs == [] then []
    else SignalMerges(sigs[..|sigs| - 1], result)
         + (if sigs[|sigs| - 1] != result then [CombineNetSignals(sigs[|sigs| - 1], result)] else [])
  }

  lemma {:induction false} SignalMergesHas(sigs: seq<NetSignal>, result: NetSignal, c: Child)
    ensures c in SignalMerges(sigs, result) <==> c.CombineNetSignals? && c.result == result && c.toBeRemoved in sigs && c.toBeRemoved != result
  {
    if sigs != [] {
      SignalMergesHas(sigs[..|sigs| - 1], result, c);
      assert sigs == sigs[..|sigs| - 1] + [sigs[|sigs| - 1]];
    }
  }

  /** Each other point at the position merged into the point. */
  function PointMerges(points: seq<NetPoint>, point: NetPoint): seq<Child>
  {
    if points == [] then []
    else PointMerges(points[..|points| - 1], point)
         + (if points[|points| - 1] != point then [CombineNetPoints(points[|points| - 1], point)] else [])
  }

  lemma {:induction false} PointMergesHas(points: seq<NetPoint>, point: NetPoint, c: Child)
    ensures c in PointMerges(points, point) <==>
              c.CombineNetPoints? && c.resultingPoint == point && c.pointToBeRemoved in points && c.pointToBeRemoved != point
  {
    if points != [] {
      PointMergesHas(points[..|points| - 1], point, c);
      assert points == points[..|points| - 1] + [points[|points| - 1]];
    }
  }

  /** Taking a line off its segment. */
  function LineRemoval(l: NetLine): Child
  {
    RemoveElements(l.segment, [], [l])
  }

  /** Putting a line back into its segment. */
  function LineReadd(l: NetLine): Child
  {
    AddElements(ExistingSegment(l.segment), [], [KeepLine(l)])
  }

  /** The point's lines taken off, in order. */
  function LinesDetach(lines: seq<NetLine>): seq<Child>
  {
    seq(|lines|, i requires 0 <= i < |lines| => LineRemoval(lines[i]))
  }

  /** The same lines put back, in order. */
  function LinesReattach(lines: seq<NetLine>): seq<Child>
  {
    seq(|lines|, i requires 0 <= i < |lines| => LineReadd(lines[i]))
  }

  /** Children run before and error thrown at one stage of the command. */
  datatype Stage = Stage(children: seq<Child>, abort: Option<ErrorKind>)

  /**
   * The net signal of a component signal once the merges have run: merging
   * a net signal moves all of its component signals to the result, so one
   * that was on a merged net signal is on the result now.
   */
  function SignalAfterMerges(c: Circuit, cs: ComponentSignal, signals: seq<NetSignal>, result: NetSignal): Option<NetSignal>
  {
    var s := c.cmpSigNetSignal(cs);
    if s.Some? && s.value in signals then Some(result) else s
  }

  /** The pin's component signal moved to the result, unless it is there once the merges have run. */
  function CmpSigMove(c: Circuit, cs: ComponentSignal, signals: seq<NetSignal>, result: NetSignal): seq<Child>
  {
    if SignalAfterMerges(c, cs, signals, result) != Some(result) then [CompSigSetNetSignal(cs, Some(result))] else []
  }

  /**
   * The pin stage. With exactly one pin at the position that the point is
   * not on yet: an unattached point gets it (the pin's component signal is
   * moved to the result if needed, the point's lines are taken off, the pin
   * is set, the same lines are put back); a point on another pin is an
   * error. Several pins are an error too.
   */
  function AttachStage(c: Circuit, point: NetPoint, pins: seq<SymbolPin>, signals: seq<NetSignal>, result: NetSignal, pointLines: seq<NetLine>): Stage
    requires |pins| == 1 && point.pin.None? ==> c.pinCmpSig(pins[0]).Some?
    reads point
  {
    if |pins| == 1 then
      if point.pin == Some(pins[0]) then Stage([], None)
      else if point.pin.None? then
        Stage(CmpSigMove(c, c.pinCmpSig(pins[0]).value, signals, result)
              + LinesDetach(pointLines) + [NetPointSetPin(point, Some(pins[0]))] + LinesReattach(pointLines), None)
      else Stage([], Some(RuntimeError))
    else if |pins| > 1 then Stage([], Some(RuntimeError))
    else Stage([], None)
  }

  /** The two halves of a line, from its start to the point and from the point to its end. */
  function Halves(l: NetLine, point: NetPoint): Child
  {
    AddElements(ExistingSegment(l.segment), [], [LineBetween(Existing(l.start), Existing(point)), LineBetween(Existing(point), Existing(l.end))])
  }

  /** A line through the point but not ending at it: its halves added, then the line removed. */
  function Split(l: NetLine, point: NetPoint): seq<Child>
  {
    if l.start != point && l.end != point then [Halves(l, point), LineRemoval(l)] else []
  }

  function Splits(lines: seq<NetLine>, point: NetPoint): seq<Child>
  {
    if lines == [] then [] else Splits(lines[..|lines| - 1], point) + Split(lines[|lines| - 1], point)
  }

  lemma {:induction false} SplitsHas(lines: seq<NetLine>, point: NetPoint, c: Child)
    ensures c in Splits(lines, point) <==> exists l :: l in lines && c in Split(l, point)
  {
    if lines != [] {
      SplitsHas(lines[..|lines| - 1], point, c);
      assert lines == lines[..|lines| - 1] + [lines[|lines| - 1]];
    }
  }

  lemma {:induction false} SplitsConcat(a: seq<NetLine>, b: seq<NetLine>, point: NetPoint)
    ensures Splits(a + b, point) == Splits(a, point) + Splits(b, point)
  {
    if b == [] {
      assert a + b == a;
    } else {
      assert (a + b)[..|a + b| - 1] == a + b[..|b| - 1];
      SplitsConcat(a, b[..|b| - 1], point);
    }
  }

  /** What the command needs to be run on: the point and what is found at its position. */
  predicate Runnable(c: Circuit, point: NetPoint, pins: seq<SymbolPin>)
    reads point
  {
    |pins| == 1 && point.pin.None? ==> c.pinCmpSig(pins[0]).Some?
  }

  /** Everything up to the pin stage: the rename, if any, and the merges. */
  function Merged(c: Circuit, point: NetPoint, points: seq<NetPoint>, signals: seq<NetSignal>, name: string): seq<Child>
    reads point, point.segment
  {
    var pointSignal := point.segment.netSignal;
    var result := ResultSignal(c, name, pointSignal);
    Rename(c, name, pointSignal) + SignalMerges(signals, result) + PointMerges(points, point)
  }

  /**
   * The composite once the resulting name is known. The pin stage may throw
   * after the merges; otherwise the unused net signals are cleaned up when
   * anything was done, and it returns whether anything was.
   */
  function ResolvedPlan(c: Circuit, point: NetPoint, points: seq<NetPoint>, pins: seq<SymbolPin>,
                        pointLines: seq<NetLine>, linesAfter: seq<NetLine>, signals: seq<NetSignal>, name: string): Plan
    requires Runnable(c, point, pins)
    reads point, point.segment
  {
    var merged := Merged(c, point, points, signals, name);
    var attach := AttachStage(c, point, pins, signals, ResultSignal(c, name, point.segment.netSignal), pointLines);
    if attach.abort.Some? then Plan(merged, attach.abort, false)
    else
      var done := merged + attach.children + Splits(linesAfter, point);
      if done == [] then Plan([], None, false) else Plan(done + [RemoveUnusedNetSignals], None, true)
  }

  /** The composite: too many forced names throw before any child. */
  function CombineAllPlan(c: Circuit, point: NetPoint, points: seq<NetPoint>, lines: seq<NetLine>, pins: seq<SymbolPin>,
                          pointLines: seq<NetLine>, linesAfter: seq<NetLine>): Plan
    requires Runnable(c, point, pins)
    reads point, point.segment, set p | p in points :: p.segment, set l | l in lines :: l.segment
  {
    var g := Gather(c, points, lines, pins);
    var name := ResultName(c, g.forcedNames, point.segment.netSignal);
    if name.Err? then Plan([], Some(name.error), false)
    else ResolvedPlan(c, point, points, pins, pointLines, linesAfter, g.signals, name.value)
  }

  // ---------------------------------------------------------------------------
  // Properties
  // ---------------------------------------------------------------------------

  /** Neither the rename nor the merges clean up net signals. */
  lemma MergedNoCleanup(c: Circuit, point: NetPoint, points: seq<NetPoint>, signals: seq<NetSignal>, name: string)
    ensures RemoveUnusedNetSignals !in Merged(c, point, points, signals, name)
  {
    var result := ResultSignal(c, name, point.segment.netSignal);
    SignalMergesHas(signals, result, RemoveUnusedNetSignals);
    PointMergesHas(points, point, RemoveUnusedNetSignals);
  }

  /** It returns true exactly when it ran children; then the clean-up of unused net signals is the last. */
  lemma CombineAllResult(c: Circuit, point: NetPoint, points: seq<NetPoint>, lines: seq<NetLine>, pins: seq<SymbolPin>,
                         pointLines: seq<NetLine>, linesAfter: seq<NetLine>)
    requires Runnable(c, point, pins)
    ensures var p := CombineAllPlan(c, point, points, lines, pins, pointLines, linesAfter);
            (p.abort.None? ==> (p.result <==> p.children != []))
            && (p.abort.None? && p.children != [] ==> p.children[|p.children| - 1] == RemoveUnusedNetSignals)
            && (p.abort.Some? ==> p.abort == Some(RuntimeError) && !p.result && RemoveUnusedNetSignals !in p.children)
  {
    var g := Gather(c, points, lines, pins);
    var name := ResultName(c, g.forcedNames, point.segment.netSignal);
    if name.Ok? {
      MergedNoCleanup(c, point, points, g.signals, name.value);
    }
  }

  /**
   * The error cases: several forced names throw before any child; more than
   * one pin, or one pin while the point sits on another, throws after the
   * merges; nothing else throws.
   */
  lemma CombineAllErrors(c: Circuit, point: NetPoint, points: seq<NetPoint>, lines: seq<NetLine>, pins: seq<SymbolPin>,
                         pointLines: seq<NetLine>, linesAfter: seq<NetLine>)
    requires Runnable(c, point, pins)
    ensures var p := CombineAllPlan(c, point, points, lines, pins, pointLines, linesAfter);
            var g := Gather(c, points, lines, pins);
            (|g.forcedNames| > 1 ==> p == Plan([], Some(RuntimeError), false))
            && (|g.forcedNames| <= 1 && p.abort.Some? ==>
                  p.children == Merged(c, point, points, g.signals, ResultName(c, g.forcedNames, point.segment.netSignal).value))
            && (p.abort.Some? <==> |g.forcedNames| > 1 || |pins| > 1 || (|pins| == 1 && point.pin.Some? && point.pin != Some(pins[0])))
  {
  }

  lemma {:induction false} SplitsKinds(lines: seq<NetLine>, point: NetPoint)
    ensures forall x :: x in Splits(lines, point) ==> x.AddElements? || x.RemoveElements?
  {
    if lines != [] {
      SplitsKinds(lines[..|lines| - 1], point);
    }
  }

  /** No merge child comes from renaming, the pin stage or the splits. */
  lemma MergesOnlyThere(c: Circuit, point: NetPoint, pins: seq<SymbolPin>, signals: seq<NetSignal>, result: NetSignal, pointLines: seq<NetLine>,
                        linesAfter: seq<NetLine>, name: string)
    requires Runnable(c, point, pins)
    ensures forall x :: x in Rename(c, name, point.segment.netSignal) ==> !x.CombineNetSignals? && !x.CombineNetPoints?
    ensures forall x :: x in AttachStage(c, point, pins, signals, result, pointLines).children ==> !x.CombineNetSignals? && !x.CombineNetPoints?
    ensures forall x :: x in Splits(linesAfter, point) ==> !x.CombineNetSignals? && !x.CombineNetPoints?
  {
    SplitsKinds(linesAfter, point);
  }

  /** The children of the resolved composite are those of its stages. */
  lemma ResolvedMembers(c: Circuit, point: NetPoint, points: seq<NetPoint>, pins: seq<SymbolPin>,
                        pointLines: seq<NetLine>, linesAfter: seq<NetLine>, signals: seq<NetSignal>, name: string)
    requires Runnable(c, point, pins)
    ensures var p := ResolvedPlan(c, point, points, pins, pointLines, linesAfter, signals, name);
            var merged := Merged(c, point, points, signals, name);
            var attach := AttachStage(c, point, pins, signals, ResultSignal(c, name, point.segment.netSignal), pointLines);
            (forall x :: x in merged ==> x in p.children)
            && (forall x :: x in p.children ==> x in merged || x in attach.children || x in Splits(linesAfter, point) || x == RemoveUnusedNetSignals)
  {
  }

  /** Which merge children the resolved composite holds. */
  lemma ResolvedMerges(c: Circuit, point: NetPoint, points: seq<NetPoint>, pins: seq<SymbolPin>,
                       pointLines: seq<NetLine>, linesAfter: seq<NetLine>, signals: seq<NetSignal>, name: string)
    requires Runnable(c, point, pins)
    ensures var p := ResolvedPlan(c, point, points, pins, pointLines, linesAfter, signals, name);
            var result := ResultSignal(c, name, point.segment.netSignal);
            (forall s :: CombineNetSignals(s, result) in p.children <==> s in signals && s != result)
            && (forall x :: x in p.children && x.CombineNetSignals? ==> x.result == result)
            && (forall q :: CombineNetPoints(q, point) in p.children <==> q in points && q != point)
            && (forall x :: x in p.children && x.CombineNetPoints? ==> x.resultingPoint == point)
  {
    var pointSignal := point.segment.netSignal;
    var result := ResultSignal(c, name, pointSignal);
    var sm := SignalMerges(signals, result);
    var pm := PointMerges(points, point);
    var p := ResolvedPlan(c, point, points, pins, pointLines, linesAfter, signals, name);
    MergesOnlyThere(c, point, pins, signals, result, pointLines, linesAfter, name);
    ResolvedMembers(c, point, points, pins, pointLines, linesAfter, signals, name);
    assert Merged(c, point, points, signals, name) == Rename(c, name, pointSignal) + sm + pm;
    forall x | x in p.children && (x.CombineNetSignals? || x.CombineNetPoints?) ensures x in sm || x in pm {
      assert x in Merged(c, point, points, signals, name);
    }
    forall s ensures CombineNetSignals(s, result) in p.children <==> s in signals && s != result {
      SignalMergesHas(signals, result, CombineNetSignals(s, result));
      PointMergesHas(points, point, CombineNetSignals(s, result));
    }
    forall x | x in p.children && x.CombineNetSignals? ensures x.result == result {
      SignalMergesHas(signals, result, x);
      PointMergesHas(points, point, x);
    }
    forall q ensures CombineNetPoints(q, point) in p.children <==> q in points && q != point {
      SignalMergesHas(signals, result, CombineNetPoints(q, point));
      PointMergesHas(points, point, CombineNetPoints(q, point));
    }
    forall x | x in p.children && x.CombineNetPoints? ensures x.resultingPoint == point {
      SignalMergesHas(signals, result, x);
      PointMergesHas(points, point, x);
    }
  }

  /**
   * Once the name is resolved: every collected net signal other than the
   * result is merged into the result, and every other point at the position
   * into the point; no other merges happen.
   */
  lemma CombineAllMerges(c: Circuit, point: NetPoint, points: seq<NetPoint>, lines: seq<NetLine>, pins: seq<SymbolPin>,
                         pointLines: seq<NetLine>, linesAfter: seq<NetLine>)
    requires Runnable(c, point, pins)
    requires |Gather(c, points, lines, pins).forcedNames| <= 1
    ensures var p := CombineAllPlan(c, point, points, lines, pins, pointLines, linesAfter);
            var g := Gather(c, points, lines, pins);
            var result := ResultSignal(c, ResultName(c, g.forcedNames, point.segment.netSignal).value, point.segment.netSignal);
            (forall s :: CombineNetSignals(s, result) in p.children <==> s in g.signals && s != result)
            && (forall x :: x in p.children && x.CombineNetSignals? ==> x.result == result)
            && (forall q :: CombineNetPoints(q, point) in p.children <==> q in points && q != point)
            && (forall x :: x in p.children && x.CombineNetPoints? ==> x.resultingPoint == point)
  {
    var g := Gather(c, points, lines, pins);
    ResolvedMerges(c, point, points, pins, pointLines, linesAfter, g.signals,
                   ResultName(c, g.forcedNames, point.segment.netSignal).value);
  }

  /**
   * Attaching the single pin: the point's lines are all taken off before
   * the pin is set, and the same lines are put back after it, in the same
   * order; the pin's component signal is moved first exactly when the merges
   * have left it on no net signal or on one that is neither merged nor the
   * result.
   */
  lemma AttachOrder(c: Circuit, point: NetPoint, pins: seq<SymbolPin>, signals: seq<NetSignal>, result: NetSignal, pointLines: seq<NetLine>)
    requires |pins| == 1 && point.pin.None? && c.pinCmpSig(pins[0]).Some?
    ensures AttachStage(c, point, pins, signals, result, pointLines).abort.None?
    ensures var h := |CmpSigMove(c, c.pinCmpSig(pins[0]).value, signals, result)|;
            |AttachStage(c, point, pins, signals, result, pointLines).children| == h + 2 * |pointLines| + 1
    ensures var h := |CmpSigMove(c, c.pinCmpSig(pins[0]).value, signals, result)|;
            var s := c.cmpSigNetSignal(c.pinCmpSig(pins[0]).value);
            (h == 1 <==> s.None? || (s.value !in signals && s.value != result))
            && (h == 1 ==> AttachStage(c, point, pins, signals, result, pointLines).children[0] == CompSigSetNetSignal(c.pinCmpSig(pins[0]).value, Some(result)))
    ensures var st := AttachStage(c, point, pins, signals, result, pointLines);
            var h := |CmpSigMove(c, c.pinCmpSig(pins[0]).value, signals, result)|;
            forall i :: 0 <= i < |pointLines| ==> st.children[h + i] == LineRemoval(pointLines[i])
    ensures var st := AttachStage(c, point, pins, signals, result, pointLines);
            var h := |CmpSigMove(c, c.pinCmpSig(pins[0]).value, signals, result)|;
            st.children[h + |pointLines|] == NetPointSetPin(point, Some(pins[0]))
    ensures var st := AttachStage(c, point, pins, signals, result, pointLines);
            var h := |CmpSigMove(c, c.pinCmpSig(pins[0]).value, signals, result)|;
            forall i :: 0 <= i < |pointLines| ==> st.children[h + |pointLines| + 1 + i] == LineReadd(pointLines[i])
  {
    var head := CmpSigMove(c, c.pinCmpSig(pins[0]).value, signals, result);
    AttachShape(c, point, pins, signals, result, pointLines);
    Blocks(head, LinesDetach(pointLines), NetPointSetPin(point, Some(pins[0])), LinesReattach(pointLines), pointLines);
  }

  lemma AttachShape(c: Circuit, point: NetPoint, pins: seq<SymbolPin>, signals: seq<NetSignal>, result: NetSignal, pointLines: seq<NetLine>)
    requires |pins| == 1 && point.pin.None? && c.pinCmpSig(pins[0]).Some?
    ensures AttachStage(c, point, pins, signals, result, pointLines)
            == Stage(CmpSigMove(c, c.pinCmpSig(pins[0]).value, signals, result) + LinesDetach(pointLines)
                     + [NetPointSetPin(point, Some(pins[0]))] + LinesReattach(pointLines), None)
  {
  }

  /**
   * The net signal a pin reports is that of its component signal, and it is
   * among the collected net signals that get merged into the result. So the
   * pin stage moves the component signal exactly when it was on no net
   * signal at all.
   */
  lemma PinMoveOnlyWhenUnassigned(c: Circuit, points: seq<NetPoint>, lines: seq<NetLine>, pins: seq<SymbolPin>, result: NetSignal)
    requires |pins| == 1 && c.pinCmpSig(pins[0]).Some?
    requires c.pinNetSignal(pins[0]) == c.cmpSigNetSignal(c.pinCmpSig(pins[0]).value)
    ensures var cs := c.pinCmpSig(pins[0]).value;
            CmpSigMove(c, cs, Gather(c, points, lines, pins).signals, result)
            == if c.cmpSigNetSignal(cs).None? then [CompSigSetNetSignal(cs, Some(result))] else []
  {
    GatherHas(c, points, lines, pins);
    assert pins[0] in pins;
  }

  /** Positions in a sequence made of a head, the removals of some lines, a middle child and their re-additions. */
  lemma Blocks(head: seq<Child>, d: seq<Child>, m: Child, a: seq<Child>, lines: seq<NetLine>)
    requires |d| == |lines| && |a| == |lines|
    requires forall i :: 0 <= i < |lines| ==> d[i] == LineRemoval(lines[i])
    requires forall i :: 0 <= i < |lines| ==> a[i] == LineReadd(lines[i])
    ensures var all := head + d + [m] + a;
            var h := |head|;
            var n := |lines|;
            |all| == h + 2 * n + 1
            && (forall i :: 0 <= i < h ==> all[i] == head[i])
            && (forall i :: 0 <= i < n ==> all[h + i] == LineRemoval(lines[i]))
            && all[h + n] == m
            && (forall i :: 0 <= i < n ==> all[h + n + 1 + i] == LineReadd(lines[i]))
  {
    var all := head + d + [m] + a;
    var h := |head|;
    var n := |lines|;
    forall i | 0 <= i < n ensures all[h + i] == LineRemoval(lines[i]) {
      assert all[h + i] == d[i];
    }
    forall i | 0 <= i < n ensures all[h + n + 1 + i] == LineReadd(lines[i]) {
      assert all[h + n + 1 + i] == a[i];
    }
  }

  /**
   * The splits: exactly the lines through the point that do not end at it
   * are removed.
   */
  lemma SplitContents(lines: seq<NetLine>, point: NetPoint)
    ensures forall l :: LineRemoval(l) in Splits(lines, point) <==> l in lines && l.start != point && l.end != point
  {
    forall l ensures LineRemoval(l) in Splits(lines, point) <==> l in lines && l.start != point && l.end != point {
      SplitRemoval(lines, point, l);
    }
  }

  lemma SplitRemoval(lines: seq<NetLine>, point: NetPoint, l: NetLine)
    ensures LineRemoval(l) in Splits(lines, point) <==> l in lines && l.start != point && l.end != point
  {
    SplitsHas(lines, point, LineRemoval(l));
    if LineRemoval(l) in Splits(lines, point) {
      var m :| m in lines && LineRemoval(l) in Split(m, point);
      assert m == l;
    }
    if l in lines && l.start != point && l.end != point {
      assert LineRemoval(l) in Split(l, point);
    }
  }

  /**
   * A line through the point that does not end at it is replaced by its
   * halves, from its start to the point and from the point to its end; the
   * halves are added right before the line is removed, at the place the
   * loop reaches that line.
   */
  lemma SplitAt(lines: seq<NetLine>, k: nat, point: NetPoint)
    requires k < |lines| && lines[k].start != point && lines[k].end != point
    ensures var i := |Splits(lines[..k], point)|;
            i + 1 < |Splits(lines, point)|
            && Splits(lines, point)[i] == Halves(lines[k], point)
            && Splits(lines, point)[i + 1] == LineRemoval(lines[k])
  {
    assert lines == lines[..k] + ([lines[k]] + lines[k + 1..]);
    SplitsConcat(lines[..k], [lines[k]] + lines[k + 1..], point);
    SplitsConcat([lines[k]], lines[k + 1..], point);
    assert Splits([lines[k]], point) == Split(lines[k], point) by {
      assert [lines[k]][..0] == [];
    }
  }

  // ---------------------------------------------------------------------------
  // performExecute
  // ---------------------------------------------------------------------------

  /** Every collected segment has its net signal collected. */
  ghost predicate SignalsCovered(segs: seq<NetSegment>, sigs: seq<NetSignal>)
    reads segs
  {
    forall g :: g in segs ==> g.netSignal in sigs
  }

  /**
   * The loop over the points at the position: a segment not seen yet is
   * appended, and then its net signal if that is not there yet. This is the
   * same as collecting the segments and their net signals each on its own.
   */
  method GatherPointSegments(segs0: seq<NetSegment>, sigs0: seq<NetSignal>, points: seq<NetPoint>)
    returns (segs: seq<NetSegment>, sigs: seq<NetSignal>)
    requires SignalsCovered(segs0, sigs0)
    ensures segs == InsertAll(segs0, PointSegments(points)) && sigs == InsertAll(sigs0, PointSignals(points))
    ensures SignalsCovered(segs, sigs)
  {
    segs, sigs := segs0, sigs0;
    for i := 0 to |points|
      invariant InsertAll(segs, PointSegments(points[i..])) == InsertAll(segs0, PointSegments(points))
      invariant InsertAll(sigs, PointSignals(points[i..])) == InsertAll(sigs0, PointSignals(points))
      invariant SignalsCovered(segs, sigs)
    {
      var g := points[i].segment;
      assert points[i..][1..] == points[i + 1..];
      InsertStep(segs, [g], PointSegments(points[i + 1..]));
      InsertStep(sigs, [g.netSignal], PointSignals(points[i + 1..]));
      if g !in segs {
        segs := segs + [g];
        if g.netSignal !in sigs {
          sigs := sigs + [g.netSignal];
        }
      }
    }
    assert points[|points|..] == [];
  }

  /** The same loop over the lines at the position. */
  method GatherLineSegments(segs0: seq<NetSegment>, sigs0: seq<NetSignal>, lines: seq<NetLine>)
    returns (segs: seq<NetSegment>, sigs: seq<NetSignal>)
    requires SignalsCovered(segs0, sigs0)
    ensures segs == InsertAll(segs0, LineSegments(lines)) && sigs == InsertAll(sigs0, LineSignals(lines))
    ensures SignalsCovered(segs, sigs)
  {
    segs, sigs := segs0, sigs0;
    for i := 0 to |lines|
      invariant InsertAll(segs, LineSegments(lines[i..])) == InsertAll(segs0, LineSegments(lines))
      invariant InsertAll(sigs, LineSignals(lines[i..])) == InsertAll(sigs0, LineSignals(lines))
      invariant SignalsCovered(segs, sigs)
    {
      var g := lines[i].segment;
      assert lines[i..][1..] == lines[i + 1..];
      InsertStep(segs, [g], LineSegments(lines[i + 1..]));
      InsertStep(sigs, [g.netSignal], LineSignals(lines[i + 1..]));
      if g !in segs {
        segs := segs + [g];
        if g.netSignal !in sigs {
          sigs := sigs + [g.netSignal];
        }
      }
    }
    assert lines[|lines|..] == [];
  }

  /** The loop over the pins: their component signals' net signals and forced names. */
  method GatherPins(c: Circuit, sigs0: seq<NetSignal>, pins: seq<SymbolPin>) returns (sigs: seq<NetSignal>, forced: seq<string>)
    ensures sigs == InsertAll(sigs0, PinSignals(c, pins)) && forced == InsertAll([], PinForcedNames(c, pins))
  {
    sigs, forced := sigs0, [];
    for i := 0 to |pins|
      invariant InsertAll(sigs, PinSignals(c, pins[i..])) == InsertAll(sigs0, PinSignals(c, pins))
      invariant InsertAll(forced, PinForcedNames(c, pins[i..])) == InsertAll([], PinForcedNames(c, pins))
    {
      assert pins[i..][1..] == pins[i + 1..];
      InsertStep(sigs, PinSignal(c, pins[i]), PinSignals(c, pins[i + 1..]));
      InsertStep(forced, PinForcedName(c, pins[i]), PinForcedNames(c, pins[i + 1..]));
      var cmpSig := c.pinCmpSig(pins[i]);
      var signal := c.pinNetSignal(pins[i]);
      if signal.Some? && signal.value !in sigs {
        sigs := sigs + [signal.value];
      }
      if cmpSig.Some? && c.cmpSigForcedName(cmpSig.value).Some? {
        if c.cmpSigForcedName(cmpSig.value).value !in forced {
          forced := forced + [c.cmpSigForcedName(cmpSig.value).value];
        }
      }
    }
    assert pins[|pins|..] == [];
  }

  /** The loop adding the forced names of the collected net signals. */
  method GatherForcedNames(c: Circuit, forced0: seq<string>, sigs: seq<NetSignal>) returns (forced: seq<string>)
    ensures forced == InsertAll(forced0, SignalForcedNames(c, sigs))
  {
    forced := forced0;
    for i := 0 to |sigs|
      invariant InsertAll(forced, SignalForcedNames(c, sigs[i..])) == InsertAll(forced0, SignalForcedNames(c, sigs))
    {
      assert sigs[i..][1..] == sigs[i + 1..];
      InsertStep(forced, SignalForcedName(c, sigs[i]), SignalForcedNames(c, sigs[i + 1..]));
      if c.signalNameForced(sigs[i]) && c.signalName(sigs[i]) !in forced {
        forced := forced + [c.signalName(sigs[i])];
      }
    }
    assert sigs[|sigs|..] == [];
  }

  /** The two loops over the points and the lines at the position. */
  method CollectSegments(points: seq<NetPoint>, lines: seq<NetLine>) returns (segs: seq<NetSegment>, sigs: seq<NetSignal>)
    ensures segs == InsertAll([], PointSegments(points) + LineSegments(lines))
    ensures sigs == InsertAll([], PointSignals(points) + LineSignals(lines))
  {
    InsertAllConcat([], PointSegments(points), LineSegments(lines));
    InsertAllConcat([], PointSignals(points), LineSignals(lines));
    segs, sigs := GatherPointSegments([], [], points);
    segs, sigs := GatherLineSegments(segs, sigs, lines);
  }

  /** The collection part of performExecute. */
  method Collect(c: Circuit, points: seq<NetPoint>, lines: seq<NetLine>, pins: seq<SymbolPin>) returns (g: Gathered)
    ensures g == Gather(c, points, lines, pins)
  {
    var segs, sigs := CollectSegments(points, lines);
    var forced;
    sigs, forced := GatherPins(c, sigs, pins);
    forced := GatherForcedNames(c, forced, sigs);
    g := Gathered(segs, sigs, forced);
  }

  method AppendSignalMerges(acc: seq<Child>, sigs: seq<NetSignal>, result: NetSignal) returns (r: seq<Child>)
    ensures r == acc + SignalMerges(sigs, result)
  {
    r := acc;
    for i := 0 to |sigs|
      invariant r == acc + SignalMerges(sigs[..i], result)
    {
      assert sigs[..i + 1][..i] == sigs[..i];
      if sigs[i] != result {
        r := r + [CombineNetSignals(sigs[i], result)];
      }
    }
    assert sigs[..|sigs|] == sigs;
  }

  method AppendPointMerges(acc: seq<Child>, points: seq<NetPoint>, point: NetPoint) returns (r: seq<Child>)
    ensures r == acc + PointMerges(points, point)
  {
    r := acc;
    for i := 0 to |points|
      invariant r == acc + PointMerges(points[..i], point)
    {
      assert points[..i + 1][..i] == points[..i];
      if points[i] != point {
        r := r + [CombineNetPoints(points[i], point)];
      }
    }
    assert points[..|points|] == points;
  }

  method AppendLinesDetach(acc: seq<Child>, lines: seq<NetLine>) returns (r: seq<Child>)
    ensures r == acc + LinesDetach(lines)
  {
    r := acc;
    for i := 0 to |lines|
      invariant r == acc + LinesDetach(lines[..i])
    {
      assert LinesDetach(lines[..i + 1]) == LinesDetach(lines[..i]) + [LineRemoval(lines[i])];
      r := r + [RemoveElements(lines[i].segment, [], [lines[i]])];
    }
    assert lines[..|lines|] == lines;
  }

  method AppendLinesReattach(acc: seq<Child>, lines: seq<NetLine>) returns (r: seq<Child>)
    ensures r == acc + LinesReattach(lines)
  {
    r := acc;
    for i := 0 to |lines|
      invariant r == acc + LinesReattach(lines[..i])
    {
      assert LinesReattach(lines[..i + 1]) == LinesReattach(lines[..i]) + [LineReadd(lines[i])];
      r := r + [AddElements(ExistingSegment(lines[i].segment), [], [KeepLine(lines[i])])];
    }
    assert lines[..|lines|] == lines;
  }

  method AppendSplits(acc: seq<Child>, lines: seq<NetLine>, point: NetPoint) returns (r: seq<Child>)
    ensures r == acc + Splits(lines, point)
  {
    r := acc;
    for i := 0 to |lines|
      invariant r == acc + Splits(lines[..i], point)
    {
      assert lines[..i + 1][..i] == lines[..i];
      var l := lines[i];
      if l.start != point && l.end != point {
        r := r + [AddElements(ExistingSegment(l.segment), [], [LineBetween(Existing(l.start), Existing(point)), LineBetween(Existing(point), Existing(l.end))])];
        r := r + [RemoveElements(l.segment, [], [l])];
      }
    }
    assert lines[..|lines|] == lines;
  }

  /** The pin part of performExecute. */
  method Attach(acc: seq<Child>, c: Circuit, point: NetPoint, pins: seq<SymbolPin>, signals: seq<NetSignal>, result: NetSignal, pointLines: seq<NetLine>)
    returns (r: seq<Child>, abort: Option<ErrorKind>)
    requires Runnable(c, point, pins)
    ensures r == acc + AttachStage(c, point, pins, signals, result, pointLines).children
    ensures abort == AttachStage(c, point, pins, signals, result, pointLines).abort
  {
    r, abort := acc, None;
    if |pins| == 1 {
      var pin := pins[0];
      if point.pin != Some(pin) {
        if point.pin.None? {
          var cmpSig := c.pinCmpSig(pin).value;
          var after := c.cmpSigNetSignal(cmpSig);
          if after.Some? && after.value in signals {
            after := Some(result);
          }
          if after != Some(result) {
            r := r + [CompSigSetNetSignal(cmpSig, Some(result))];
          }
          ghost var r0 := r;
          r := AppendLinesDetach(r, pointLines);
          r := r + [NetPointSetPin(point, Some(pin))];
          r := AppendLinesReattach(r, pointLines);
          assert r == r0 + LinesDetach(pointLines) + [NetPointSetPin(point, Some(pin))] + LinesReattach(pointLines);
        } else {
          abort := Some(RuntimeError);
        }
      }
    } else if |pins| > 1 {
      abort := Some(RuntimeError);
    }
  }

  /** The rename, if needed, and the two merge loops. */
  method AppendMerged(c: Circuit, point: NetPoint, points: seq<NetPoint>, signals: seq<NetSignal>, name: string)
    returns (log: seq<Child>, result: NetSignal)
    ensures log == Merged(c, point, points, signals, name)
    ensures result == ResultSignal(c, name, point.segment.netSignal)
  {
    log := [];
    var found := c.signalByName(name);
    if found.None? {
      log := log + [NetSignalRename(point.segment.netSignal, name, false)];
      result := point.segment.netSignal;
    } else {
      result := found.value;
    }
    log := AppendSignalMerges(log, signals, result);
    log := AppendPointMerges(log, points, point);
  }

  /** performExecute from the resolution of the resulting net signal on. */
  method ExecuteResolved(c: Circuit, point: NetPoint, points: seq<NetPoint>, pins: seq<SymbolPin>,
                         pointLines: seq<NetLine>, linesAfter: seq<NetLine>, signals: seq<NetSignal>, name: string)
    returns (p: Plan)
    requires Runnable(c, point, pins)
    ensures p == ResolvedPlan(c, point, points, pins, pointLines, linesAfter, signals, name)
  {
    var log, result := AppendMerged(c, point, points, signals, name);
    var abort;
    log, abort := Attach(log, c, point, pins, signals, result, pointLines);
    if abort.Some? {
      return Plan(log, abort, false);
    }
    log := AppendSplits(log, linesAfter, point);
    if |log| > 0 {
      log := log + [RemoveUnusedNetSignals];
    }
    p := Plan(log, None, |log| > 0);
  }

  /** performExecute of the composite. */
  method Execute(c: Circuit, point: NetPoint, points: seq<NetPoint>, lines: seq<NetLine>, pins: seq<SymbolPin>,
                 pointLines: seq<NetLine>, linesAfter: seq<NetLine>) returns (p: Plan)
    requires Runnable(c, point, pins)
    ensures p == CombineAllPlan(c, point, points, lines, pins, pointLines, linesAfter)
  {
    var g := Collect(c, points, lines, pins);
    var name: string;
    if |g.forcedNames| == 0 {
      name := c.signalName(point.segment.netSignal);
    } else if |g.forcedNames| == 1 {
      name := g.forcedNames[0];
    } else {
      return Plan([], Some(RuntimeError), false);
    }
    p := ExecuteResolved(c, point, points, pins, pointLines, linesAfter, g.signals, name);
  }
}
