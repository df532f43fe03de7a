/**
 * Removing the selected items of a schematic page as one undoable composite.
 *
 * The selected net points, lines and labels are grouped by their net
 * segment. Per affected segment (in an order the model leaves open): with no
 * selected line only the selected labels go; with all of its lines selected
 * the whole segment goes; with some of them selected the segment is split
 * into the connected pieces of what is left; with more selected lines than
 * the segment has, the composite fails with a logic error. Then the selected
 * symbols go, and when anything was done at all, the net signals no longer
 * used are removed last. The composite returns whether it did anything.
 *
 * Iteration over the sets of the source (the affected segments, the
 * selected items of a segment, the net points of a segment) follows
 * enumerations chosen by the method and returned with the plan.
 */
module RemoveSelectedCmd {
  import opened Base
  import opened Items
  import opened Children
  import opened BoardDetach
  import opened Connectivity
  import opened RemoveSelectedSteps

  // ---------------------------------------------------------------------------
  // The selection and its grouping by net segment
  // ---------------------------------------------------------------------------

  /**
   * What the selection query reports: the selected symbols, the net points
   * all of whose lines are selected, the selected net lines and labels.
   */
  datatype Selection = Selection(symbols: seq<Symbol>, netPoints: seq<NetPoint>, netLines: seq<NetLine>,
                                 netLabels: seq<NetLabel>)

  /** The selected items of one net segment. */
  datatype SegmentItems = SegmentItems(netPoints: set<NetPoint>, netLines: set<NetLine>, netLabels: set<NetLabel>)

  const NoItems := SegmentItems({}, {}, {})

  /** The segments some selected point, line or label belongs to. */
  function Affected(pts: seq<NetPoint>, lines: seq<NetLine>, labels: seq<NetLabel>): set<NetSegment>
  {
    (set p | p in pts :: p.segment) + (set l | l in lines :: l.segment) + (set b | b in labels :: b.segment)
  }

  /** The selected items of segment `s`. */
  function ItemsOf(pts: seq<NetPoint>, lines: seq<NetLine>, labels: seq<NetLabel>, s: NetSegment): SegmentItems
  {
    SegmentItems(set p | p in pts && p.segment == s, set l | l in lines && l.segment == s,
                 set b | b in labels && b.segment == s)
  }

  /** Each affected segment with its selected items. */
  function GroupOf(pts: seq<NetPoint>, lines: seq<NetLine>, labels: seq<NetLabel>): map<NetSegment, SegmentItems>
  {
    map s | s in Affected(pts, lines, labels) :: ItemsOf(pts, lines, labels, s)
  }

  function Group(sel: Selection): map<NetSegment, SegmentItems>
  {
    GroupOf(sel.netPoints, sel.netLines, sel.netLabels)
  }

  /** The entry of the map for `s`, an empty one when there is none yet. */
  function ItemsAt(m: map<NetSegment, SegmentItems>, s: NetSegment): SegmentItems
  {
    if s in m then m[s] else NoItems
  }

  lemma GroupPointSnoc(pts: seq<NetPoint>, p: NetPoint)
    ensures var m := GroupOf(pts, [], []);
            var items := ItemsAt(m, p.segment);
            GroupOf(pts + [p], [], []) == m[p.segment := items.(netPoints := items.netPoints + {p})]
  {
    var m := GroupOf(pts, [], []);
    var items := ItemsAt(m, p.segment);
    var m' := m[p.segment := items.(netPoints := items.netPoints + {p})];
    var g := GroupOf(pts + [p], [], []);
    assert Affected(pts + [p], [], []) == Affected(pts, [], []) + {p.segment};
    forall s | s in g ensures g[s] == m'[s] {
      assert ItemsOf(pts + [p], [], [], s).netPoints == ItemsOf(pts, [], [], s).netPoints + (if p.segment == s then {p} else {});
    }
  }

  lemma GroupLineSnoc(pts: seq<NetPoint>, lines: seq<NetLine>, l: NetLine)
    ensures var m := GroupOf(pts, lines, []);
            var items := ItemsAt(m, l.segment);
            GroupOf(pts, lines + [l], []) == m[l.segment := items.(netLines := items.netLines + {l})]
  {
    var m := GroupOf(pts, lines, []);
    var items := ItemsAt(m, l.segment);
    var m' := m[l.segment := items.(netLines := items.netLines + {l})];
    var g := GroupOf(pts, lines + [l], []);
    assert Affected(pts, lines + [l], []) == Affected(pts, lines, []) + {l.segment};
    forall s | s in g ensures g[s] == m'[s] {
      assert ItemsOf(pts, lines + [l], [], s).netLines == ItemsOf(pts, lines, [], s).netLines + (if l.segment == s then {l} else {});
    }
  }

  lemma GroupLabelSnoc(pts: seq<NetPoint>, lines: seq<NetLine>, labels: seq<NetLabel>, b: NetLabel)
    ensures var m := GroupOf(pts, lines, labels);
            var items := ItemsAt(m, b.segment);
            GroupOf(pts, lines, labels + [b]) == m[b.segment := items.(netLabels := items.netLabels + {b})]
  {
    var m := GroupOf(pts, lines, labels);
    var items := ItemsAt(m, b.segment);
    var m' := m[b.segment := items.(netLabels := items.netLabels + {b})];
    var g := GroupOf(pts, lines, labels + [b]);
    assert Affected(pts, lines, labels + [b]) == Affected(pts, lines, labels) + {b.segment};
    forall s | s in g ensures g[s] == m'[s] {
      assert ItemsOf(pts, lines, labels + [b], s).netLabels == ItemsOf(pts, lines, labels, s).netLabels + (if b.segment == s then {b} else {});
    }
  }

  /**
   * Each selected item is listed under its own segment and nowhere else, and
   * only affected segments have an entry.
   */
  lemma GroupMeaning(sel: Selection)
    ensures Group(sel).Keys == Affected(sel.netPoints, sel.netLines, sel.netLabels)
    ensures forall s :: s in Group(sel) ==>
              (forall p :: p in Group(sel)[s].netPoints <==> p in sel.netPoints && p.segment == s)
              && (forall l :: l in Group(sel)[s].netLines <==> l in sel.netLines && l.segment == s)
              && (forall b :: b in Group(sel)[s].netLabels <==> b in sel.netLabels && b.segment == s)
  {
  }

  lemma GroupPointStep(pts: seq<NetPoint>, i: nat)
    requires i < |pts|
    ensures var m := GroupOf(pts[..i], [], []);
            var items := ItemsAt(m, pts[i].segment);
            GroupOf(pts[..i + 1], [], []) == m[pts[i].segment := items.(netPoints := items.netPoints + {pts[i]})]
  {
    assert pts[..i + 1] == pts[..i] + [pts[i]];
    GroupPointSnoc(pts[..i], pts[i]);
  }

  /**
   * The three loops of performExecute filling the map from segments to their
   * selected items: points first, then lines, then labels.
   */
  method GroupItems(sel: Selection) returns (m: map<NetSegment, SegmentItems>)
    ensures m == Group(sel)
  {
    m := GroupPoints(sel.netPoints);
    m := GroupLines(m, sel.netPoints, sel.netLines);
    m := GroupLabels(m, sel.netPoints, sel.netLines, sel.netLabels);
  }

  /** The loop over the selected points: each is added to the entry of its segment. */
  method GroupPoints(pts: seq<NetPoint>) returns (m: map<NetSegment, SegmentItems>)
    ensures m == GroupOf(pts, [], [])
  {
    m := map[];
    var i := 0;
    while i < |pts|
      invariant 0 <= i <= |pts| && m == GroupOf(pts[..i], [], [])
    {
      GroupPointStep(pts, i);
      var items := ItemsAt(m, pts[i].segment);
      m := m[pts[i].segment := items.(netPoints := items.netPoints + {pts[i]})];
      i := i + 1;
    }
    assert pts[..i] == pts;
  }

  /** The loop over the selected lines. */
  method GroupLines(m0: map<NetSegment, SegmentItems>, pts: seq<NetPoint>, lines: seq<NetLine>)
    returns (m: map<NetSegment, SegmentItems>)
    requires m0 == GroupOf(pts, [], [])
    ensures m == GroupOf(pts, lines, [])
  {
    m := m0;
    var i := 0;
    while i < |lines|
      invariant 0 <= i <= |lines| && m == GroupOf(pts, lines[..i], [])
    {
      GroupLineSnoc(pts, lines[..i], lines[i]);
      assert lines[..i + 1] == lines[..i] + [lines[i]];
      var items := ItemsAt(m, lines[i].segment);
      m := m[lines[i].segment := items.(netLines := items.netLines + {lines[i]})];
      i := i + 1;
    }
    assert lines[..i] == lines;
  }

  /** The loop over the selected labels. */
  method GroupLabels(m0: map<NetSegment, SegmentItems>, pts: seq<NetPoint>, lines: seq<NetLine>, labels: seq<NetLabel>)
    returns (m: map<NetSegment, SegmentItems>)
    requires m0 == GroupOf(pts, lines, [])
    ensures m == GroupOf(pts, lines, labels)
  {
    m := m0;
    var i := 0;
    while i < |labels|
      invariant 0 <= i <= |labels| && m == GroupOf(pts, lines, labels[..i])
    {
      GroupLabelSnoc(pts, lines, labels[..i], labels[i]);
      assert labels[..i + 1] == labels[..i] + [labels[i]];
      var items := ItemsAt(m, labels[i].segment);
      m := m[labels[i].segment := items.(netLabels := items.netLabels + {labels[i]})];
      i := i + 1;
    }
    assert labels[..i] == labels;
  }

  // ---------------------------------------------------------------------------
  // One affected segment
  // ---------------------------------------------------------------------------

  /** What happens to an affected segment, by its number of selected lines against its number of lines. */
  datatype Strategy = LabelsOnly | Whole | Split | Inconsistent

  function StrategyOf(selectedLines: nat, segmentLines: nat): (r: Strategy)
    ensures r == LabelsOnly <==> selectedLines == 0
    ensures r == Whole <==> 0 < selectedLines == segmentLines
    ensures r == Split <==> 0 < selectedLines < segmentLines
    ensures r == Inconsistent <==> 0 < selectedLines && segmentLines < selectedLines
  {
    if selectedLines == 0 then LabelsOnly
    else if selectedLines == segmentLines then Whole
    else if selectedLines < segmentLines then Split
    else Inconsistent
  }

  function StrategyFor(segment: NetSegment, items: SegmentItems): Strategy
    reads segment
  {
    StrategyOf(|items.netLines|, |segment.netLines|)
  }

  /**
   * The enumerations a segment's step iterates: the selected labels (labels
   * only), the points of the segment (whole removal), or the selected points
   * and the pieces of what is left (split).
   */
  datatype SegmentChoice = SegmentChoice(labels: seq<NetLabel>, points: seq<NetPoint>, pieces: seq<Piece>)

  /** The choice lists, each element once, what the step of the segment iterates. */
  ghost predicate Fits(segment: NetSegment, items: SegmentItems, ch: SegmentChoice)
    reads segment
  {
    match StrategyFor(segment, items)
    case LabelsOnly => Distinct(ch.labels) && Elements(ch.labels) == items.netLabels
    case Whole => Distinct(ch.points) && Elements(ch.points) == segment.netPoints
    case Split => Distinct(ch.points) && Elements(ch.points) == items.netPoints
                  && SplitOf(ch.pieces, segment.netPoints - items.netPoints, segment.netLines - items.netLines)
    case Inconsistent => true
  }

  /**
   * The children run so far, the error thrown (if any), the net points whose
   * segments went, the points re-created on their pins by a split (each with
   * the number of the new segment holding its copy), and the number of
   * segments created.
   */
  datatype Progress = Progress(children: seq<Child>, abort: Option<ErrorKind>, removed: set<NetPoint>,
                               copies: map<NetPoint, nat>, created: nat)

  function PiecePoints(ps: seq<Piece>): set<NetPoint>
  {
    set p, q | p in ps && q in p.netPoints :: q
  }

  /** The copies a split makes: each point of piece `i` is re-created in the new segment numbered `k0 + i`. */
  function PieceCopies(ps: seq<Piece>, k0: nat): map<NetPoint, nat>
  {
    if ps == [] then map[]
    else
      var n := |ps| - 1;
      PieceCopies(ps[..n], k0) + map q | q in ps[n].netPoints :: k0 + n
  }

  /** Exactly the points of the pieces are copied. */
  lemma {:induction false} PieceCopiesKeys(ps: seq<Piece>, k0: nat)
    ensures PieceCopies(ps, k0).Keys == PiecePoints(ps)
  {
    if ps != [] {
      var n := |ps| - 1;
      PieceCopiesKeys(ps[..n], k0);
      assert ps == ps[..n] + [ps[n]];
      assert PiecePoints(ps) == PiecePoints(ps[..n]) + set q | q in ps[n].netPoints;
    }
  }

  /** Each copied point goes into the new segment of a piece it is in. */
  lemma {:induction false} PieceCopiesInto(ps: seq<Piece>, k0: nat, q: NetPoint)
    requires q in PieceCopies(ps, k0)
    ensures k0 <= PieceCopies(ps, k0)[q] < k0 + |ps| && q in ps[PieceCopies(ps, k0)[q] - k0].netPoints
  {
    var n := |ps| - 1;
    var front := PieceCopies(ps[..n], k0);
    if q !in ps[n].netPoints {
      assert q in front;
      PieceCopiesInto(ps[..n], k0, q);
      assert ps[..n][front[q] - k0] == ps[front[q] - k0];
    }
  }

  /**
   * The step of one affected segment after `prev`. A whole removal takes
   * every point of the segment off its pin; a split takes the whole segment
   * off too, re-creates each point of what is left (on its pin, if any) in
   * the new segments, numbered on from `prev.created`.
   */
  function SegmentStep(c: Circuit, prev: Progress, segment: NetSegment, items: SegmentItems, ch: SegmentChoice): Progress
    reads segment, ch.points, PiecePoints(ch.pieces)
  {
    match StrategyFor(segment, items)
    case LabelsOnly =>
      prev.(children := prev.children + LabelsRemoval(c, segment, segment.netLabels, ch.labels))
    case Whole =>
      Progress(prev.children + WholeRemoval(c, prev.children, prev.removed, segment, ch.points), None,
               prev.removed + segment.netPoints, prev.copies, prev.created)
    case Split =>
      Progress(prev.children + SplitUp(c, prev.children, prev.removed, segment, ch.points, ch.pieces, prev.created), None,
               prev.removed + items.netPoints, prev.copies + PieceCopies(ch.pieces, prev.created),
               prev.created + |ch.pieces|)
    case Inconsistent =>
      prev.(abort := Some(LogicError))
  }

  /** What is left of the segment once the selected items go is well formed, as the split requires. */
  ghost predicate RemainderReady(segment: NetSegment, items: SegmentItems)
    reads segment, segment.netPoints
  {
    var pts, lines := segment.netPoints - items.netPoints, segment.netLines - items.netLines;
    RegisteredAtEnds(pts, lines) && EndsIn(lines, pts)
  }

  /** The method of one step: the loops of the source over the choice it makes. */
  method ProcessSegment(c: Circuit, prev: Progress, segment: NetSegment, items: SegmentItems)
    returns (next: Progress, ch: SegmentChoice)
    requires RemainderReady(segment, items)
    ensures Fits(segment, items, ch)
    ensures next == SegmentStep(c, prev, segment, items, ch)
  {
    if |items.netLines| == 0 {
      var labels := Enumerate(items.netLabels);
      var log := RemoveNetLabels(prev.children, c, segment, labels);
      ch := SegmentChoice(labels, [], []);
      next := prev.(children := log);
    } else if |items.netLines| == |segment.netLines| {
      var pts := Enumerate(segment.netPoints);
      var log := RemoveNetSegment(prev.children, c, prev.removed, segment, pts);
      ch := SegmentChoice([], pts, []);
      next := Progress(log, None, prev.removed + segment.netPoints, prev.copies, prev.created);
    } else if |items.netLines| < |segment.netLines| {
      var ps := SplitPieces(segment.netPoints - items.netPoints, segment.netLines - items.netLines);
      var selected := Enumerate(items.netPoints);
      assert forall p, q :: p in ps && q in p.netPoints ==> allocated(q);
      var log := SplitUpNetSegment(prev.children, c, prev.removed, segment, selected, ps, prev.created);
      ch := SegmentChoice([], selected, ps);
      next := Progress(log, None, prev.removed + items.netPoints, prev.copies + PieceCopies(ps, prev.created),
                       prev.created + |ps|);
    } else {
      ch := SegmentChoice([], [], []);
      next := prev.(abort := Some(LogicError));
    }
  }

  // ---------------------------------------------------------------------------
  // The whole composite
  // ---------------------------------------------------------------------------

  function ChoicePoints(choices: seq<SegmentChoice>): set<NetPoint>
  {
    (set ch, q | ch in choices && q in ch.points :: q) + (set ch, p, q | ch in choices && p in ch.pieces && q in p.netPoints :: q)
  }

  lemma ChoicePointsPrefix(choices: seq<SegmentChoice>, n: nat)
    requires n < |choices|
    ensures ChoicePoints(choices[..n]) <= ChoicePoints(choices)
    ensures (set q | q in choices[n].points) + PiecePoints(choices[n].pieces) <= ChoicePoints(choices)
  {
    assert choices[n] in choices;
    assert forall ch :: ch in choices[..n] ==> ch in choices;
  }

  /** The steps of the segments `segs`, in order, up to the first that throws. */
  function Stage(c: Circuit, groups: map<NetSegment, SegmentItems>, segs: seq<NetSegment>, choices: seq<SegmentChoice>)
    : Progress
    requires |segs| == |choices| && forall s :: s in segs ==> s in groups
    reads segs, ChoicePoints(choices)
  {
    if segs == [] then Progress([], None, {}, map[], 0)
    else
      var n := |segs| - 1;
      ChoicePointsPrefix(choices, n);
      var prev := Stage(c, groups, segs[..n], choices[..n]);
      if prev.abort.Some? then prev else SegmentStep(c, prev, segs[n], groups[segs[n]], choices[n])
  }

  /**
   * performExecute, for the segments processed in the order `segs` with the
   * choices `choices`: the segment steps, then the symbols (each pin with
   * what it holds once the segments are done), then the
   * removal of unused net signals when any child ran; it returns whether any
   * child ran. A logic error stops it after the children run so far.
   */
  function RemovePlan(c: Circuit, sel: Selection,
                      segs: seq<NetSegment>, choices: seq<SegmentChoice>): Plan
    requires |segs| == |choices| && forall s :: s in segs ==> s in Group(sel)
    reads segs, ChoicePoints(choices)
  {
    var st := Stage(c, Group(sel), segs, choices);
    if st.abort.Some? then Plan(st.children, st.abort, false)
    else
      var log := st.children + SymbolsRemoval(c, st.removed, st.copies, sel.symbols);
      if log == [] then Plan([], None, false) else Plan(log + [RemoveUnusedNetSignals], None, true)
  }

  /**
   * A segment as the schematic keeps it: its lines are registered exactly at
   * their end points, end at points of the segment, and belong to it.
   */
  ghost predicate SegmentWellFormed(s: NetSegment)
    reads s, s.netPoints
  {
    RegisteredAtEnds(s.netPoints, s.netLines) && EndsIn(s.netLines, s.netPoints)
    && forall l :: l in s.netLines ==> l.segment == s
  }

  function SegmentsPoints(segs: set<NetSegment>): set<NetPoint>
    reads segs
  {
    set s, q | s in segs && q in s.netPoints :: q
  }

  /**
   * What the selection promises: the affected segments are well formed, and
   * a selected net point has all of its lines selected.
   */
  ghost predicate Consistent(sel: Selection)
    reads Affected(sel.netPoints, sel.netLines, sel.netLabels), SegmentsPoints(Affected(sel.netPoints, sel.netLines, sel.netLabels))
    reads sel.netPoints
  {
    (forall s :: s in Affected(sel.netPoints, sel.netLines, sel.netLabels) ==> SegmentWellFormed(s))
    && forall p, l :: p in sel.netPoints && l in p.lines ==> l in sel.netLines
  }

  /**
   * What is left of an affected segment once its selected points and lines
   * go is well formed too: no line left ends at a selected point, since all
   * lines of a selected point are selected.
   */
  lemma RemainderWellFormed(sel: Selection, s: NetSegment)
    requires Consistent(sel) && s in Group(sel)
    ensures RemainderReady(s, Group(sel)[s])
  {
    var items := Group(sel)[s];
    assert SegmentWellFormed(s);
    forall l | l in s.netLines - items.netLines
      ensures l.start !in items.netPoints && l.end !in items.netPoints
    {
      assert l in l.start.lines && l in l.end.lines;
    }
  }

  /**
   * performExecute. The affected segments are visited in the order `order`
   * (each once), each with the choice at its position, up to the first that
   * throws; the plan is the one of the composite for what was visited.
   */
  method Execute(c: Circuit, sel: Selection)
    returns (p: Plan, order: seq<NetSegment>, choices: seq<SegmentChoice>)
    requires Consistent(sel)
    ensures Distinct(order) && Elements(order) == Group(sel).Keys && AllFit(Group(sel), order, choices)
    ensures p == RemovePlan(c, sel, order[..|choices|], choices)
    ensures |choices| < |order| ==> p.abort.Some?
  {
    var groups := GroupItems(sel);
    order := Enumerate(groups.Keys);
    RemaindersWellFormed(sel);
    var st;
    st, choices := VisitSegments(c, groups, order);
    assert forall q :: q in ChoicePoints(choices) ==> allocated(q);
    p := Finish(c, sel, order[..|choices|], choices, st);
  }

  /** The end of performExecute: the symbols, then the removal of unused net signals when any child ran. */
  method Finish(c: Circuit, sel: Selection,
                segs: seq<NetSegment>, choices: seq<SegmentChoice>, st: Progress)
    returns (p: Plan)
    requires |segs| == |choices| && forall s :: s in segs ==> s in Group(sel)
    requires st == Stage(c, Group(sel), segs, choices)
    ensures p == RemovePlan(c, sel, segs, choices)
    ensures p.abort == st.abort
  {
    if st.abort.Some? {
      return Plan(st.children, st.abort, false);
    }
    assert forall q :: q in ChoicePoints(choices) ==> allocated(q);
    var log := RemoveSymbols(st.children, c, st.removed, st.copies, sel.symbols);
    if |log| > 0 {
      p := Plan(log + [RemoveUnusedNetSignals], None, true);
    } else {
      p := Plan([], None, false);
    }
  }

  lemma RemaindersWellFormed(sel: Selection)
    requires Consistent(sel)
    ensures forall s :: s in Group(sel) ==> RemainderReady(s, Group(sel)[s])
  {
    forall s | s in Group(sel) ensures RemainderReady(s, Group(sel)[s]) {
      RemainderWellFormed(sel, s);
    }
  }

  /** The loop of performExecute over the affected segments, up to the first that throws. */
  method VisitSegments(c: Circuit, groups: map<NetSegment, SegmentItems>, order: seq<NetSegment>)
    returns (st: Progress, choices: seq<SegmentChoice>)
    requires forall s :: s in order ==> s in groups && RemainderReady(s, groups[s])
    ensures AllFit(groups, order, choices)
    ensures |choices| < |order| ==> st.abort.Some?
    ensures st == Stage(c, groups, order[..|choices|], choices)
  {
    choices := [];
    st := Progress([], None, {}, map[], 0);
    while |choices| < |order| && st.abort.None?
      invariant AllFit(groups, order, choices)
      invariant st == Stage(c, groups, order[..|choices|], choices)
      decreases |order| - |choices|
    {
      st, choices := VisitSegment(c, groups, order, choices, st);
    }
  }

  /** Each choice fits the segment at its position. */
  ghost predicate AllFit(groups: map<NetSegment, SegmentItems>, order: seq<NetSegment>, choices: seq<SegmentChoice>)
    reads order
  {
    |choices| <= |order| && forall i :: 0 <= i < |choices| ==> order[i] in groups && Fits(order[i], groups[order[i]], choices[i])
  }

  /** One pass of the loop over the affected segments. */
  method VisitSegment(c: Circuit, groups: map<NetSegment, SegmentItems>, order: seq<NetSegment>,
                      choices0: seq<SegmentChoice>, st0: Progress)
    returns (st: Progress, choices: seq<SegmentChoice>)
    requires |choices0| < |order| && forall s :: s in order ==> s in groups && RemainderReady(s, groups[s])
    requires st0.abort.None? && AllFit(groups, order, choices0) && st0 == Stage(c, groups, order[..|choices0|], choices0)
    ensures |choices| == |choices0| + 1 && AllFit(groups, order, choices)
    ensures st == Stage(c, groups, order[..|choices|], choices)
  {
    var s := order[|choices0|];
    var ch;
    st, ch := StepAfterStage(c, groups, order[..|choices0|], choices0, st0, s, groups[s]);
    choices := choices0 + [ch];
    AllFitSnoc(groups, order, choices0, ch);
    StageNext(c, groups, order, choices0, ch);
  }

  /** The step of one segment, after a stage of the loop that it leaves as it was. */
  method StepAfterStage(c: Circuit, groups: map<NetSegment, SegmentItems>, segs: seq<NetSegment>,
                        choices0: seq<SegmentChoice>, st0: Progress, s: NetSegment, items: SegmentItems)
    returns (st: Progress, ch: SegmentChoice)
    requires |segs| == |choices0| && (forall x :: x in segs ==> x in groups) && RemainderReady(s, items)
    requires st0 == Stage(c, groups, segs, choices0)
    ensures Fits(s, items, ch) && st == SegmentStep(c, st0, s, items, ch)
    ensures st0 == Stage(c, groups, segs, choices0)
  {
    assert forall q :: q in ChoicePoints(choices0) ==> allocated(q);
    st, ch := ProcessSegment(c, st0, s, items);
  }

  /** A choice that fits the next segment extends choices that fit. */
  lemma AllFitSnoc(groups: map<NetSegment, SegmentItems>, order: seq<NetSegment>, choices: seq<SegmentChoice>, ch: SegmentChoice)
    requires |choices| < |order| && order[|choices|] in groups
    requires AllFit(groups, order, choices) && Fits(order[|choices|], groups[order[|choices|]], ch)
    ensures AllFit(groups, order, choices + [ch])
  {
    var all := choices + [ch];
    forall i | 0 <= i < |all| ensures order[i] in groups && Fits(order[i], groups[order[i]], all[i]) {
      if i < |choices| {
        assert all[i] == choices[i];
      }
    }
  }

  /** The stage of one more segment of `order` is the step of that segment after the stage before it. */
  lemma StageNext(c: Circuit, groups: map<NetSegment, SegmentItems>, order: seq<NetSegment>, choices: seq<SegmentChoice>,
                  ch: SegmentChoice)
    requires |choices| < |order| && forall x :: x in order ==> x in groups
    ensures var k := |choices|;
            Stage(c, groups, order[..k + 1], choices + [ch]) ==
            var prev := Stage(c, groups, order[..k], choices);
            if prev.abort.Some? then prev else SegmentStep(c, prev, order[k], groups[order[k]], ch)
  {
    var k := |choices|;
    assert order[..k + 1][..k] == order[..k] && (choices + [ch])[..k] == choices;
  }

  // ---------------------------------------------------------------------------
  // What the composite does
  // ---------------------------------------------------------------------------

  /** Some segment of `segs` has more selected lines than lines. */
  ghost predicate Throws(groups: map<NetSegment, SegmentItems>, segs: seq<NetSegment>)
    requires forall s :: s in segs ==> s in groups
    reads segs
  {
    exists i :: 0 <= i < |segs| && StrategyFor(segs[i], groups[segs[i]]) == Inconsistent
  }

  /**
   * The segment loop stops exactly when it meets a segment with more
   * selected lines than lines, and then with a logic error.
   */
  lemma {:induction false} StageAborts(c: Circuit, groups: map<NetSegment, SegmentItems>, segs: seq<NetSegment>,
                                       choices: seq<SegmentChoice>)
    requires |segs| == |choices| && forall s :: s in segs ==> s in groups
    ensures Stage(c, groups, segs, choices).abort.Some? <==> Throws(groups, segs)
    ensures Stage(c, groups, segs, choices).abort.Some? ==> Stage(c, groups, segs, choices).abort == Some(LogicError)
  {
    if segs != [] {
      var n := |segs| - 1;
      var front := segs[..n];
      assert forall s :: s in front ==> s in segs;
      StageAborts(c, groups, front, choices[..n]);
      ThrowsSnoc(groups, segs);
      var prev := Stage(c, groups, front, choices[..n]);
      if prev.abort.None? {
        StepFacts(c, prev, segs[n], groups[segs[n]], choices[n]);
      }
    }
  }

  lemma ThrowsSnoc(groups: map<NetSegment, SegmentItems>, segs: seq<NetSegment>)
    requires segs != [] && forall s :: s in segs ==> s in groups
    ensures var n := |segs| - 1;
            (forall s :: s in segs[..n] ==> s in groups)
            && (Throws(groups, segs) <==>
                Throws(groups, segs[..n]) || StrategyFor(segs[n], groups[segs[n]]) == Inconsistent)
  {
    var n := |segs| - 1;
    assert forall j :: 0 <= j < n ==> segs[..n][j] == segs[j];
  }

  /** Each selected line is one of the lines of its segment. */
  ghost predicate LinesBelong(sel: Selection)
    reads set l | l in sel.netLines :: l.segment
  {
    forall l :: l in sel.netLines ==> l in l.segment.netLines
  }

  /**
   * When each selected line is a line of its segment, no segment has more
   * selected lines than lines, so the logic error is never thrown.
   */
  lemma NeverInconsistent(sel: Selection, s: NetSegment)
    requires LinesBelong(sel) && s in Group(sel)
    ensures StrategyFor(s, Group(sel)[s]) != Inconsistent
  {
    var items := Group(sel)[s];
    assert items.netLines <= s.netLines;
    SubsetCard(items.netLines, s.netLines);
  }

  lemma {:induction false} SubsetCard<T>(a: set<T>, b: set<T>)
    requires a <= b
    ensures |a| <= |b|
    decreases b
  {
    if a != {} {
      var x :| x in a;
      SubsetCard(a - {x}, b - {x});
    }
  }

  /**
   * With each selected line a line of its segment, the segment loop never
   * stops early: performExecute visits every affected segment.
   */
  lemma VisitsAll(c: Circuit, sel: Selection, segs: seq<NetSegment>, choices: seq<SegmentChoice>)
    requires LinesBelong(sel) && |segs| == |choices| && forall s :: s in segs ==> s in Group(sel)
    ensures Stage(c, Group(sel), segs, choices).abort.None?
  {
    StageAborts(c, Group(sel), segs, choices);
    if Throws(Group(sel), segs) {
      var i :| 0 <= i < |segs| && StrategyFor(segs[i], Group(sel)[segs[i]]) == Inconsistent;
      NeverInconsistent(sel, segs[i]);
    }
  }

  /** Each selected net point ends a selected line of its own segment, as the selection query collects them. */
  ghost predicate PointsOfLines(sel: Selection)
  {
    forall p :: p in sel.netPoints ==> exists l :: l in sel.netLines && l.segment == p.segment && Touches(l, p)
  }

  /**
   * A segment without selected lines has no selected points either, so
   * removing only its labels drops nothing that was selected.
   */
  lemma LabelsOnlyHasNoPoints(sel: Selection, s: NetSegment)
    requires PointsOfLines(sel) && s in Group(sel)
    ensures Group(sel)[s].netLines == {} ==> Group(sel)[s].netPoints == {}
  {
    var items := Group(sel)[s];
    forall p | p in items.netPoints ensures exists l :: l in items.netLines {
      var l :| l in sel.netLines && l.segment == p.segment && Touches(l, p);
      assert l in items.netLines;
    }
  }

  lemma {:induction false} LabelsRemovalHas(c: Circuit, segment: NetSegment, all: set<NetLabel>, labels: seq<NetLabel>)
    ensures forall b :: b in labels ==> LabelRemove(b) in LabelsRemoval(c, segment, all, labels)
  {
    if labels != [] {
      var n := |labels| - 1;
      LabelsRemovalHas(c, segment, all, labels[..n]);
      assert forall b :: b in labels ==> b in labels[..n] || b == labels[n];
    }
  }

  /** The children in `log` that take the segment away, or the labels of the choice when only labels go. */
  ghost predicate Removes(segment: NetSegment, items: SegmentItems, ch: SegmentChoice, log: seq<Child>)
    reads segment
  {
    match StrategyFor(segment, items)
    case LabelsOnly => forall b :: b in ch.labels ==> LabelRemove(b) in log
    case Whole => SegmentRemove(segment) in log
    case Split => SegmentRemove(segment) in log
    case Inconsistent => true
  }

  lemma RemovesGrow(segment: NetSegment, items: SegmentItems, ch: SegmentChoice, log: seq<Child>, log': seq<Child>)
    requires Removes(segment, items, ch, log) && log <= log'
    ensures Removes(segment, items, ch, log')
  {
    assert forall x :: x in log ==> x in log' by {
      forall x | x in log ensures x in log' {
        var k :| 0 <= k < |log| && log[k] == x;
        assert log'[k] == x;
      }
    }
  }

  /**
   * One step after a stage without error: it throws exactly for a segment
   * with more selected lines than lines; otherwise it only appends children,
   * and these take the segment away (whole or split) or the labels of the
   * choice (labels only).
   */
  lemma StepFacts(c: Circuit, prev: Progress, segment: NetSegment, items: SegmentItems, ch: SegmentChoice)
    requires prev.abort.None?
    ensures var next := SegmentStep(c, prev, segment, items, ch);
            (next.abort.Some? <==> StrategyFor(segment, items) == Inconsistent)
            && (next.abort.Some? ==> next.abort == Some(LogicError))
            && (next.abort.None? ==> prev.children <= next.children && Removes(segment, items, ch, next.children))
  {
    var next := SegmentStep(c, prev, segment, items, ch);
    match StrategyFor(segment, items)
    case LabelsOnly =>
      LabelsRemovalHas(c, segment, segment.netLabels, ch.labels);
    case Whole =>
      assert next.children[|prev.children|] == SegmentRemove(segment);
    case Split =>
      assert next.children[|prev.children|] == SegmentRemove(segment);
    case Inconsistent =>
  }

  /** The children in `log` take away what each segment of `segs` removes with its choice. */
  ghost predicate AllRemoved(groups: map<NetSegment, SegmentItems>, segs: seq<NetSegment>, choices: seq<SegmentChoice>,
                             log: seq<Child>)
    requires |segs| == |choices| && forall s :: s in segs ==> s in groups
    reads segs
  {
    forall i :: 0 <= i < |segs| ==> Removes(segs[i], groups[segs[i]], choices[i], log)
  }

  /**
   * A segment loop that ran to its end took away each whole or split
   * segment, and each label of its choice from a segment with labels only.
   */
  lemma {:induction false} StageRemoves(c: Circuit, groups: map<NetSegment, SegmentItems>, segs: seq<NetSegment>,
                                        choices: seq<SegmentChoice>)
    requires |segs| == |choices| && forall s :: s in segs ==> s in groups
    ensures var st := Stage(c, groups, segs, choices);
            st.abort.None? ==> AllRemoved(groups, segs, choices, st.children)
  {
    if segs != [] {
      var n := |segs| - 1;
      var front := segs[..n];
      assert forall s :: s in front ==> s in segs;
      StageRemoves(c, groups, front, choices[..n]);
      var prev := Stage(c, groups, front, choices[..n]);
      var st := Stage(c, groups, segs, choices);
      if st.abort.None? {
        assert st == SegmentStep(c, prev, segs[n], groups[segs[n]], choices[n]);
        StepFacts(c, prev, segs[n], groups[segs[n]], choices[n]);
        AllRemovedSnoc(groups, segs, choices, prev.children, st.children);
      }
    }
  }

  /** Some child of `log` adds a copy of `q` into the `k`-th segment the composite creates. */
  ghost predicate CopiedInto(log: seq<Child>, q: NetPoint, k: nat)
  {
    exists i, j :: 0 <= i < |log| && log[i].AddElements? && log[i].target == CreatedSegment(k)
                   && 0 <= j < |log[i].points| && log[i].points[j].source == q
  }

  lemma CopiedIntoGrow(log: seq<Child>, log': seq<Child>, q: NetPoint, k: nat)
    requires CopiedInto(log, q, k) && log <= log'
    ensures CopiedInto(log', q, k)
  {
    var i, j :| 0 <= i < |log| && log[i].AddElements? && log[i].target == CreatedSegment(k)
                && 0 <= j < |log[i].points| && log[i].points[j].source == q;
    assert log'[i] == log[i];
  }

  /** A split adds, for each point it copies, the copy into the new segment the copy is recorded under. */
  lemma SplitCopies(c: Circuit, log: seq<Child>, removed: set<NetPoint>, segment: NetSegment, selected: seq<NetPoint>,
                    ps: seq<Piece>, k0: nat, q: NetPoint)
    requires q in PieceCopies(ps, k0)
    ensures CopiedInto(log + SplitUp(c, log, removed, segment, selected, ps, k0), q, PieceCopies(ps, k0)[q])
  {
    var k := PieceCopies(ps, k0)[q];
    PieceCopiesInto(ps, k0, q);
    var i := k - k0;
    var r := SplitUp(c, log, removed, segment, selected, ps, k0);
    var m := |r| - 2 * |ps|;
    SplitUpPieces(c, log, removed, segment, selected, ps, k0);
    var x := r[m + 2 * i + 1];
    assert x == AddElements(CreatedSegment(k0 + i), PointCopies(ps[i].netPoints), LineCopies(ps[i].netLines));
    var j :| 0 <= j < |ps[i].netPoints| && ps[i].netPoints[j] == q;
    assert x.points[j].source == q;
    assert (log + r)[|log| + m + 2 * i + 1] == x;
  }

  /**
   * Every point recorded as copied has its copy added into the created
   * segment it is recorded under, a segment created so far.
   */
  ghost predicate CopiesRecorded(st: Progress)
  {
    forall q :: q in st.copies ==> st.copies[q] < st.created && CopiedInto(st.children, q, st.copies[q])
  }

  lemma StepCopies(c: Circuit, prev: Progress, segment: NetSegment, items: SegmentItems, ch: SegmentChoice)
    requires prev.abort.None? && CopiesRecorded(prev)
    ensures CopiesRecorded(SegmentStep(c, prev, segment, items, ch))
  {
    var st := SegmentStep(c, prev, segment, items, ch);
    StepFacts(c, prev, segment, items, ch);
    if StrategyFor(segment, items) == Split {
      forall q | q in st.copies ensures st.copies[q] < st.created && CopiedInto(st.children, q, st.copies[q]) {
        if q in PieceCopies(ch.pieces, prev.created) {
          PieceCopiesInto(ch.pieces, prev.created, q);
          SplitCopies(c, prev.children, prev.removed, segment, ch.points, ch.pieces, prev.created, q);
        } else {
          CopiedIntoGrow(prev.children, st.children, q, prev.copies[q]);
        }
      }
    } else {
      assert st.copies == prev.copies && st.created == prev.created && prev.children <= st.children;
      forall q | q in st.copies ensures CopiedInto(st.children, q, st.copies[q]) {
        CopiedIntoGrow(prev.children, st.children, q, prev.copies[q]);
      }
    }
  }

  /**
   * Every point the segment loop records as copied has its copy added into
   * the created segment it is recorded under, and that segment's number is
   * below the count of created segments.
   */
  lemma {:induction false} StageCopies(c: Circuit, groups: map<NetSegment, SegmentItems>, segs: seq<NetSegment>,
                                       choices: seq<SegmentChoice>)
    requires |segs| == |choices| && forall s :: s in segs ==> s in groups
    ensures CopiesRecorded(Stage(c, groups, segs, choices))
  {
    if segs != [] {
      var n := |segs| - 1;
      var front := segs[..n];
      assert forall s :: s in front ==> s in segs;
      StageCopies(c, groups, front, choices[..n]);
      var prev := Stage(c, groups, front, choices[..n]);
      if prev.abort.None? {
        StepCopies(c, prev, segs[n], groups[segs[n]], choices[n]);
      }
    }
  }

  /**
   * With the boards' own lists free of repetitions, the segment loop never
   * removes a board line or board point twice: each disconnection finds the
   * boards as the children before it left them.
   */
  lemma {:induction false} StageRemovesOnce(c: Circuit, groups: map<NetSegment, SegmentItems>, segs: seq<NetSegment>,
                                            choices: seq<SegmentChoice>)
    requires |segs| == |choices| && (forall s :: s in segs ==> s in groups) && BoardListsDistinct(c)
    ensures RemovesOnce(Stage(c, groups, segs, choices).children)
  {
    if segs != [] {
      var n := |segs| - 1;
      var front := segs[..n];
      assert forall s :: s in front ==> s in segs;
      StageRemovesOnce(c, groups, front, choices[..n]);
      var prev := Stage(c, groups, front, choices[..n]);
      if prev.abort.None? {
        var segment, items, ch := segs[n], groups[segs[n]], choices[n];
        match StrategyFor(segment, items)
        case LabelsOnly =>
          LabelsRemovalKinds(c, segment, segment.netLabels, ch.labels);
          RemovesOnceAppendOther(prev.children, LabelsRemoval(c, segment, segment.netLabels, ch.labels));
        case Whole =>
          WholeRemovalOnce(c, prev.children, prev.removed, segment, ch.points);
        case Split =>
          SplitUpOnce(c, prev.children, prev.removed, segment, ch.points, ch.pieces, prev.created);
        case Inconsistent =>
      }
    }
  }

  /** The whole composite removes no board line or board point twice. */
  lemma PlanRemovesOnce(c: Circuit, sel: Selection, segs: seq<NetSegment>, choices: seq<SegmentChoice>)
    requires |segs| == |choices| && (forall s :: s in segs ==> s in Group(sel)) && BoardListsDistinct(c)
    ensures RemovesOnce(RemovePlan(c, sel, segs, choices).children)
  {
    var st := Stage(c, Group(sel), segs, choices);
    StageRemovesOnce(c, Group(sel), segs, choices);
    if st.abort.None? {
      var log := st.children + SymbolsRemoval(c, st.removed, st.copies, sel.symbols);
      SymbolsRemovalKinds(c, st.removed, st.copies, sel.symbols);
      RemovesOnceAppendOther(st.children, SymbolsRemoval(c, st.removed, st.copies, sel.symbols));
      if log != [] {
        RemovesOnceAppendOther(log, [RemoveUnusedNetSignals]);
      }
    }
  }

  lemma AllRemovedSnoc(groups: map<NetSegment, SegmentItems>, segs: seq<NetSegment>, choices: seq<SegmentChoice>,
                       log: seq<Child>, log': seq<Child>)
    requires |segs| == |choices| && segs != [] && forall s :: s in segs ==> s in groups
    requires var n := |segs| - 1;
             (forall s :: s in segs[..n] ==> s in groups) && AllRemoved(groups, segs[..n], choices[..n], log)
    requires log <= log' && Removes(segs[|segs| - 1], groups[segs[|segs| - 1]], choices[|segs| - 1], log')
    ensures AllRemoved(groups, segs, choices, log')
  {
    var n := |segs| - 1;
    forall i | 0 <= i < n ensures Removes(segs[i], groups[segs[i]], choices[i], log') {
      assert segs[i] == segs[..n][i] && choices[i] == choices[..n][i];
      RemovesGrow(segs[i], groups[segs[i]], choices[i], log, log');
    }
  }

  /**
   * A run over all affected segments, with each selected line a line of its
   * segment: no error; every segment with a selected line is removed (whole
   * or before its split), every selected label of a segment without selected
   * lines is removed; the composite returns whether it has children, and
   * when it has, the removal of unused net signals comes last. A selected
   * line makes the result true.
   */
  lemma RemovesSelection(c: Circuit, sel: Selection,
                         order: seq<NetSegment>, choices: seq<SegmentChoice>)
    requires LinesBelong(sel) && Elements(order) == Group(sel).Keys
    requires |choices| == |order| && AllFit(Group(sel), order, choices)
    ensures var p := RemovePlan(c, sel, order, choices);
            p.abort.None? && (p.result <==> p.children != [])
            && (p.result ==> p.children[|p.children| - 1] == RemoveUnusedNetSignals)
            && (sel.netLines != [] ==> p.result)
    ensures var p := RemovePlan(c, sel, order, choices);
            forall l :: l in sel.netLines ==> SegmentRemove(l.segment) in p.children
    ensures var p := RemovePlan(c, sel, order, choices);
            forall b :: b in sel.netLabels && Group(sel)[b.segment].netLines == {} ==> LabelRemove(b) in p.children
  {
    var groups := Group(sel);
    assert forall s :: s in order ==> s in groups;
    VisitsAll(c, sel, order, choices);
    StageRemoves(c, groups, order, choices);
    var st := Stage(c, groups, order, choices);
    var p := RemovePlan(c, sel, order, choices);
    assert forall x :: x in st.children ==> x in p.children;
    SelectionRemoved(sel, order, choices, st.children);
    if sel.netLines != [] {
      assert SegmentRemove(sel.netLines[0].segment) in st.children;
    }
  }

  /** Children that do what each segment's step removes take away every selected line's segment and label. */
  lemma SelectionRemoved(sel: Selection, order: seq<NetSegment>, choices: seq<SegmentChoice>, log: seq<Child>)
    requires LinesBelong(sel) && Elements(order) == Group(sel).Keys
    requires |choices| == |order| && AllFit(Group(sel), order, choices) && AllRemoved(Group(sel), order, choices, log)
    ensures forall l :: l in sel.netLines ==> SegmentRemove(l.segment) in log
    ensures forall b :: b in sel.netLabels && Group(sel)[b.segment].netLines == {} ==> LabelRemove(b) in log
  {
    var groups := Group(sel);
    GroupMeaning(sel);
    forall l | l in sel.netLines ensures SegmentRemove(l.segment) in log {
      var s := l.segment;
      assert s in Elements(order);
      var i :| 0 <= i < |order| && order[i] == s;
      NeverInconsistent(sel, s);
      assert l in groups[s].netLines;
      assert Removes(order[i], groups[order[i]], choices[i], log);
    }
    forall b | b in sel.netLabels && groups[b.segment].netLines == {} ensures LabelRemove(b) in log {
      var s := b.segment;
      assert s in Elements(order);
      var i :| 0 <= i < |order| && order[i] == s;
      assert Fits(order[i], groups[order[i]], choices[i]);
      assert b in Elements(choices[i].labels);
      assert Removes(order[i], groups[order[i]], choices[i], log);
    }
  }
}
