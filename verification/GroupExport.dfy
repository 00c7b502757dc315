/**
 Unique-frame export: the batch decoder scans one span and a filter forwards the representative of
 each group. Filter, cursor and binary search are composed here end to end.
 */
module GroupExport {
  import opened Common
  import opened Frames
  import opened Grouping
  import opened GroupNavigation
  import opened ExtractionPlan
  import opened ExtractionVideo

  datatype Representative = Representative(
    frameId: u64, ordinal: nat, total: nat, target: Target, entry: Entry, pixels: Frame)

  type VisitRepresentative<!E> = (seq<Representative>, Representative) -> Option<E>

  datatype FilterError<+E> = Groups(cursor: CursorError) | FromVisitor(error: E) | InvalidExport

  datatype Filter = Filter(cursor: CursorState, next: Option<Target>, emitted: seq<Representative>)

  datatype Filtered<+E> = Filtered(state: Filter, error: Option<FilterError<E>>)

  /** One decoded frame offered to the filter. */
  function FilterFrame<E>(rows: seq<Group>, st: Filter, frame: Extracted, visit: VisitRepresentative<E>): Filtered<E> {
    if st.next.None? then Filtered(st, Some(InvalidExport))
    else
      var expected := st.next.value;
      if frame.frameId < expected.group.representative then Filtered(st, None)
      else if frame.frameId != expected.group.representative then Filtered(st, Some(InvalidExport))
      else
        var rep := Representative(frame.frameId, |st.emitted| + 1, |rows|, expected, frame.entry, frame.pixels);
        var taken := st.(next := None, emitted := st.emitted + [rep]);
        match visit(st.emitted, rep)
        case Some(e) => Filtered(taken, Some(FromVisitor(e)))
        case None =>
          match NextGroup(rows, st.cursor)
          case Err(e) => Filtered(taken, Some(Groups(e)))
          case Ok(step) => Filtered(taken.(cursor := step.cursor, next := step.target), None)
  }

  /** The filter after a history of decoded frames. */
  function FoldFilter<E>(
    rows: seq<Group>, start: Filter, history: seq<Extracted>, visit: VisitRepresentative<E>): Filter
  {
    if history == [] then start
    else
      var n := |history| - 1;
      FilterFrame(rows, FoldFilter(rows, start, history[..n], visit), history[n], visit).state
  }

  /** The filter as a visitor of the batch decoder. */
  function FilterVisit<E>(rows: seq<Group>, start: Filter, visit: VisitRepresentative<E>): Visit<FilterError<E>> {
    (history: seq<Extracted>, frame: Extracted) =>
      FilterFrame(rows, FoldFilter(rows, start, history, visit), frame, visit).error
  }

  /** Emission `i` is the first frame of group `i`, with the decoded frame's entry and pixels. */
  predicate EmitsRow(rows: seq<Group>, log: seq<Extracted>, i: nat, rep: Representative)
    requires i < |rows|
  {
    && rep.frameId == rows[i].first
    && rep.ordinal == i + 1
    && rep.total == |rows|
    && rep.target == Target(i, |rows|, rows[i])
    && rep.frameId < |log|
    && rep.entry == log[rep.frameId].entry
    && rep.pixels == log[rep.frameId].pixels
  }

  predicate EmitsRows(rows: seq<Group>, log: seq<Extracted>, emitted: seq<Representative>) {
    |emitted| <= |rows| && forall i :: 0 <= i < |emitted| ==> EmitsRow(rows, log, i, emitted[i])
  }

  /** Between frames: `m` groups are done, group `m` is expected, and its first frame is not yet past. */
  predicate FilterAt(rows: seq<Group>, log: seq<Extracted>, st: Filter) {
    && EmitsRows(rows, log, st.emitted)
    && var m := |st.emitted|;
      if m < |rows| then
        && st.next == Some(Target(m, |rows|, rows[m]))
        && st.cursor == CursorAt(rows, m + 1)
        && |log| <= rows[m].first
      else
        && st.next == None
        && st.cursor == CursorAt(rows, |rows|)
        && m > 0
        && |log| == rows[m - 1].first + 1
  }

  /** The caller's own error inside a filter error. */
  function InnerError<E>(error: Option<FilterError<E>>): Option<E> {
    match error case Some(FromVisitor(e)) => Some(e) case _ => None
  }

  lemma EmitsRowsPrefix(rows: seq<Group>, log: seq<Extracted>, frame: Extracted, emitted: seq<Representative>)
    requires EmitsRows(rows, log, emitted)
    ensures EmitsRows(rows, log + [frame], emitted)
  {
    forall i | 0 <= i < |emitted|
      ensures EmitsRow(rows, log + [frame], i, emitted[i])
    {
      assert EmitsRow(rows, log, i, emitted[i]);
    }
  }

  lemma FilterStepKeeps<E>(rows: seq<Group>, frameCount: nat, st: Filter, log: seq<Extracted>, frame: Extracted,
                           visit: VisitRepresentative<E>)
    requires CoversTimeline(rows, frameCount) && rows[0].first == 0
    requires FilterAt(rows, log, st) && VisitorOutcome(visit, st.emitted, None)
    requires frame.frameId == |log| <= rows[|rows| - 1].first
    ensures var step := FilterFrame(rows, st, frame, visit);
      && EmitsRows(rows, log + [frame], step.state.emitted)
      && VisitorOutcome(visit, step.state.emitted, InnerError(step.error))
      && (step.error == None ==> FilterAt(rows, log + [frame], step.state))
      && (step.error.Some? ==> step.error.value.FromVisitor?)
  {
    hide NextGroup, VisitorOutcome;
    var m := |st.emitted|;
    var all := log + [frame];
    EmitsRowsPrefix(rows, log, frame, st.emitted);
    if frame.frameId == rows[m].representative {
      CursorEnumeratesRows(rows, frameCount, m + 1);
      var rep := Representative(frame.frameId, m + 1, |rows|, st.next.value, frame.entry, frame.pixels);
      assert EmitsRow(rows, all, m, rep);
      VisitorOutcomeStep(visit, st.emitted, rep);
      if m + 1 < |rows| {
        RowsAreOrdered(rows, frameCount, m, m + 1);
      }
    }
  }

  lemma {:induction false} FilterRun<E>(rows: seq<Group>, frameCount: nat, start: Filter, log: seq<Extracted>,
                                        visit: VisitRepresentative<E>, error: Option<FilterError<E>>)
    requires CoversTimeline(rows, frameCount)
    requires FilterAt(rows, [], start) && start.emitted == []
    requires forall i :: 0 <= i < |log| ==> log[i].frameId == i <= rows[|rows| - 1].first
    requires VisitorOutcome(FilterVisit(rows, start, visit), log, error)
    ensures EmitsRows(rows, log, FoldFilter(rows, start, log, visit).emitted)
    ensures VisitorOutcome(visit, FoldFilter(rows, start, log, visit).emitted, InnerError(error))
    ensures error == None ==> FilterAt(rows, log, FoldFilter(rows, start, log, visit))
    ensures error.Some? ==> error.value.FromVisitor?
  {
    hide CoversTimeline, FilterAt, EmitsRows, FilterFrame, VisitorOutcome, InnerError, FoldFilter, FilterVisit;
    if log == [] {
      FilterRunEmpty(rows, start, visit, error);
    } else {
      var n := |log| - 1;
      VisitorOutcomePrefix(FilterVisit(rows, start, visit), log, error);
      FilterRun(rows, frameCount, start, log[..n], visit, None);
      assert log == log[..n] + [log[n]];
      FoldStep(rows, start, log[..n], log[n], visit);
      InnerErrorOfNone<E>();
      FirstIsZero(rows, frameCount);
      FilterStepKeeps(rows, frameCount, FoldFilter(rows, start, log[..n], visit), log[..n], log[n], visit);
    }
  }

  lemma FilterRunEmpty<E>(
    rows: seq<Group>, start: Filter, visit: VisitRepresentative<E>, error: Option<FilterError<E>>)
    requires FilterAt(rows, [], start) && start.emitted == []
    requires VisitorOutcome(FilterVisit(rows, start, visit), [], error)
    ensures error == None && FoldFilter(rows, start, [], visit) == start && EmitsRows(rows, [], [])
    ensures VisitorOutcome(visit, [], InnerError(error))
  {
  }

  lemma FoldStep<E>(
    rows: seq<Group>, start: Filter, log: seq<Extracted>, frame: Extracted, visit: VisitRepresentative<E>)
    ensures var step := FilterFrame(rows, FoldFilter(rows, start, log, visit), frame, visit);
      && FoldFilter(rows, start, log + [frame], visit) == step.state
      && FilterVisit(rows, start, visit)(log, frame) == step.error
  {
    hide FilterFrame;
    assert (log + [frame])[..|log|] == log;
  }

  lemma InnerErrorOfNone<E>()
    ensures InnerError<E>(None) == None
  {
  }

  lemma FirstIsZero(rows: seq<Group>, frameCount: nat)
    requires CoversTimeline(rows, frameCount)
    ensures |rows| > 0 && rows[0].first == 0
  {
  }

  datatype GroupReport = GroupReport(representatives: nat, scanned: nat, decoded: nat)

  datatype GroupError<+E> =
    | GroupIncompleteIndex
    | GroupEmptyIndex
    | GroupNoGroups
    | GroupPlan(plan: PlanError)
    | GroupNavigationFailed(navigation: NavigationError)
    | GroupCursor(cursor: CursorError)
    | GroupBatch(failure: Failure)
    | GroupVisitor(error: E)
    | GroupInvalid

  /** Every planned visit of an every-frame plan from zero is the frame of its position. */
  lemma EveryFrameLog(index: FrameIndex, plan: Plan, log: seq<Extracted>)
    requires WellFormed(plan) && plan.first == 0 && plan.stride == 1
    requires PlannedLog(index, plan, log)
    ensures |log| <= plan.last + 1
    ensures forall i :: 0 <= i < |log| ==> log[i].frameId == i <= plan.last && log[i].entry == index.entries[i]
  {
    forall i | 0 <= i < |log|
      ensures log[i].frameId == i <= plan.last && log[i].entry == index.entries[i]
    {
      assert PlannedVisit(index, plan, i, log[i]);
      TimesIsProduct(i, 1);
      PlannedIffFits(plan, i);
    }
  }

  /** The span to decode and the filter before its first frame. */
  datatype Span = Span(plan: Plan, start: Filter)

  function PlanSpan<E>(index: FrameIndex, rows: seq<Group>): Result<Span, GroupError<E>> {
    if !index.complete || index.frameCount.None? then Err(GroupIncompleteIndex)
    else if index.frameCount.value == 0 then Err(GroupEmptyIndex)
    else if |rows| == 0 then Err(GroupNoGroups)
    else
      match NextGroup(rows, CursorState(0, None))
      case Err(e) => Err(GroupCursor(e))
      case Ok(CursorStep(_, None)) => Err(GroupNoGroups)
      case Ok(CursorStep(cursor, Some(firstGroup))) =>
        match GroupContaining(rows, index.frameCount.value - 1)
        case Err(e) => Err(GroupNavigationFailed(e))
        case Ok(lastGroup) =>
          if lastGroup.groupCount != |rows| || lastGroup.ordinal + 1 != |rows| then Err(GroupInvalid)
          else if lastGroup.group.representative < firstGroup.group.representative then Err(GroupInvalid)
          else
            var range := FrameRange(firstGroup.group.representative, lastGroup.group.representative);
            match PlanExtraction(index, Request(range, 1))
            case Err(e) => Err(GroupPlan(e))
            case Ok(plan) => Ok(Span(plan, Filter(cursor, Some(firstGroup), [])))
  }

  predicate CoveredIndex(index: FrameIndex, rows: seq<Group>) {
    index.complete && index.frameCount.Some? && CoversTimeline(rows, |index.entries|)
  }

  lemma EveryFramePlan(index: FrameIndex, last: u64)
    requires index.complete && index.frameCount.Some? && last < |index.entries|
    ensures PlanExtraction(index, Request(FrameRange(0, last), 1)) == Ok(Plan(0, last, 1, last + 1))
    ensures WellFormed(Plan(0, last, 1, last + 1))
    ensures ValidatePlan(index, Plan(0, last, 1, last + 1)).Ok?
  {
    assert last / 1 == last;
  }

  /** Over a covering table the span runs from frame zero to the last representative. */
  lemma CoveredSpan<E>(index: FrameIndex, rows: seq<Group>)
    requires CoveredIndex(index, rows)
    ensures var last := rows[|rows| - 1].first;
      PlanSpan<E>(index, rows)
      == Ok(Span(Plan(0, last, 1, last + 1), Filter(CursorAt(rows, 1), Some(Target(0, |rows|, rows[0])), [])))
    ensures WellFormed(Plan(0, rows[|rows| - 1].first, 1, rows[|rows| - 1].first + 1))
    ensures ValidatePlan(index, Plan(0, rows[|rows| - 1].first, 1, rows[|rows| - 1].first + 1)).Ok?
    ensures FilterAt(rows, [], Filter(CursorAt(rows, 1), Some(Target(0, |rows|, rows[0])), []))
  {
    var n := |index.entries|;
    CoveringRows(rows, n);
    hide NextGroup, GroupContaining, PlanExtraction, ValidatePlan, WellFormed, CoversTimeline, FilterAt, CursorAt;
    hide PlanSpan;
    CursorEnumeratesRows(rows, n, 0);
    LastFrameIsInLastRow(rows, n);
    var last := rows[|rows| - 1].first;
    EveryFramePlan(index, last);
    SpanUnfolds<E>(index, rows, CursorAt(rows, 1), Target(0, |rows|, rows[0]),
                   Target(|rows| - 1, |rows|, rows[|rows| - 1]), Plan(0, last, 1, last + 1));
    FilterStarts(rows, n);
  }

  /** The span, given what the cursor, the navigator and the planner answer. */
  lemma SpanUnfolds<E>(
    index: FrameIndex, rows: seq<Group>, cursor: CursorState, first: Target, last: Target, plan: Plan)
    requires index.complete && index.frameCount.Some? && index.frameCount.value > 0 && |rows| > 0
    requires NextGroup(rows, CursorState(0, None)) == Ok(CursorStep(cursor, Some(first)))
    requires GroupContaining(rows, index.frameCount.value - 1) == Ok(last)
    requires last.groupCount == |rows| == last.ordinal + 1
    requires first.group.representative <= last.group.representative
    requires PlanExtraction(index, Request(FrameRange(first.group.representative, last.group.representative), 1))
          == Ok(plan)
    ensures PlanSpan<E>(index, rows) == Ok(Span(plan, Filter(cursor, Some(first), [])))
  {
    hide NextGroup, GroupContaining, PlanExtraction;
  }

  /** What the span needs of covering rows: they exist, start at zero and lie in the index. */
  lemma CoveringRows(rows: seq<Group>, frameCount: nat)
    requires CoversTimeline(rows, frameCount)
    ensures 0 < |rows| && 0 < frameCount
    ensures rows[0].first == 0 == rows[0].representative
    ensures rows[|rows| - 1].first == rows[|rows| - 1].representative < frameCount
    ensures CursorAt(rows, 0) == CursorState(0, None)
  {
  }

  lemma FilterStarts(rows: seq<Group>, frameCount: nat)
    requires CoversTimeline(rows, frameCount)
    ensures |rows| > 0
    ensures FilterAt(rows, [], Filter(CursorAt(rows, 1), Some(Target(0, |rows|, rows[0])), []))
  {
    hide CursorAt;
  }

  lemma LastFrameIsInLastRow(rows: seq<Group>, frameCount: nat)
    requires CoversTimeline(rows, frameCount) && frameCount <= I64_MAX
    ensures GroupContaining(rows, frameCount - 1) == Ok(Target(|rows| - 1, |rows|, rows[|rows| - 1]))
  {
    hide Search;
    SearchIsExact(rows, frameCount, frameCount - 1);
    assert Contains(rows[|rows| - 1], frameCount - 1);
  }

  /** The emissions are a prefix of the groups in order, each the first frame of its interval. */
  predicate UniquePrefix(index: FrameIndex, rows: seq<Group>, emitted: seq<Representative>) {
    && |emitted| <= |rows|
    && forall i :: 0 <= i < |emitted| ==>
         && emitted[i].frameId == rows[i].first < |index.entries|
         && emitted[i].ordinal == i + 1
         && emitted[i].total == |rows|
         && emitted[i].target == Target(i, |rows|, rows[i])
         && emitted[i].entry == index.entries[emitted[i].frameId]
  }

  predicate TrueEmissions(rows: seq<Group>, truth: seq<DecodedFrame>, emitted: seq<Representative>) {
    forall i :: 0 <= i < |emitted| && i < |rows| && rows[i].first < |truth| ==>
      var d := truth[rows[i].first];
      emitted[i].pixels == RgbaLayout(d.width, d.height, d.stride, d.pixels)
  }

  lemma EmissionsOfLog(index: FrameIndex, plan: Plan, rows: seq<Group>, log: seq<Extracted>,
                       emitted: seq<Representative>, truth: seq<DecodedFrame>)
    requires WellFormed(plan) && plan.first == 0 && plan.stride == 1 && plan.last < |index.entries|
    requires PlannedLog(index, plan, log) && EmitsRows(rows, log, emitted)
    ensures UniquePrefix(index, rows, emitted)
    ensures TrueLog(truth, log) ==> TrueEmissions(rows, truth, emitted)
  {
    EveryFrameLog(index, plan, log);
    forall i | 0 <= i < |emitted|
      ensures emitted[i].entry == index.entries[emitted[i].frameId]
      ensures TrueLog(truth, log) ==> TrueVisit(truth, log[rows[i].first])
    {
      assert EmitsRow(rows, log, i, emitted[i]);
    }
  }

  /** Every emission has the pixels of its own picture of the tape, which matched its entry, at rising positions. */
  ghost predicate EmittedFromTape(tape: seq<Pull>, emitted: seq<Representative>, positions: seq<nat>) {
    && |positions| == |emitted|
    && (forall i, j :: 0 <= i < j < |positions| ==> positions[i] < positions[j])
    && (forall i :: 0 <= i < |emitted| ==> PictureOf(tape, positions[i], emitted[i].entry, emitted[i].pixels))
  }

  /** Where the emitted ones among all visited frames lie. */
  ghost function EmittedPositions(emitted: seq<Representative>, positions: seq<nat>): seq<nat>
    requires forall i :: 0 <= i < |emitted| ==> emitted[i].frameId < |positions|
  {
    seq(|emitted|, i requires 0 <= i < |emitted| => positions[emitted[i].frameId])
  }

  lemma EmissionsFromTape(
    rows: seq<Group>, frameCount: nat, log: seq<Extracted>, emitted: seq<Representative>, tape: seq<Pull>,
    positions: seq<nat>)
    requires CoversTimeline(rows, frameCount) && EmitsRows(rows, log, emitted)
    requires FromTape(tape, log, positions, |tape|)
    ensures forall i :: 0 <= i < |emitted| ==> emitted[i].frameId < |positions|
    ensures EmittedFromTape(tape, emitted, EmittedPositions(emitted, positions))
  {
    hide PictureOf;
    forall i | 0 <= i < |emitted|
      ensures emitted[i].frameId < |positions|
      ensures PictureOf(tape, positions[emitted[i].frameId], emitted[i].entry, emitted[i].pixels)
    {
      assert EmitsRow(rows, log, i, emitted[i]);
      assert PictureAt(tape, positions[emitted[i].frameId], log[emitted[i].frameId]);
    }
    forall i, j | 0 <= i < j < |emitted|
      ensures emitted[i].frameId < emitted[j].frameId
    {
      assert EmitsRow(rows, log, i, emitted[i]) && EmitsRow(rows, log, j, emitted[j]);
      RowsAreOrdered(rows, frameCount, i, j);
    }
  }

  /** The decode log of a covered span, seen through the filter. */
  lemma CoveredLog<E>(
    index: FrameIndex, rows: seq<Group>, plan: Plan, start: Filter, log: seq<Extracted>,
    visit: VisitRepresentative<E>, error: Option<FilterError<E>>, truth: seq<DecodedFrame>)
    requires CoveredIndex(index, rows) && WellFormed(plan)
    requires plan == Plan(0, rows[|rows| - 1].first, 1, rows[|rows| - 1].first + 1)
    requires FilterAt(rows, [], start) && start.emitted == [] && PlannedLog(index, plan, log)
    requires VisitorOutcome(FilterVisit(rows, start, visit), log, error)
    ensures var filter := FoldFilter(rows, start, log, visit);
      && UniquePrefix(index, rows, filter.emitted)
      && VisitorOutcome(visit, filter.emitted, InnerError(error))
      && (error.Some? ==> error.value.FromVisitor?)
      && (TrueLog(truth, log) ==> TrueEmissions(rows, truth, filter.emitted))
      && EmitsRows(rows, log, filter.emitted)
      && (error.None? && |log| == plan.count ==>
            |filter.emitted| == |rows| && filter.next == None && filter.cursor.emitted == |rows|)
  {
    CoveringRows(rows, |index.entries|);
    hide CoversTimeline, FilterAt, EmitsRows, VisitorOutcome, FoldFilter, FilterVisit, PlannedLog, UniquePrefix,
         TrueEmissions, TrueLog, WellFormed;
    var filter := FoldFilter(rows, start, log, visit);
    EveryFrameLog(index, plan, log);
    FilterRun(rows, |index.entries|, start, log, visit, error);
    EmissionsOfLog(index, plan, rows, log, filter.emitted, truth);
    if error.None? && |log| == plan.count {
      RepresentativesComplete(rows, |index.entries|, log, filter);
    }
  }

  lemma EmittedWasVisited(rows: seq<Group>, log: seq<Extracted>, emitted: seq<Representative>, frameCount: nat)
    requires CoversTimeline(rows, frameCount) && EmitsRows(rows, log, emitted)
    ensures |emitted| <= |log|
  {
    if emitted != [] {
      var n := |emitted| - 1;
      assert EmitsRow(rows, log, n, emitted[n]);
      RowsStartLate(rows, frameCount, n);
    }
  }

  lemma {:induction false} RowsStartLate(rows: seq<Group>, frameCount: nat, n: nat)
    requires CoversTimeline(rows, frameCount) && n < |rows|
    ensures rows[n].first >= n
  {
    if n > 0 {
      RowsStartLate(rows, frameCount, n - 1);
      RowsAreOrdered(rows, frameCount, n - 1, n);
    }
  }

  lemma NoPolls(polls: seq<bool>)
    ensures PollsAnswered(polls, 0, false)
  {
  }

  /**
   * The first frame of every group, through the visitor. Whatever the decoder does, each emission has the
   * pixels of its own picture of the tape that an opened attempt played.
   */
  method ExtractGroupRepresentatives<E>(
    index: FrameIndex, rows: seq<Group>, attempts: seq<Attempt>, polls: seq<bool>,
    visit: VisitRepresentative<E>, ghost truth: seq<DecodedFrame>)
    returns (r: Result<GroupReport, GroupError<E>>, emitted: seq<Representative>,
             ghost tape: seq<Pull>, ghost positions: seq<nat>, ghost asked: int)
    ensures CoveredIndex(index, rows) && emitted != [] ==>
      TapeOf(attempts, tape) && EmittedFromTape(tape, emitted, positions)
    ensures PollsAnswered(polls, asked, r.Err? && r.error.GroupBatch? && r.error.failure == Cancelled)
    ensures CoveredIndex(index, rows) ==> asked >= Min(|polls|, |emitted|)
    ensures CoveredIndex(index, rows) ==>
      && UniquePrefix(index, rows, emitted)
      && (r.Ok? ==> |emitted| == |rows| == r.value.representatives)
      && (r.Ok? ==> |rows| > 0 && r.value.scanned == rows[|rows| - 1].first + 1)
      && (r.Err? ==> r.error.GroupBatch? || r.error.GroupVisitor?)
      && VisitorOutcome(visit, emitted, if r.Err? && r.error.GroupVisitor? then Some(r.error.error) else None)
    ensures CoveredIndex(index, rows) && CooperativeRun(index, truth, attempts, polls) ==>
      (r.Ok? || r.error.GroupVisitor?) && TrueEmissions(rows, truth, emitted)
  {
    hide PlanSpan, ValidatePlan, WellFormed, CoversTimeline, PlannedLog, VisitorOutcome, EmitsRows, FilterAt,
         FilterVisit, UniquePrefix, TrueEmissions, TrueTimeline, CooperativeAttempt, TrueLog, FoldFilter, FromTape,
         CursorAt, TapeOf, EmittedFromTape, PollsAnswered, Reconciled, InStep, Batch.Heard, Batch.Due, Batch.Explained,
         Batch.StartedOn, Batch.OnAttempt, Batch.LastOpened, Batch.Scripted, Batch.Admitted, SeekAnchor, CooperativeRun;
    emitted, tape, positions, asked := [], [], [], 0;
    ghost var covered := CoveredIndex(index, rows);
    if covered {
      FirstIsZero(rows, |index.entries|);
      CoveredSpan<E>(index, rows);
    }
    SpanHasStride<E>(index, rows);
    var span := PlanSpan<E>(index, rows);
    if span.Err? {
      NoPolls(polls);
      return Err(span.error), [], [], [], 0;
    }
    var plan, start := span.value.plan, span.value.start;
    var batch := new Batch(index, attempts, polls);
    var outcome: Result<Report, ExtractionError<FilterError<E>>> :=
      batch.ExtractRgbaPlan(plan, FilterVisit(rows, start, visit), truth);
    batch.PollsOfRun(outcome.Err? && outcome.error.Failed? && outcome.error.failure == Cancelled);
    asked := batch.Asked();
    var filter := FoldFilter(rows, start, batch.log, visit);
    emitted := filter.emitted;
    if covered {
      CoveredLog(index, rows, plan, start, batch.log, visit, VisitorError(outcome), truth);
      EmittedWasVisited(rows, batch.log, emitted, |index.entries|);
      if emitted != [] {
        EmissionsFromTape(rows, |index.entries|, batch.log, emitted, batch.tape, batch.positions);
        tape, positions := batch.tape, EmittedPositions(emitted, batch.positions);
      }
    }
    match outcome
    case Err(Failed(failure)) => return Err(GroupBatch(failure)), emitted, tape, positions, asked;
    case Err(Visitor(Groups(e))) => return Err(GroupCursor(e)), emitted, tape, positions, asked;
    case Err(Visitor(FromVisitor(e))) => return Err(GroupVisitor(e)), emitted, tape, positions, asked;
    case Err(Visitor(InvalidExport)) => return Err(GroupInvalid), emitted, tape, positions, asked;
    case Ok(report) =>
      if |emitted| != |rows| || filter.next.Some? || filter.cursor.emitted < |rows| {
        return Err(GroupInvalid), emitted, tape, positions, asked;
      }
      return Ok(GroupReport(|emitted|, report.selected, report.decoded)), emitted, tape, positions, asked;
  }

  lemma SpanHasStride<E>(index: FrameIndex, rows: seq<Group>)
    ensures PlanSpan<E>(index, rows).Ok? ==> PlanSpan<E>(index, rows).value.plan.stride == 1
    ensures PlanSpan<E>(index, rows).Err? ==> !PlanSpan<E>(index, rows).error.GroupBatch?
  {
    hide NextGroup, GroupContaining;
  }

  /** After the whole span every group has been emitted and the cursor is exhausted. */
  lemma RepresentativesComplete(rows: seq<Group>, frameCount: nat, log: seq<Extracted>, filter: Filter)
    requires CoversTimeline(rows, frameCount) && FilterAt(rows, log, filter)
    requires |log| == rows[|rows| - 1].first + 1
    ensures |filter.emitted| == |rows| && filter.next == None && filter.cursor.emitted == |rows|
  {
    var m := |filter.emitted|;
    if m < |rows| - 1 {
      RowsAreOrdered(rows, frameCount, m, |rows| - 1);
    }
  }
}
