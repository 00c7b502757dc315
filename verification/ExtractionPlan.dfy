/** Resolving a selection against the frame index into a constant-memory arithmetic plan. */
module ExtractionPlan {
  import opened Common
  import opened Frames

  datatype StreamIdentity = StreamIdentity(
    streamIndex: nat, codec: string, timeBase: TimeBase, width: Option<nat>, height: Option<nat>)

  /** The persistent index: row `k` is the entry of frame `k`. */
  datatype IndexTable = IndexTable(
    complete: bool, frameCount: Option<u64>, entries: seq<Entry>, stream: StreamIdentity)
  {
    predicate Valid() {
      && |entries| <= I64_MAX
      && (forall k :: 0 <= k < |entries| ==> entries[k].frameId == k)
      && (frameCount.Some? ==> frameCount.value == |entries|)
    }

    function EntryAt(frameId: u64): Option<Entry> {
      if frameId < |entries| then Some(entries[frameId]) else None
    }
  }

  type FrameIndex = i: IndexTable | i.Valid()
    witness IndexTable(false, None, [], StreamIdentity(0, "", TimeBase(1, 1), None, None))

  /** Timestamp lookups are answered by the index; the plan receives the rows it found. */
  datatype Selection =
    | CurrentFrame(frameId: u64)
    | FrameRange(start: u64, end: u64)
    | TimestampRange(startUs: int, endUs: int, firstAtOrAfter: Option<Found>, lastAtOrBefore: Option<Found>)
    | AllFrames

  /** A row returned by a timestamp lookup, with its microsecond timestamp. */
  datatype Found = Found(frameId: u64, timestampUs: Option<int>)

  datatype Request = Request(selection: Selection, stride: u64)

  datatype Plan = Plan(first: u64, last: u64, stride: u64, count: u64) {
    predicate Contains(frameId: u64)
      requires stride > 0
    {
      first <= frameId <= last && (frameId - first) % stride == 0
    }
  }

  datatype PlanError =
    | IncompletePlanIndex
    | MissingFrameCount
    | EmptyIndex
    | FrameOutOfRange(requested: u64)
    | InvalidFrameRange
    | InvalidTimestampRange
    | NoFramesInTimestampRange
    | PlanNumericRange

  function ResolveBounds(selection: Selection, frameCount: u64): Result<(u64, u64), PlanError>
    requires 0 < frameCount
  {
    match selection
    case CurrentFrame(id) => if id < frameCount then Ok((id, id)) else Err(FrameOutOfRange(id))
    case FrameRange(start, end) =>
      if start > end then Err(InvalidFrameRange)
      else if start >= frameCount then Err(FrameOutOfRange(start))
      else if end >= frameCount then Err(FrameOutOfRange(end))
      else Ok((start, end))
    case TimestampRange(startUs, endUs, first, last) =>
      if startUs > endUs then Err(InvalidTimestampRange)
      else if first.None? || last.None? then Err(NoFramesInTimestampRange)
      else if first.value.timestampUs.None? || last.value.timestampUs.None? then Err(NoFramesInTimestampRange)
      else if first.value.frameId > last.value.frameId || first.value.timestampUs.value > endUs
        || last.value.timestampUs.value < startUs then Err(NoFramesInTimestampRange)
      else Ok((first.value.frameId, last.value.frameId))
    case AllFrames => Ok((0, frameCount - 1))
  }

  function PlanExtraction(index: FrameIndex, request: Request): Result<Plan, PlanError>
    requires request.stride > 0
  {
    if !index.complete then Err(IncompletePlanIndex)
    else if index.frameCount.None? then Err(MissingFrameCount)
    else if index.frameCount.value == 0 then Err(EmptyIndex)
    else
      match ResolveBounds(request.selection, index.frameCount.value)
      case Err(e) => Err(e)
      case Ok(bounds) =>
        var count := (bounds.1 - bounds.0) / request.stride + 1;
        if bounds.1 < bounds.0 || count > U64_MAX then Err(PlanNumericRange)
        else Ok(Plan(bounds.0, bounds.1, request.stride, count))
  }

  /** The `i`-th planned frame: `first + i * stride`. */
  function PlannedId(plan: Plan, i: nat): nat {
    plan.first + Times(i, plan.stride)
  }

  /** How many steps from `first` stay at or below `last`. */
  function Fitting(plan: Plan): nat
    requires plan.stride > 0
  {
    if plan.first > plan.last then 0 else (plan.last - plan.first) / plan.stride + 1
  }

  /** The count matches the bounds: the planned frames are exactly those that fit. */
  predicate WellFormed(plan: Plan) {
    plan.stride > 0 && plan.first <= plan.last && plan.count == Fitting(plan)
  }

  /** The row a timestamp lookup found is a row of this index. */
  predicate LookupsInIndex(index: FrameIndex, request: Request) {
    request.selection.TimestampRange? && request.selection.lastAtOrBefore.Some? ==>
      request.selection.lastAtOrBefore.value.frameId < |index.entries|
  }

  /** A plan produced for an index is well formed and stays inside it. */
  lemma PlansAreWellFormed(index: FrameIndex, request: Request)
    requires request.stride > 0 && PlanExtraction(index, request).Ok?
    requires LookupsInIndex(index, request)
    ensures var plan := PlanExtraction(index, request).value;
      WellFormed(plan) && plan.last < |index.entries|
  {
  }

  lemma {:induction false} PlannedIdsIncrease(plan: Plan, i: nat, j: nat)
    requires plan.stride > 0 && i < j
    ensures PlannedId(plan, i) + plan.stride <= PlannedId(plan, j)
  {
    TimesMonotone(i + 1, j, plan.stride);
  }

  lemma FloorQuotient(d: nat, stride: nat, i: nat)
    requires stride > 0
    ensures i <= d / stride <==> i * stride <= d
  {
    var q := d / stride;
    assert q * stride <= d < (q + 1) * stride;
    if i <= q {
      MulMonotone(i, q, stride);
    } else {
      MulMonotone(q + 1, i, stride);
    }
  }

  /** The planned frames are the ones at most `last`. */
  lemma PlannedIffFits(plan: Plan, i: nat)
    requires plan.stride > 0
    ensures i < Fitting(plan) <==> PlannedId(plan, i) <= plan.last
  {
    if plan.first <= plan.last {
      TimesIsProduct(i, plan.stride);
      FloorQuotient(plan.last - plan.first, plan.stride, i);
    }
  }

  /** Between two planned frames membership holds exactly at the later one. */
  lemma ContainsNextOnly(plan: Plan, k: nat, current: u64)
    requires WellFormed(plan) && k < plan.count
    requires plan.first <= current <= PlannedId(plan, k)
    requires k > 0 ==> PlannedId(plan, k - 1) < current
    requires k == 0 ==> current == plan.first
    ensures plan.Contains(current) <==> current == PlannedId(plan, k)
  {
    PlannedIffFits(plan, k);
    var d := current - plan.first;
    TimesIsProduct(k, plan.stride);
    if d % plan.stride == 0 {
      var q := d / plan.stride;
      assert d == q * plan.stride;
      FloorQuotient(d, plan.stride, k);
      if k > 0 && q < k {
        TimesIsProduct(k - 1, plan.stride);
        MulMonotone(q, k - 1, plan.stride);
      }
    } else {
      ProductIsDivisible(k, plan.stride);
    }
  }

  lemma ProductIsDivisible(k: nat, stride: nat)
    requires stride > 0
    ensures Times(k, stride) % stride == 0
  {
    TimesIsProduct(k, stride);
    var d := k * stride;
    FloorQuotient(d, stride, k);
    var q := d / stride;
    assert q * stride <= d;
    FloorQuotient(d, stride, q);
    MulMonotone(k, q, stride);
  }

  /** `k` planned frames lie before `current`, and the next one is at or after it. */
  predicate AtPosition(plan: Plan, k: nat, current: u64) {
    && k < plan.count
    && plan.first <= current <= PlannedId(plan, k)
    && (k > 0 ==> PlannedId(plan, k - 1) < current)
  }

  /** One step of the frame counter: membership decides whether the planned counter moves, and the
      final planned frame is reached exactly when all planned frames are counted. */
  lemma PositionStep(plan: Plan, k: nat, current: u64)
    requires WellFormed(plan) && AtPosition(plan, k, current) && current < U64_MAX
    ensures plan.Contains(current) ==> current == PlannedId(plan, k)
    ensures current <= PlannedId(plan, plan.count - 1)
    ensures var reached := if plan.Contains(current) then k + 1 else k;
      if current == PlannedId(plan, plan.count - 1) then reached == plan.count
      else AtPosition(plan, reached, current + 1)
  {
    assert k == 0 ==> current == plan.first;
    hide Times;
    ContainsNextOnly(plan, k, current);
    if k < plan.count - 1 {
      PlannedIdsIncrease(plan, k, plan.count - 1);
      PlannedIdsIncrease(plan, k, k + 1);
    }
  }

  /** Membership is exactly being one of the planned frames. */
  lemma ContainsIffPlanned(plan: Plan, frameId: u64)
    requires WellFormed(plan)
    ensures plan.Contains(frameId) <==> exists i: nat :: i < plan.count && frameId == PlannedId(plan, i)
  {
    if plan.Contains(frameId) {
      var q := (frameId - plan.first) / plan.stride;
      TimesIsProduct(q, plan.stride);
      assert frameId == PlannedId(plan, q);
      PlannedIffFits(plan, q);
    }
    forall i: nat | i < plan.count && frameId == PlannedId(plan, i)
      ensures plan.Contains(frameId)
    {
      PlannedIffFits(plan, i);
      ProductIsDivisible(i, plan.stride);
    }
  }

  // ---------------------------------------------------------------- what a request asks for

  /** Both lookups found a row with a timestamp, and the rows span part of the asked interval. */
  predicate FoundInRange(selection: Selection)
    requires selection.TimestampRange?
  {
    && selection.startUs <= selection.endUs
    && selection.firstAtOrAfter.Some? && selection.firstAtOrAfter.value.timestampUs.Some?
    && selection.lastAtOrBefore.Some? && selection.lastAtOrBefore.value.timestampUs.Some?
    && selection.firstAtOrAfter.value.frameId <= selection.lastAtOrBefore.value.frameId
    && selection.firstAtOrAfter.value.timestampUs.value <= selection.endUs
    && selection.startUs <= selection.lastAtOrBefore.value.timestampUs.value
  }

  /** Frame `id` is one of those the request asks for. */
  predicate Requested(index: FrameIndex, request: Request, id: u64)
    requires request.stride > 0
  {
    match request.selection
    case CurrentFrame(asked) => id == asked
    case FrameRange(start, end) => start <= id <= end && (id - start) % request.stride == 0
    case TimestampRange(_, _, first, last) =>
      && first.Some? && last.Some? && first.value.frameId <= id <= last.value.frameId
      && (id - first.value.frameId) % request.stride == 0
    case AllFrames => id < |index.entries| && id % request.stride == 0
  }

  /** A request is planned exactly when the index is complete, not empty, and holds what is asked for. */
  lemma PlannedIffAvailable(index: FrameIndex, request: Request)
    requires request.stride > 0 && LookupsInIndex(index, request)
    ensures PlanExtraction(index, request).Ok? <==>
      && index.complete && index.frameCount.Some? && index.entries != []
      && (request.selection.CurrentFrame? ==> request.selection.frameId < |index.entries|)
      && (request.selection.FrameRange? ==>
            request.selection.start <= request.selection.end < |index.entries|)
      && (request.selection.TimestampRange? ==> FoundInRange(request.selection))
  {
    CountFits(index, request);
  }

  /** The count of a planned range fits its 64 bits, so the range check after the division is dead. */
  lemma CountFits(index: FrameIndex, request: Request)
    requires request.stride > 0 && LookupsInIndex(index, request)
    ensures PlanExtraction(index, request) != Err(PlanNumericRange)
  {
    if index.frameCount.Some? && index.frameCount.value > 0 {
      var bounds := ResolveBounds(request.selection, index.frameCount.value);
      if bounds.Ok? && bounds.value.0 <= bounds.value.1 {
        DivideDown(bounds.value.1 - bounds.value.0, request.stride);
      }
    }
  }

  lemma DivideDown(d: nat, stride: nat)
    requires stride > 0
    ensures d / stride <= d
  {
    MulMonotone(1, stride, d / stride);
  }

  /** The planned frames are exactly the requested ones, at the request's own stride. */
  lemma PlannedIffRequested(index: FrameIndex, request: Request, id: u64)
    requires request.stride > 0 && PlanExtraction(index, request).Ok?
    ensures var plan := PlanExtraction(index, request).value;
      && plan.stride == request.stride
      && (Requested(index, request, id) <==> exists i: nat :: i < plan.count && id == PlannedId(plan, i))
  {
    var plan := PlanExtraction(index, request).value;
    ContainsIffPlanned(plan, id);
  }

  /** Refusals name what is wrong: the index first, then the request. */
  lemma RefusedAs(index: FrameIndex, request: Request)
    requires request.stride > 0 && LookupsInIndex(index, request)
    ensures PlanExtraction(index, request) == Err(IncompletePlanIndex) <==> !index.complete
    ensures PlanExtraction(index, request) == Err(EmptyIndex) <==>
      index.complete && index.frameCount.Some? && index.entries == []
    ensures index.complete && index.frameCount.Some? && request.selection.FrameRange? && index.entries != [] ==>
      && (PlanExtraction(index, request) == Err(InvalidFrameRange) <==>
            request.selection.start > request.selection.end)
      && (PlanExtraction(index, request).Err? && request.selection.start <= request.selection.end ==>
            PlanExtraction(index, request).error.FrameOutOfRange?)
    ensures index.complete && index.frameCount.Some? && request.selection.TimestampRange? && index.entries != [] ==>
      && (PlanExtraction(index, request) == Err(InvalidTimestampRange) <==>
            request.selection.startUs > request.selection.endUs)
      && (PlanExtraction(index, request).Err? && request.selection.startUs <= request.selection.endUs ==>
            PlanExtraction(index, request) == Err(NoFramesInTimestampRange))
  {
    CountFits(index, request);
  }

  /** The constant-memory iterator: one number, the bound and the stride. */
  class PlannedFrameIds {
    var next: Option<u64>
    const last: u64
    const stride: u64

    constructor (plan: Plan)
      ensures next == Some(plan.first) && last == plan.last && stride == plan.stride
    {
      next, last, stride := Some(plan.first), plan.last, plan.stride;
    }

    /** The iterator has produced the first `k` planned frames. */
    ghost predicate At(plan: Plan, k: nat)
      reads this
    {
      && last == plan.last && stride == plan.stride
      && plan.stride > 0
      && k <= Fitting(plan)
      && next == (if k == 0 || k < Fitting(plan) then Some(PlannedId(plan, k)) else None)
    }

    method Next(ghost plan: Plan, ghost k: nat) returns (id: Option<u64>)
      requires At(plan, k)
      modifies this
      ensures k < Fitting(plan) ==> id == Some(PlannedId(plan, k)) && At(plan, k + 1)
      ensures k == Fitting(plan) ==> id == None && next == None
    {
      if next.None? {
        return None;
      }
      var current := next.value;
      PlannedIffFits(plan, k);
      PlannedIffFits(plan, k + 1);
      if current > last {
        next := None;
        return None;
      }
      if current + stride <= last {
        next := Some(current + stride);
      } else {
        next := None;
      }
      return Some(current);
    }
  }

  /** Draining the iterator yields every fitting frame once, in order, for any bounds. */
  method CollectFrameIds(plan: Plan) returns (ids: seq<u64>)
    requires plan.stride > 0
    ensures |ids| == Fitting(plan)
    ensures forall i :: 0 <= i < |ids| ==> ids[i] == PlannedId(plan, i)
  {
    var planned := new PlannedFrameIds(plan);
    ids := [];
    while true
      invariant fresh(planned)
      invariant |ids| <= Fitting(plan) && planned.At(plan, |ids|)
      invariant forall i :: 0 <= i < |ids| ==> ids[i] == PlannedId(plan, i)
      decreases Fitting(plan) - |ids|
    {
      var id := planned.Next(plan, |ids|);
      if id.None? {
        return;
      }
      ids := ids + [id.value];
    }
  }
}
