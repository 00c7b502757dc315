/**
 Building the group rows of a complete index from a sequential source, and the whole unique-frame
 export on top of them.
 */
module GroupBuild {
  import opened Common
  import opened Frames
  import opened Perceptual
  import opened Grouping
  import opened GroupNavigation
  import opened ExtractionPlan
  import opened ExtractionVideo
  import opened GroupExport

  datatype SourceFrame = SourceFrame(
    frameId: u64, timestamp: Option<Timestamp>, duration: Option<Timestamp>,
    keyframe: bool, corrupt: bool, pixels: Frame)

  datatype SourcePull = Delivered(frame: SourceFrame) | SourceFailed

  datatype BuildError =
    | BuildIncompleteIndex
    | BuildInvalidPolicy
    | BuildCancelled
    | BuildSource
    | BuildTimelineMismatch
    | BuildGrouping(error: GroupingError)

  predicate MatchesSource(index: FrameIndex, entry: Entry, f: SourceFrame) {
    && f.frameId == entry.frameId
    && f.timestamp == entry.timestamp
    && f.duration == entry.duration
    && f.keyframe == entry.keyframe
    && f.corrupt == entry.corrupt
    && (index.stream.width.Some? ==> index.stream.width.value == f.pixels.width)
    && (index.stream.height.Some? ==> index.stream.height.value == f.pixels.height)
  }

  /** The source frame is the indexed one in every respect the index knows, and has the stream's size. */
  ghost predicate SameFrame(index: FrameIndex, entry: Entry, f: SourceFrame) {
    && (f.frameId, f.timestamp, f.duration) == (entry.frameId, entry.timestamp, entry.duration)
    && (f.keyframe, f.corrupt) == (entry.keyframe, entry.corrupt)
    && (index.stream.width == None || index.stream.width == Some(f.pixels.width))
    && (index.stream.height == None || index.stream.height == Some(f.pixels.height))
  }

  /** The frames of the index paired with the pixels the source delivered for them. */
  function Items(index: FrameIndex, source: seq<SourcePull>, n: nat): (r: seq<Item>)
    requires n <= |index.entries| && n <= |source|
    requires forall i :: 0 <= i < n ==> source[i].Delivered?
    ensures |r| == n
    ensures forall i :: 0 <= i < n ==> r[i] == Item(index.entries[i], source[i].frame.pixels)
  {
    seq(n, i requires 0 <= i < n => Item(index.entries[i], source[i].frame.pixels))
  }

  lemma ItemsStep(index: FrameIndex, source: seq<SourcePull>, n: nat)
    requires n < |index.entries| && n < |source|
    requires forall i :: 0 <= i <= n ==> source[i].Delivered?
    ensures Items(index, source, n + 1) == Items(index, source, n) + [Item(index.entries[n], source[n].frame.pixels)]
  {
  }

  /** A source that plays exactly the index, every frame with a timestamp and the stream's size. */
  predicate FaithfulSource(index: FrameIndex, source: seq<SourcePull>) {
    |source| == |index.entries| && FaithfulPrefix(index, source)
  }

  /** The same, with anything after the last indexed frame. */
  predicate FaithfulPrefix(index: FrameIndex, source: seq<SourcePull>) {
    && |source| >= |index.entries|
    && index.stream.width.Some? && index.stream.height.Some?
    && (forall i :: 0 <= i < |index.entries| ==> source[i].Delivered?)
    && (forall i :: 0 <= i < |index.entries| ==> MatchesSource(index, index.entries[i], source[i].frame))
    && (forall i :: 0 <= i < |index.entries| ==> index.entries[i].timestamp.Some?)
  }

  /** Nobody cancels, the policy is valid, and a faithful source opens. */
  predicate BuildSucceeds(
    index: FrameIndex, policy: Policy, opens: bool, source: seq<SourcePull>, polls: seq<bool>)
  {
    index.frameCount.Some? && ValidPolicy(policy) && opens && true !in polls && FaithfulSource(index, source)
  }

  /** What the poll, the source or the delivered frame at this place says. */
  ghost predicate PullExplained(
    index: FrameIndex, source: seq<SourcePull>, polls: seq<bool>, id: nat, error: BuildError)
    requires id < |index.entries|
  {
    match error
    case BuildCancelled => CancelledAt(polls, 2 * id + 1) || CancelledAt(polls, 2 * id + 2)
    case BuildSource => id < |source| && source[id].SourceFailed?
    case BuildTimelineMismatch =>
      id >= |source| || (source[id].Delivered? && !SameFrame(index, index.entries[id], source[id].frame))
    case _ => false
  }

  /** One source read with its cancellation polls and reconciliation against the index. */
  function PullFrame(index: FrameIndex, source: seq<SourcePull>, polls: seq<bool>, id: nat)
    : (r: Result<Frame, BuildError>)
    requires id < |index.entries|
    ensures r.Ok? ==> id < |source| && source[id].Delivered? && r.value == source[id].frame.pixels
    ensures true !in polls && FaithfulPrefix(index, source) ==> r.Ok?
    ensures r.Ok? ==> SameFrame(index, index.entries[id], source[id].frame)
    ensures r.Err? ==> PullExplained(index, source, polls, id, r.error)
    ensures r.Ok? ==> !CancelledAt(polls, 2 * id + 1) && !CancelledAt(polls, 2 * id + 2)
    ensures FaithfulPrefix(index, source) && r.Err? ==> r.error == BuildCancelled
  {
    if CancelledAt(polls, 2 * id + 1) then Err(BuildCancelled)
    else if id >= |source| then Err(BuildTimelineMismatch)
    else if source[id].SourceFailed? then Err(BuildSource)
    else if CancelledAt(polls, 2 * id + 2) then Err(BuildCancelled)
    else if !MatchesSource(index, index.entries[id], source[id].frame) then Err(BuildTimelineMismatch)
    else Ok(source[id].frame.pixels)
  }

  /** The answer stands for the failure: a poll, the factory or the source, or a delivered frame that differs. */
  ghost predicate BuildExplained(
    index: FrameIndex, policy: Policy, opens: bool, source: seq<SourcePull>, polls: seq<bool>, error: BuildError)
  {
    match error
    case BuildIncompleteIndex => index.frameCount.None?
    case BuildInvalidPolicy => !ValidPolicy(policy)
    case BuildCancelled => true in polls
    case BuildSource => !opens || SourceFailed in source
    case BuildTimelineMismatch =>
      || |source| < |index.entries|
      || (|source| > |index.entries| && source[|index.entries|].Delivered?)
      || (exists i | 0 <= i < |index.entries| ::
            source[i].Delivered? && !SameFrame(index, index.entries[i], source[i].frame))
    case BuildGrouping(_) => !FaithfulPrefix(index, source)
  }

  /** The build loop, after the policy has been accepted: one frame at a time, cancellation polled before
      the source is opened and around every read of it. `opens` is the answer of the source factory. */
  method BuildGroups(index: FrameIndex, policy: Policy, opens: bool, source: seq<SourcePull>, polls: seq<bool>)
    returns (r: Result<seq<Group>, BuildError>)
    ensures r.Ok? ==>
      && ValidPolicy(policy) && index.frameCount.Some?
      && |source| == |index.entries|
      && (forall i :: 0 <= i < |source| ==> source[i].Delivered?)
      && GreedyPartition(policy, Items(index, source, |source|), r.value)
      && (index.entries != [] ==> CoversTimeline(r.value, |index.entries|))
    ensures r.Err? ==> BuildExplained(index, policy, opens, source, polls, r.error)
    ensures index.frameCount.None? <==> r == Err(BuildIncompleteIndex)
    ensures index.frameCount.Some? && !ValidPolicy(policy) <==> r == Err(BuildInvalidPolicy)
    ensures index.frameCount.Some? && ValidPolicy(policy) && CancelledAt(polls, 0) ==> r == Err(BuildCancelled)
    ensures index.frameCount.Some? && ValidPolicy(policy) && !CancelledAt(polls, 0) && !opens ==>
      r == Err(BuildSource)
    ensures r.Ok? ==> |source| == |index.entries| && forall i | 0 <= i < |source| ::
      source[i].Delivered? && SameFrame(index, index.entries[i], source[i].frame)
    ensures r.Ok? ==> forall k | 0 <= k < |polls| && k <= 2 * |index.entries| + 1 :: !polls[k]
    ensures index.frameCount.Some? && ValidPolicy(policy) && opens && FaithfulSource(index, source)
            && (exists k | 0 <= k < |polls| && k <= 2 * |index.entries| + 1 :: polls[k]) ==>
      r == Err(BuildCancelled)
    ensures index.frameCount.Some? && ValidPolicy(policy) && opens && true !in polls && FaithfulPrefix(index, source)
            && |source| > |index.entries| ==>
      r == Err(if source[|index.entries|].SourceFailed? then BuildSource else BuildTimelineMismatch)
    ensures BuildSucceeds(index, policy, opens, source, polls) ==> r.Ok?
  {
    hide PushStep, RunAll, GreedyPartition, CoversTimeline, PullFrame, MatchesSource, Items, FaithfulSource,
         FaithfulPrefix, SameFrame, CancelledAt;
    CancelledIsAnswered(polls);
    if index.frameCount.None? {
      return Err(BuildIncompleteIndex);
    }
    if !ValidPolicy(policy) {
      return Err(BuildInvalidPolicy);
    }
    if CancelledAt(polls, 0) {
      return Err(BuildCancelled);
    }
    if !opens {
      return Err(BuildSource);
    }
    ghost var faithful := FaithfulPrefix(index, source);
    if FaithfulSource(index, source) {
      FaithfulLength(index, source);
    }
    NothingRun(index, policy, source);
    var created := HybridFrameGrouper.New(policy);
    var grouper := created.value;
    var rows: seq<Group> := [];
    var n := index.frameCount.value;
    for id := 0 to n
      invariant id <= |source|
      invariant forall i :: 0 <= i < id ==> source[i].Delivered?
      invariant forall k | 0 <= k <= 2 * id :: !CancelledAt(polls, k)
      invariant forall i | 0 <= i < id :: SameFrame(index, index.entries[i], source[i].frame)
      invariant fresh(grouper) && grouper.policy == policy
      invariant RunAll(policy, Items(index, source, id)) == Run(Items(index, source, id), rows, grouper.active)
    {
      var pulled := PullFrame(index, source, polls, id);
      if pulled.Err? {
        return Err(pulled.error);
      }
      var pixels := pulled.value;
      if faithful {
        FaithfulPushSucceeds(index, policy, source, id);
      }
      ghost var item := Item(index.entries[id], pixels);
      ItemsStep(index, source, id);
      var pushed := grouper.Push(index.entries[id], pixels);
      if pushed.Err? {
        return Err(BuildGrouping(pushed.error));
      }
      RunAccepts(policy, Items(index, source, id), item);
      if pushed.value.Some? {
        rows := rows + [pushed.value.value];
      }
    }
    if CancelledAt(polls, 2 * n + 1) {
      return Err(BuildCancelled);
    }
    QuietUpTo(polls, 2 * n + 1);
    if |source| > n {
      return Err(if source[n].SourceFailed? then BuildSource else BuildTimelineMismatch);
    }
    StreamingIsGreedy(policy, Items(index, source, n));
    var last := grouper.Finish();
    if last.Some? {
      rows := rows + [last.value];
    }
    if index.entries != [] {
      StartsAtZero(index, source);
      GreedyRowsCoverTimeline(policy, Items(index, source, n), rows);
    }
    return Ok(rows);
  }

  lemma FaithfulLength(index: FrameIndex, source: seq<SourcePull>)
    requires FaithfulSource(index, source)
    ensures |source| == |index.entries| && FaithfulPrefix(index, source)
  {
  }

  lemma NothingRun(index: FrameIndex, policy: Policy, source: seq<SourcePull>)
    ensures RunAll(policy, Items(index, source, 0)) == Run([], [], None)
    ensures Items(index, source, 0) == []
  {
  }

  lemma StartsAtZero(index: FrameIndex, source: seq<SourcePull>)
    requires 0 < |index.entries| <= |source| && forall i :: 0 <= i < |index.entries| ==> source[i].Delivered?
    ensures Items(index, source, |index.entries|) != []
    ensures Base(Items(index, source, |index.entries|)) == 0
  {
  }

  predicate CancelledAt(polls: seq<bool>, k: nat) {
    k < |polls| && polls[k]
  }

  lemma QuietUpTo(polls: seq<bool>, last: nat)
    requires forall k | 0 <= k <= last :: !CancelledAt(polls, k)
    ensures forall k | 0 <= k < |polls| && k <= last :: !polls[k]
  {
    forall k | 0 <= k < |polls| && k <= last ensures !polls[k] {
      assert !CancelledAt(polls, k);
    }
  }

  lemma CancelledIsAnswered(polls: seq<bool>)
    ensures forall k: nat | CancelledAt(polls, k) :: true in polls
  {
  }

  lemma FaithfulPushSucceeds(index: FrameIndex, policy: Policy, source: seq<SourcePull>, id: nat)
    requires FaithfulPrefix(index, source) && id < |index.entries|
    requires RunAll(policy, Items(index, source, id)).accepted == Items(index, source, id)
    ensures PushStep(policy, RunAll(policy, Items(index, source, id)).active,
                     Item(index.entries[id], source[id].frame.pixels)).Ok?
  {
    hide PushStep, RunAll, RunInvariant;
    var items := Items(index, source, id);
    RunKeepsInvariant(policy, items);
    forall k | 0 <= k < |items|
      ensures SameSize(items[k].pixels, source[id].frame.pixels)
    {
      assert MatchesSource(index, index.entries[k], source[k].frame);
      assert MatchesSource(index, index.entries[id], source[id].frame);
    }
    NextFrameIsAccepted(policy, RunAll(policy, items), Item(index.entries[id], source[id].frame.pixels));
  }

  datatype UniqueOutcome<+E> = NotBuilt(build: BuildError) | Exported(result: Result<GroupReport, GroupError<E>>)

  /** Emission `i` carries the true picture of the first frame of group `i`. */
  ghost predicate TruePictures(rows: seq<Group>, truth: seq<DecodedFrame>, emitted: seq<Representative>) {
    forall i :: 0 <= i < |emitted| ==>
      && i < |rows| && rows[i].first < |truth| && ValidPicture(truth[rows[i].first])
      && emitted[i].pixels == PixelsOf(truth[rows[i].first])
  }

  lemma EmissionsAreTrue(
    index: FrameIndex, rows: seq<Group>, truth: seq<DecodedFrame>, emitted: seq<Representative>)
    requires TrueTimeline(index, truth) && UniquePrefix(index, rows, emitted) && TrueEmissions(rows, truth, emitted)
    ensures TruePictures(rows, truth, emitted)
  {
    forall i | 0 <= i < |emitted|
      ensures i < |rows| && rows[i].first < |truth| && ValidPicture(truth[rows[i].first])
      ensures emitted[i].pixels == PixelsOf(truth[rows[i].first])
    {
      TimelineAt(index, truth, rows[i].first);
    }
  }

  /** Grouping, navigation and export in sequence: one frame per group, the first of each maximal
      accepted run, in rising order. Only building, decoding, cancellation and the visitor can fail;
      with a faithful source, a true decoder and a visitor without errors nothing does, and every
      emission is the true picture of its frame. */
  method ExportUniqueFrames<E>(
    index: FrameIndex, policy: Policy, opens: bool, source: seq<SourcePull>, polls: seq<bool>,
    attempts: seq<Attempt>, exportPolls: seq<bool>, visit: VisitRepresentative<E>, ghost truth: seq<DecodedFrame>)
    returns (rows: seq<Group>, outcome: UniqueOutcome<E>, emitted: seq<Representative>,
             ghost tape: seq<Pull>, ghost positions: seq<nat>, ghost asked: int)
    ensures outcome.NotBuilt? ==> emitted == []
    ensures BuildSucceeds(index, policy, opens, source, polls) ==> outcome.Exported?
    ensures outcome.Exported? && index.complete && index.entries != [] && emitted != [] ==>
      TapeOf(attempts, tape) && EmittedFromTape(tape, emitted, positions)
    ensures outcome.Exported? ==> PollsAnswered(exportPolls, asked,
      outcome.result.Err? && outcome.result.error.GroupBatch? && outcome.result.error.failure == Cancelled)
    ensures outcome.Exported? && index.complete && index.entries != [] ==> asked >= Min(|exportPolls|, |emitted|)
    ensures outcome.Exported? && index.complete && index.entries != [] ==>
      && |source| == |index.entries|
      && (forall i :: 0 <= i < |source| ==> source[i].Delivered?)
      && GreedyPartition(policy, Items(index, source, |source|), rows)
      && UniquePrefix(index, rows, emitted)
      && (outcome.result.Ok? ==> |emitted| == |rows| == outcome.result.value.representatives)
      && (outcome.result.Err? ==> outcome.result.error.GroupBatch? || outcome.result.error.GroupVisitor?)
      && VisitorOutcome(visit, emitted,
           if outcome.result.Err? && outcome.result.error.GroupVisitor? then Some(outcome.result.error.error) else None)
      && (forall i, j :: 0 <= i < j < |emitted| ==> emitted[i].frameId < emitted[j].frameId)
    ensures outcome.Exported? && index.complete && index.entries != []
            && CooperativeRun(index, truth, attempts, exportPolls) ==>
      (outcome.result.Ok? || outcome.result.error.GroupVisitor?) && TruePictures(rows, truth, emitted)
    ensures BuildSucceeds(index, policy, opens, source, polls) && index.complete && index.entries != []
            && CooperativeRun(index, truth, attempts, exportPolls) && (forall h, f :: visit(h, f) == None) ==>
      outcome.Exported? && outcome.result.Ok? && |emitted| == |rows|
  {
    hide UniquePrefix, GreedyPartition, CoversTimeline, Items, CooperativeRun, TrueEmissions, TruePictures,
         VisitorOutcome, FaithfulSource, TapeOf, EmittedFromTape, PollsAnswered;
    rows, emitted, tape, positions, asked := [], [], [], [], 0;
    var built := BuildGroups(index, policy, opens, source, polls);
    if built.Err? {
      return [], NotBuilt(built.error), [], [], [], 0;
    }
    rows := built.value;
    var result;
    result, emitted, tape, positions, asked :=
      ExtractGroupRepresentatives(index, rows, attempts, exportPolls, visit, truth);
    outcome := Exported(result);
    if index.complete && index.entries != [] {
      EmissionsRise(index, rows, emitted);
      if CooperativeRun(index, truth, attempts, exportPolls) {
        TrueOfRun(index, truth, attempts, exportPolls);
        EmissionsAreTrue(index, rows, truth, emitted);
      }
      if result.Err? && result.error.GroupVisitor? {
        LastVisitFailed(visit, emitted, result.error.error);
      }
    }
  }

  lemma TrueOfRun(index: FrameIndex, truth: seq<DecodedFrame>, attempts: seq<Attempt>, polls: seq<bool>)
    requires CooperativeRun(index, truth, attempts, polls)
    ensures TrueTimeline(index, truth)
  {
  }

  lemma LastVisitFailed<F, E>(visit: (seq<F>, F) -> Option<E>, log: seq<F>, error: E)
    requires VisitorOutcome(visit, log, Some(error))
    ensures exists h, f :: visit(h, f) != None
  {
    var n := |log| - 1;
    assert visit(log[..n], log[n]) != None;
  }

  lemma EmissionsRise(index: FrameIndex, rows: seq<Group>, emitted: seq<Representative>)
    requires CoversTimeline(rows, |index.entries|) && UniquePrefix(index, rows, emitted)
    ensures forall i, j :: 0 <= i < j < |emitted| ==> emitted[i].frameId < emitted[j].frameId
  {
    forall i, j | 0 <= i < j < |emitted|
      ensures emitted[i].frameId < emitted[j].frameId
    {
      RowsAreOrdered(rows, |index.entries|, i, j);
    }
  }
}
