/**
 Executing a plan against an untrusted decoder. The environment is a finite script: what each open
 attempt yields, what the decoder returns before and after a seek, and every answer of the
 cancellation poll. The visitor is any function of its call history, which covers every
 deterministic stateful closure.
 */
module ExtractionVideo {
  import opened Common
  import opened Frames
  import opened ExtractionPlan

  datatype DecodedFrame = DecodedFrame(
    timestamp: Option<Timestamp>,
    duration: Option<Timestamp>,
    keyframe: bool,
    corrupt: bool,
    width: nat,
    height: nat,
    stride: nat,
    pixels: seq<byte>)

  datatype Pull = Picture(frame: DecodedFrame) | EndOfStream | DecoderError

  datatype Attempt =
    | OpenFailed
    | Opened(stream: Option<StreamIdentity>, played: seq<Pull>, seekFails: bool, landed: seq<Pull>)

  datatype Failure =
    | Cancelled
    | Decoder
    | Index
    | InvalidPixels
    | IncompleteIndex
    | InvalidPlan
    | StreamIdentityMismatch
    | TimelineMismatch(frameId: u64)
    | UnexpectedEof
    | NumericRange

  datatype ExtractionError<+E> = Failed(failure: Failure) | Visitor(error: E)

  datatype Extracted = Extracted(frameId: u64, ordinal: u64, total: u64, entry: Entry, pixels: Frame)

  datatype Report = Report(selected: nat, decoded: nat, usedSeek: bool, fellBack: bool)

  type Visit<!E> = (seq<Extracted>, Extracted) -> Option<E>

  function TruncatedQuotient(a: int, b: int): int
    requires b != 0
  {
    if a >= 0 then a / b else -((-a) / b)
  }

  /** Exact tick scaling; `None` when the result leaves the signed 64-bit range. */
  function Microseconds(t: Timestamp): Option<int> {
    if t.timeBase.denominator == 0 then None
    else
      var us := TruncatedQuotient(t.ticks * t.timeBase.numerator * 1_000_000, t.timeBase.denominator);
      if -I64_MAX - 1 <= us <= I64_MAX then Some(us) else None
  }

  /** The seek target of a frame: a keyframe anchor with a non-negative timestamp. */
  function SeekAnchor(entry: Entry): Option<u64> {
    match entry.anchor
    case StreamStart => None
    case Keyframe(id, timestamp) =>
      if timestamp.None? then None
      else
        var us := Microseconds(timestamp.value);
        if us.Some? && us.value >= 0 then Some(id) else None
  }

  /** The quotient is the exact one cut off towards zero, for either sign. */
  lemma TruncatesTowardsZero(a: int, d: int)
    requires a >= 0 && d > 0
    ensures TruncatedQuotient(a, d) == a / d >= 0
    ensures TruncatedQuotient(0 - a, d) == 0 - a / d
  {
    QuotientIsNatural(a, d);
    if a == 0 {
      assert 0 / d == 0;
    }
  }

  lemma QuotientIsNatural(a: int, d: int)
    requires a >= 0 && d > 0
    ensures a / d >= 0
  {
  }

  /** Microseconds are ticks times the time base, cut off towards zero, where 64 signed bits hold them. */
  lemma MicrosecondsMeaning(t: Timestamp)
    requires t.timeBase.denominator != 0
    ensures var us := TruncatedQuotient(t.ticks * t.timeBase.numerator * 1_000_000, t.timeBase.denominator);
      Microseconds(t) == if -0x8000_0000_0000_0000 <= us < 0x8000_0000_0000_0000 then Some(us) else None
  {
  }

  /** A frame is reached by seeking exactly when its anchor is a keyframe at a known time from the start on. */
  lemma SeeksIff(entry: Entry)
    ensures SeekAnchor(entry).Some? <==>
      && entry.anchor.Keyframe? && entry.anchor.timestamp.Some?
      && Microseconds(entry.anchor.timestamp.value).Some? && Microseconds(entry.anchor.timestamp.value).value >= 0
    ensures SeekAnchor(entry).Some? ==> SeekAnchor(entry).value == entry.anchor.frameId
  {
    hide Microseconds;
  }

  predicate MatchesEntry(d: DecodedFrame, e: Entry) {
    && d.timestamp == e.timestamp
    && d.duration == e.duration
    && d.keyframe == e.keyframe
    && d.corrupt == e.corrupt
  }

  function RequireMatching(index: FrameIndex, frameId: u64, d: DecodedFrame): (r: Result<Entry, Failure>)
    ensures r.Ok? <==> frameId < |index.entries| && MatchesEntry(d, index.entries[frameId])
    ensures r.Ok? <==> frameId < |index.entries| && var e := index.entries[frameId];
      (d.timestamp, d.duration, d.keyframe, d.corrupt) == (e.timestamp, e.duration, e.keyframe, e.corrupt)
    ensures r.Ok? ==> r.value == index.entries[frameId]
    ensures r.Err? ==> r.error == TimelineMismatch(frameId)
  {
    match index.EntryAt(frameId)
    case None => Err(TimelineMismatch(frameId))
    case Some(entry) => if MatchesEntry(d, entry) then Ok(entry) else Err(TimelineMismatch(frameId))
  }

  function ValidatePlan(index: FrameIndex, plan: Plan): (r: Result<int, Failure>)
    requires plan.stride > 0
    ensures r.Ok? ==> WellFormed(plan) && plan.count > 0 && plan.last < |index.entries|
    ensures r.Ok? ==> r.value == PlannedId(plan, plan.count - 1) <= plan.last
    ensures r.Ok? <==> index.complete && index.frameCount.Some? && WellFormed(plan) && plan.last < |index.entries|
    ensures r == Err(IncompleteIndex) <==> !index.complete
    ensures r.Err? && index.complete ==> r.error == InvalidPlan || r.error == NumericRange
  {
    if !index.complete then Err(IncompleteIndex)
    else if index.frameCount.None? then Err(InvalidPlan)
    else if plan.count == 0 then Err(InvalidPlan)
    else if plan.first > plan.last then Err(InvalidPlan)
    else if plan.last >= index.frameCount.value then Err(InvalidPlan)
    else
      var expected := (plan.last - plan.first) / plan.stride + 1;
      if expected > U64_MAX then Err(NumericRange)
      else if expected != plan.count then Err(InvalidPlan)
      else
        PlannedIffFits(plan, plan.count - 1);
        TimesIsProduct(plan.count - 1, plan.stride);
        var offset := (plan.count - 1) * plan.stride;
        if plan.first + offset > U64_MAX then Err(NumericRange)
        else if plan.first + offset > plan.last then Err(InvalidPlan)
        else Ok(plan.first + offset)
  }

  // ---------------------------------------------------------------- cooperative environments

  function Pulls(truth: seq<DecodedFrame>): (r: seq<Pull>)
    ensures |r| == |truth|
    ensures forall i :: 0 <= i < |r| ==> r[i] == Picture(truth[i])
  {
    seq(|truth|, i requires 0 <= i < |truth| => Picture(truth[i]))
  }

  lemma PullsFrom(truth: seq<DecodedFrame>, k: nat)
    requires k < |truth|
    ensures Pulls(truth)[k..] != [] && Pulls(truth)[k..][0] == Picture(truth[k])
    ensures Pulls(truth)[k..][1..] == Pulls(truth)[k + 1..]
  {
  }

  predicate ValidPicture(d: DecodedFrame) {
    NewFrame(d.width, d.height, d.stride, d.pixels).Ok?
  }

  /** `truth` is the picture of every indexed frame, and timestamps tell frames apart. */
  predicate TrueTimeline(index: FrameIndex, truth: seq<DecodedFrame>) {
    && |truth| == |index.entries|
    && (forall k :: 0 <= k < |truth| ==> MatchesEntry(truth[k], index.entries[k]))
    && (forall k :: 0 <= k < |truth| ==> ValidPicture(truth[k]))
    && (forall i, j :: 0 <= i < j < |truth| ==> index.entries[i].timestamp != index.entries[j].timestamp)
  }

  lemma TimelineAt(index: FrameIndex, truth: seq<DecodedFrame>, k: nat)
    requires TrueTimeline(index, truth) && k < |truth|
    ensures |truth| == |index.entries|
    ensures MatchesEntry(truth[k], index.entries[k]) && ValidPicture(truth[k])
  {
  }

  lemma TimelineLength(index: FrameIndex, truth: seq<DecodedFrame>)
    requires TrueTimeline(index, truth)
    ensures |truth| == |index.entries| <= I64_MAX
  {
  }

  /** Distinct timestamps: of the true pictures only the anchor's own matches the anchor. */
  lemma OnlyAnchorMatches(index: FrameIndex, truth: seq<DecodedFrame>, position: nat, anchor: nat)
    requires TrueTimeline(index, truth) && position < |truth| && anchor < |index.entries|
    requires MatchesEntry(truth[position], index.entries[anchor])
    ensures position == anchor
  {
    assert index.entries[position].timestamp == index.entries[anchor].timestamp;
  }

  /** The attempt opens the indexed stream, plays it from the start, and seeks to anywhere in it. */
  predicate CooperativeAttempt(index: FrameIndex, truth: seq<DecodedFrame>, a: Attempt) {
    && a.Opened?
    && a.stream == Some(index.stream)
    && a.played == Pulls(truth)
    && !a.seekFails
    && |a.landed| <= |truth|
    && a.landed == Pulls(truth)[|truth| - |a.landed|..]
  }

  /** Nobody cancels, and the decoder and its replacement are both cooperative. */
  predicate CooperativeRun(
    index: FrameIndex, truth: seq<DecodedFrame>, attempts: seq<Attempt>, polls: seq<bool>)
  {
    && TrueTimeline(index, truth)
    && |attempts| >= 2
    && CooperativeAttempt(index, truth, attempts[0])
    && CooperativeAttempt(index, truth, attempts[1])
    && true !in polls
  }

  /** The owned frame of a picture with a valid layout. */
  function PixelsOf(d: DecodedFrame): Frame
    requires ValidPicture(d)
  {
    NewFrame(d.width, d.height, d.stride, d.pixels).value
  }

  /** Call `i` of the visitor is the `i`-th planned frame with the metadata of the index. */
  predicate PlannedVisit(index: FrameIndex, plan: Plan, i: nat, v: Extracted)
    requires WellFormed(plan)
  {
    && v.frameId == PlannedId(plan, i) < |index.entries|
    && v.ordinal == i + 1
    && v.total == plan.count
    && v.entry == index.entries[v.frameId]
  }

  /** The visitor calls are a prefix of the plan. */
  ghost predicate PlannedLog(index: FrameIndex, plan: Plan, log: seq<Extracted>)
    requires WellFormed(plan)
  {
    |log| <= plan.count && forall i :: 0 <= i < |log| ==> PlannedVisit(index, plan, i, log[i])
  }

  /** Every call returned normally, except that the last one failed when there is an error. */
  ghost predicate VisitorOutcome<F, E>(visit: (seq<F>, F) -> Option<E>, log: seq<F>, error: Option<E>) {
    && (error.Some? ==> |log| > 0)
    && forall i :: 0 <= i < |log| ==> visit(log[..i], log[i]) == if i == |log| - 1 then error else None
  }

  /** The visitor error carried by a result, if any. */
  function VisitorError<T, E>(r: Result<T, ExtractionError<E>>): Option<E> {
    if r.Err? && r.error.Visitor? then Some(r.error.error) else None
  }

  lemma VisitorOutcomeStep<F, E>(visit: (seq<F>, F) -> Option<E>, log: seq<F>, frame: F)
    requires VisitorOutcome(visit, log, None)
    ensures VisitorOutcome(visit, log + [frame], visit(log, frame))
  {
    var next := log + [frame];
    forall i | 0 <= i < |next|
      ensures visit(next[..i], next[i]) == if i == |next| - 1 then visit(log, frame) else None
    {
      assert next[..i] == log[..i];
      assert log[..|log|] == log;
    }
  }

  lemma VisitorOutcomeTake<F, E>(visit: (seq<F>, F) -> Option<E>, log: seq<F>, error: Option<E>, n: nat)
    requires VisitorOutcome(visit, log, error) && n < |log|
    ensures VisitorOutcome(visit, log[..n], None)
  {
    var before := log[..n];
    forall i | 0 <= i < |before|
      ensures visit(before[..i], before[i]) == None
    {
      assert before[..i] == log[..i];
    }
  }

  lemma VisitorOutcomePrefix<F, E>(visit: (seq<F>, F) -> Option<E>, log: seq<F>, error: Option<E>)
    requires VisitorOutcome(visit, log, error) && log != []
    ensures VisitorOutcome(visit, log[..|log| - 1], None)
    ensures visit(log[..|log| - 1], log[|log| - 1]) == error
  {
    var before := log[..|log| - 1];
    forall i | 0 <= i < |before|
      ensures visit(before[..i], before[i]) == None
    {
      assert before[..i] == log[..i];
    }
  }

  predicate TrueVisit(truth: seq<DecodedFrame>, v: Extracted) {
    && v.frameId < |truth|
    && var d := truth[v.frameId];
      v.pixels == RgbaLayout(d.width, d.height, d.stride, d.pixels)
  }

  ghost predicate TrueLog(truth: seq<DecodedFrame>, log: seq<Extracted>) {
    forall i :: 0 <= i < |log| ==> TrueVisit(truth, log[i])
  }

  lemma TrueLogStep(truth: seq<DecodedFrame>, log: seq<Extracted>, v: Extracted)
    ensures TrueLog(truth, log) && TrueVisit(truth, v) ==> TrueLog(truth, log + [v])
  {
    hide TrueVisit;
  }

  lemma PlannedLogStep(index: FrameIndex, plan: Plan, log: seq<Extracted>, v: Extracted)
    requires WellFormed(plan) && PlannedLog(index, plan, log) && |log| < plan.count
    requires PlannedVisit(index, plan, |log|, v)
    ensures PlannedLog(index, plan, log + [v])
  {
    hide PlannedVisit, WellFormed;
  }

  /** These are the pixels of the picture at position `p`, which matched the entry. */
  predicate PictureOf(tape: seq<Pull>, p: nat, entry: Entry, pixels: Frame) {
    && p < |tape| && tape[p].Picture?
    && var d := tape[p].frame;
      MatchesEntry(d, entry) && pixels == RgbaLayout(d.width, d.height, d.stride, d.pixels)
  }

  predicate PictureAt(tape: seq<Pull>, p: nat, v: Extracted) {
    PictureOf(tape, p, v.entry, v.pixels)
  }

  /** The tape is what the first or second attempt plays: from its start, or from where its seek landed. */
  ghost predicate TapeOf(attempts: seq<Attempt>, tape: seq<Pull>) {
    exists a :: 0 <= a < Min(|attempts|, 2)
      && attempts[a].Opened? && (tape == attempts[a].played || tape == attempts[a].landed)
  }

  /** Position `p` of the tape holds a picture that matches entry `id`. */
  predicate MatchesAt(index: FrameIndex, tape: seq<Pull>, p: int, id: int) {
    0 <= p < |tape| && 0 <= id < |index.entries| && tape[p].Picture? && MatchesEntry(tape[p].frame, index.entries[id])
  }

  predicate Reconciles(index: FrameIndex, tape: seq<Pull>, base: int, id: int) {
    MatchesAt(index, tape, base + id, id)
  }

  /** From entry `from` to before `upto` the tape holds one matching picture after the other. */
  ghost predicate Reconciled(index: FrameIndex, tape: seq<Pull>, base: int, from: int, upto: int) {
    forall id | from <= id < upto :: Reconciles(index, tape, base, id)
  }

  lemma ReconciledStep(index: FrameIndex, tape: seq<Pull>, base: int, from: int, upto: int)
    requires Reconciled(index, tape, base, from, upto) && Reconciles(index, tape, base, upto)
    ensures Reconciled(index, tape, base, from, upto + 1)
  {
    hide Reconciles;
  }

  lemma NothingReconciled(index: FrameIndex, tape: seq<Pull>, base: int, from: int)
    ensures Reconciled(index, tape, base, from, from)
  {
  }

  /** Before position `p` nothing of the tape matches the entry. */
  ghost predicate NoneBefore(index: FrameIndex, tape: seq<Pull>, p: int, id: int) {
    forall k | 0 <= k < p :: !MatchesAt(index, tape, k, id)
  }

  /**
   * Position `p` was reached by a search for the first picture that matches the anchor, and from there by one
   * matching picture after the other up to frame `first`.
   */
  ghost predicate LandedOn(index: FrameIndex, tape: seq<Pull>, p: int, anchor: u64, first: u64) {
    && anchor <= first
    && NoneBefore(index, tape, p - (first - anchor), anchor)
    && Reconciled(index, tape, p - first, anchor, first + 1)
  }

  /** Position `p` is that of frame `first` on a tape read from its start, one matching picture after the other. */
  ghost predicate FromStart(index: FrameIndex, tape: seq<Pull>, p: int, first: u64) {
    p == first && Reconciled(index, tape, 0, 0, first + 1)
  }

  /** Visited frames lie on the tape as far apart as their ids. */
  ghost predicate InStep(log: seq<Extracted>, positions: seq<nat>, base: int) {
    |positions| == |log| && forall i | 0 <= i < |log| :: positions[i] == base + log[i].frameId
  }

  lemma NothingInStep(base: int)
    ensures InStep([], [], base)
  {
  }

  lemma ReconciledLess(index: FrameIndex, tape: seq<Pull>, base: int, from: int, upto: int, more: int)
    ensures Reconciled(index, tape, base, from, more) && upto <= more ==> Reconciled(index, tape, base, from, upto)
    ensures Reconciled(index, tape, base, from, more + 1) && upto <= more + 1 ==>
      Reconciled(index, tape, base, from, upto)
  {
    hide Reconciles;
  }

  lemma FirstInStep(index: FrameIndex, plan: Plan, log: seq<Extracted>, positions: seq<nat>, base: int)
    requires WellFormed(plan) && PlannedLog(index, plan, log) && log != [] && InStep(log, positions, base)
    ensures positions != [] && positions[0] - plan.first == base
  {
    assert PlannedVisit(index, plan, 0, log[0]);
  }

  lemma PlanBegins(plan: Plan)
    requires WellFormed(plan)
    ensures plan.first <= plan.last && plan.stride > 0
  {
  }

  lemma NothingSeen<E>(index: FrameIndex, plan: Plan, visit: Visit<E>, truth: seq<DecodedFrame>)
    ensures VisitorOutcome(visit, [], None) && TrueLog(truth, [])
    ensures WellFormed(plan) ==> PlannedLog(index, plan, [])
  {
  }

  lemma InStepStep(log: seq<Extracted>, positions: seq<nat>, base: int, p: nat, v: Extracted)
    requires InStep(log, positions, base) && p == base + v.frameId
    ensures InStep(log + [v], positions + [p], base)
  {
  }

  /** Every visited frame comes from its own picture of the tape, at rising positions below `limit`. */
  ghost predicate FromTape(tape: seq<Pull>, log: seq<Extracted>, positions: seq<nat>, limit: int) {
    && |positions| == |log|
    && (forall i, j :: 0 <= i < j < |positions| ==> positions[i] < positions[j])
    && (forall i :: 0 <= i < |log| ==> positions[i] < limit && PictureAt(tape, positions[i], log[i]))
  }

  lemma FromTapeStep(
    tape: seq<Pull>, log: seq<Extracted>, positions: seq<nat>, p: nat, limit: int, v: Extracted)
    requires FromTape(tape, log, positions, p) && PictureAt(tape, p, v) && p < limit
    ensures FromTape(tape, log + [v], positions + [p], limit)
  {
  }

  lemma FromTapeWider(tape: seq<Pull>, log: seq<Extracted>, positions: seq<nat>, limit: int, wider: int)
    requires FromTape(tape, log, positions, limit) && limit <= wider
    ensures FromTape(tape, log, positions, wider)
  {
  }

  lemma SuffixAdvances<T>(tape: seq<T>, pending: seq<T>)
    requires 0 < |pending| <= |tape| && pending == tape[|tape| - |pending|..]
    ensures pending[1..] == tape[|tape| - |pending[1..]|..] && tape[|tape| - |pending|] == pending[0]
  {
  }

  /** Before the first picture nothing is visited and the first planned id comes next. */
  lemma NothingVisited<E>(index: FrameIndex, plan: Plan, visit: Visit<E>, truth: seq<DecodedFrame>)
    requires WellFormed(plan) && plan.count > 0
    ensures plan.stride > 0 && AtPosition(plan, 0, plan.first) && PlannedLog(index, plan, [])
    ensures VisitorOutcome(visit, [], None) && TrueLog(truth, [])
  {
  }

  /** The first planned picture with how it was reached. */
  datatype Aligned = Aligned(decoded: DecodedFrame, usedSeek: bool, fellBack: bool)

  /** `asked` polls were answered, none but the last by a cancellation, and the last exactly if it ended the work. */
  ghost predicate PollsAnswered(polls: seq<bool>, asked: int, cancelled: bool) {
    && 0 <= asked <= |polls|
    && (forall k | 0 <= k < asked - 1 :: !polls[k])
    && (cancelled <==> asked > 0 && polls[asked - 1])
  }

  lemma OneMoreAnswer(polls: seq<bool>, asked: int)
    requires PollsAnswered(polls, asked, false) && asked < |polls|
    ensures PollsAnswered(polls, asked + 1, polls[asked])
  {
  }

  lemma PositionInCount(plan: Plan, k: nat, current: u64)
    requires WellFormed(plan) && AtPosition(plan, k, current)
    ensures plan.stride > 0 && k < plan.count
  {
  }

  /** A seek that could not be reconciled; anything else ends the extraction. */
  predicate Retries(failure: Failure) {
    failure == UnexpectedEof || failure.TimelineMismatch?
  }

  class Batch {
    const index: FrameIndex
    var attempts: seq<Attempt>
    var polls: seq<bool>
    /** What the open decoder will still return, and what it returns after its seek. */
    var pending: seq<Pull>
    var landed: seq<Pull>
    var seekFails: bool
    var decodedFrames: nat
    /** Visitor calls so far, and for every open attempt the number of calls made before it. */
    var log: seq<Extracted>
    var opens: seq<nat>
    /** The environment at the start, the output the open decoder plays, and where emitted pictures lie in it. */
    ghost const script: seq<Attempt>
    ghost const pollScript: seq<bool>
    ghost var tape: seq<Pull>
    ghost var positions: seq<nat>

    constructor (index: FrameIndex, attempts: seq<Attempt>, polls: seq<bool>)
      ensures this.index == index && this.attempts == attempts && this.polls == polls
      ensures decodedFrames == 0 && log == [] && opens == [] && positions == []
      ensures script == attempts && Scripted() && pollScript == polls && Heard(false) && Due()
    {
      this.index, this.attempts, this.polls := index, attempts, polls;
      pending, landed, seekFails := [], [], false;
      decodedFrames, log, opens := 0, [], [];
      script, pollScript, tape, positions := attempts, polls, [], [];
    }

    /** Every open so far has used up one attempt of the script. */
    ghost predicate Scripted()
      reads this`attempts, this`opens
    {
      ScriptRest(attempts, |opens|)
    }

    ghost predicate ScriptRest(rest: seq<Attempt>, used: nat) {
      rest == script[Min(used, |script|)..]
    }

    lemma NextAttempt(rest: seq<Attempt>, used: nat)
      requires ScriptRest(rest, used)
      ensures rest == [] ==> used >= |script| && ScriptRest(rest, used + 1)
      ensures rest != [] ==> used < |script| && rest[0] == script[used] && ScriptRest(rest[1..], used + 1)
    {
    }

    /** The tape is what the last opened attempt plays: from its start, or from where its seek landed. */
    ghost predicate LastOpened(seeked: bool)
      reads this`opens, this`tape
    {
      && 0 < |opens| <= |script| && script[|opens| - 1].Opened?
      && tape == if seeked then script[|opens| - 1].landed else script[|opens| - 1].played
    }

    /** The last attempt opened the stream that was indexed. */
    ghost predicate Admitted()
      reads this`opens
    {
      LastAttempt().Some? && LastAttempt().value.stream == Some(index.stream)
    }

    /** The seek of the open decoder is the one of its attempt. */
    ghost predicate Ready()
      reads this`opens, this`landed, this`seekFails
    {
      && LastAttempt().Some?
      && landed == LastAttempt().value.landed && seekFails == LastAttempt().value.seekFails
    }

    lemma LastOpenedIsTape(seeked: bool)
      requires |opens| <= 2 && LastOpened(seeked)
      ensures TapeOf(script, tape)
    {
    }

    /** What is still to be polled is the rest of the script. */
    ghost predicate OnPolls()
      reads this`polls
    {
      |polls| <= |pollScript| && polls == pollScript[|pollScript| - |polls|..]
    }

    /** How many polls have been answered. */
    ghost function Asked(): int
      reads this`polls
    {
      |pollScript| - |polls|
    }

    /** Every answer so far was heard. */
    ghost predicate Heard(cancelled: bool)
      reads this`polls
    {
      OnPolls() && PollsAnswered(pollScript, Asked(), cancelled)
    }

    /** There was a poll for every decoded and for every visited frame, as long as the script had answers. */
    ghost predicate Due()
      reads this`polls, this`decodedFrames, this`log
    {
      Asked() >= Min(|pollScript|, decodedFrames + |log|)
    }

    /** The answer to the last poll. */
    ghost predicate LastPoll()
      reads this`polls
    {
      |polls| < |pollScript| && pollScript[|pollScript| - |polls| - 1]
    }

    /** What the last attempt to open a decoder brought; `None` when there was nothing left to open. */
    ghost function LastAttempt(): Option<Attempt>
      reads this`opens
    {
      if 0 < |opens| <= |script| && script[|opens| - 1].Opened? then Some(script[|opens| - 1]) else None
    }

    /** The tape is one of the last opened attempt. */
    ghost predicate OnAttempt()
      reads this`opens, this`tape
    {
      LastOpened(false) || LastOpened(true)
    }

    /** What the decoder answered last. */
    ghost function LastPull(): Option<Pull>
      reads this`pending, this`tape, this`opens
    {
      if OnAttempt() && 0 <= Position() < |tape| then Some(tape[Position()]) else None
    }

    /** The environment's last answer of the kind stands for this failure. */
    ghost predicate Explained(failure: Failure)
      reads this`polls, this`pending, this`tape, this`opens, this`decodedFrames
    {
      match failure
      case Cancelled => LastPoll()
      case Decoder =>
        (opens != [] && LastAttempt().None?) || (LastAttempt().Some? && LastAttempt().value.seekFails)
        || LastPull() == Some(DecoderError)
      case Index => LastAttempt().Some? && LastAttempt().value.stream.None?
      case StreamIdentityMismatch =>
        LastAttempt().Some? && LastAttempt().value.stream.Some? && LastAttempt().value.stream != Some(index.stream)
      case TimelineMismatch(id) =>
        LastPull().Some? && LastPull().value.Picture? && RequireMatching(index, id, LastPull().value.frame).Err?
      case InvalidPixels => LastPull().Some? && LastPull().value.Picture? && !ValidPicture(LastPull().value.frame)
      case UnexpectedEof => (OnAttempt() && pending == []) || LastPull() == Some(EndOfStream)
      case NumericRange => decodedFrames >= U64_MAX
      case IncompleteIndex => false
      case InvalidPlan => false
    }

    /** What is still to come is the rest of the tape. */
    ghost predicate OnTape()
      reads this`pending, this`tape
    {
      |pending| <= |tape| && pending == tape[|tape| - |pending|..]
    }

    /** Position of the picture read last. */
    ghost function Position(): int
      reads this`pending, this`tape
    {
      |tape| - |pending| - 1
    }

    ghost predicate JustRead(d: DecodedFrame)
      reads this`pending, this`tape
    {
      OnTape() && Position() >= 0 && tape[Position()] == Picture(d)
    }

    /** `d` was read last and every emission so far comes from an earlier picture of the tape. */
    ghost predicate Traced(d: DecodedFrame)
      reads this`pending, this`tape, this`log, this`positions
    {
      JustRead(d) && FromTape(tape, log, positions, Position())
    }

    /** Every emission so far comes from a picture that has been read. */
    ghost predicate Passed()
      reads this`pending, this`tape, this`log, this`positions
    {
      OnTape() && FromTape(tape, log, positions, Position() + 1)
    }

    lemma PassedIsOnTape()
      requires Passed()
      ensures OnTape()
    {
    }

    lemma PassedIsFromTape()
      requires Passed()
      ensures FromTape(tape, log, positions, |tape|)
    {
    }

    /** One poll moves on by one answer. */
    twostate lemma PollAdvanced()
      requires old(polls) != [] && polls == old(polls)[1..]
      ensures old(OnPolls()) ==>
        OnPolls() && old(Asked()) >= 0 && pollScript[old(Asked())] == old(polls)[0] && (LastPoll() <==> old(polls)[0])
    {
      if old(OnPolls()) {
        SuffixAdvances(pollScript, old(polls));
      }
    }

    /** Reading one pull moves the position by one and leaves every emission behind it. */
    twostate lemma TapeAdvanced()
      requires tape == old(tape) && log == old(log) && positions == old(positions)
      requires old(pending) != [] && pending == old(pending)[1..]
      ensures old(OnTape()) ==> OnTape() && Position() >= 0 && tape[Position()] == old(pending)[0]
      ensures old(Passed()) ==> old(OnTape()) && Passed() && FromTape(tape, log, positions, Position())
    {
      hide PictureAt;
      if old(OnTape()) {
        SuffixAdvances(tape, old(pending));
      }
      if old(Passed()) {
        FromTapeWider(tape, log, positions, Position(), Position() + 1);
      }
    }

    predicate Quiet()
      reads this`polls
    {
      true !in polls
    }

    ghost predicate Cooperative(truth: seq<DecodedFrame>)
      reads this
    {
      index.complete && index.frameCount.Some? && CooperativeRun(index, truth, attempts, polls)
    }

    method IsCancelled() returns (cancelled: bool)
      modifies this`polls
      ensures old(Quiet()) ==> !cancelled && Quiet()
      ensures old(Heard(false)) ==> Heard(cancelled) && (cancelled ==> LastPoll())
      ensures |polls| == Max(|old(polls)| - 1, 0)
    {
      hide OnPolls, LastPoll, PollsAnswered;
      if polls == [] {
        return false;
      }
      label polling:
      cancelled := polls[0];
      polls := polls[1..];
      PollAdvanced@polling();
      if old(Heard(false)) {
        OneMoreAnswer(pollScript, old(Asked()));
      }
    }

    method OpenChecked(ghost truth: seq<DecodedFrame>) returns (r: Result<(), Failure>)
      modifies this`attempts, this`pending, this`landed, this`seekFails, this`opens, this`tape
      ensures old(Scripted()) ==> Scripted() && (r.Ok? ==> LastOpened(false) && Ready() && Admitted())
      ensures old(Scripted()) && r.Err? ==> Explained(r.error)
      ensures r.Ok? ==> OnTape() && pending == tape
      ensures opens == old(opens) + [|log|]
      ensures r.Err? ==> r.error in {Decoder, Index, StreamIdentityMismatch}
      ensures |old(attempts)| > 0 && CooperativeAttempt(index, truth, old(attempts)[0]) ==>
        && r.Ok?
        && attempts == old(attempts)[1..]
        && pending == Pulls(truth)
        && !seekFails
        && landed == old(attempts)[0].landed
    {
      hide ScriptRest, Pulls;
      if Scripted() {
        NextAttempt(attempts, |opens|);
      }
      opens := opens + [|log|];
      if attempts == [] {
        return Err(Decoder);
      }
      var attempt := attempts[0];
      attempts := attempts[1..];
      if attempt.OpenFailed? {
        return Err(Decoder);
      }
      pending, landed, seekFails := attempt.played, attempt.landed, attempt.seekFails;
      tape := attempt.played;
      if attempt.stream.None? {
        return Err(Index);
      }
      if attempt.stream.value != index.stream {
        return Err(StreamIdentityMismatch);
      }
      return Ok(());
    }

    method NextDecoded() returns (r: Result<DecodedFrame, Failure>)
      modifies this`polls, this`pending, this`decodedFrames
      ensures r.Ok? ==> |pending| == |old(pending)| - 1
      ensures old(OnTape()) ==> OnTape() && (r.Ok? ==> JustRead(r.value))
      ensures old(Heard(false)) ==> Heard(r.Err? && r.error == Cancelled)
      ensures old(Due()) ==> Due()
      ensures old(Heard(false) && OnAttempt() && OnTape()) && r.Err? ==> Explained(r.error)
      ensures old(Passed()) ==> Passed() && (r.Ok? ==> Traced(r.value))
      ensures old(Quiet()) ==> Quiet()
      ensures old(Quiet()) && old(pending) == [] ==> r == Err(UnexpectedEof) && pending == []
      ensures old(Quiet()) && old(pending) != [] && old(pending)[0].Picture? && old(decodedFrames) < U64_MAX ==>
        && r == Ok(old(pending)[0].frame)
        && pending == old(pending)[1..]
        && decodedFrames == old(decodedFrames) + 1
      ensures decodedFrames == old(decodedFrames) + if r.Ok? then 1 else 0
    {
      hide Heard, OnAttempt, OnTape, Passed, FromTape;
      var cancelled := IsCancelled();
      if cancelled {
        return Err(Cancelled);
      }
      if pending == [] {
        return Err(UnexpectedEof);
      }
      label reading:
      var pull := pending[0];
      pending := pending[1..];
      TapeAdvanced@reading();
      match pull
      case DecoderError => return Err(Decoder);
      case EndOfStream => return Err(UnexpectedEof);
      case Picture(frame) =>
        if decodedFrames + 1 > U64_MAX {
          return Err(NumericRange);
        }
        decodedFrames := decodedFrames + 1;
        return Ok(frame);
    }

    /** Remaining output of a cooperative decoder that has just returned frame `current`. */
    ghost predicate PlaysAfter(truth: seq<DecodedFrame>, current: nat)
      reads this`pending, this`polls
    {
      Quiet() && current < |truth| && pending == Pulls(truth)[current + 1..]
    }

    lemma JustReadOnTape(d: DecodedFrame)
      requires JustRead(d)
      ensures OnTape()
    {
    }

    lemma NothingBefore(id: u64)
      ensures pending == tape ==> NoneBefore(index, tape, Position() + 1, id)
    {
    }

    lemma Unmatched(d: DecodedFrame, id: u64)
      requires JustRead(d) && id < |index.entries| && !MatchesEntry(d, index.entries[id])
      requires NoneBefore(index, tape, Position(), id)
      ensures NoneBefore(index, tape, Position() + 1, id)
    {
    }

    lemma NothingTraced(d: DecodedFrame)
      requires JustRead(d) && log == [] && positions == []
      ensures Traced(d)
    {
    }

    lemma PollsOfRun(cancelled: bool)
      requires Heard(cancelled) && Due()
      ensures PollsAnswered(pollScript, Asked(), cancelled) && Asked() >= Min(|pollScript|, |log|)
    {
    }

    /** How the first visited frame was reached: on the tape from its start, or by the seek to its anchor. */
    ghost predicate StartedOn(firstEntry: Entry, first: u64)
      reads this`positions, this`tape, this`opens
    {
      && positions != []
      && ((LastOpened(false) && FromStart(index, tape, positions[0], first))
          || (LastOpened(true) && !script[|opens| - 1].seekFails && SeekAnchor(firstEntry).Some?
              && LandedOn(index, tape, positions[0], SeekAnchor(firstEntry).value, first)))
    }

    /** The picture read last, as a matched position of the tape. */
    lemma MatchedHere(d: DecodedFrame, id: u64)
      requires JustRead(d) && id < |index.entries| && MatchesEntry(d, index.entries[id])
      ensures Reconciles(index, tape, Position() - id, id)
    {
    }

    lemma MismatchExplained(id: u64, d: DecodedFrame)
      requires OnAttempt() && JustRead(d) && RequireMatching(index, id, d).Err?
      ensures Explained(TimelineMismatch(id))
    {
    }

    /** What a decoder that plays truly answers next. */
    lemma PlaysNext(truth: seq<DecodedFrame>, current: nat)
      requires PlaysAfter(truth, current)
      ensures Quiet() && current < |truth| && |pending| == |truth| - current - 1
      ensures pending == Pulls(truth)[current + 1..]
      ensures pending != [] ==> pending[0] == Picture(truth[current + 1])
    {
    }

    lemma PlayedOn(truth: seq<DecodedFrame>, current: nat, before: seq<Pull>)
      requires current < |truth| && before == Pulls(truth)[current + 1..]
      requires before != [] && pending == before[1..] && Quiet()
      ensures PlaysAfter(truth, current + 1)
    {
      PullsFrom(truth, current + 1);
    }

    method AlignFromStart(first: u64, ghost truth: seq<DecodedFrame>) returns (r: Result<DecodedFrame, Failure>)
      modifies this`polls, this`pending, this`decodedFrames
      ensures r.Ok? ==> first < |index.entries| && MatchesEntry(r.value, index.entries[first])
      ensures old(OnTape()) && r.Ok? ==> JustRead(r.value)
      ensures old(Heard(false)) ==> Heard(r.Err? && r.error == Cancelled)
      ensures old(Due()) ==> Due()
      ensures old(Heard(false) && OnAttempt() && OnTape()) && r.Err? ==> Explained(r.error)
      ensures old(OnTape() && pending == tape) && r.Ok? ==>
        Position() == first && Reconciled(index, tape, 0, 0, first + 1)
      ensures TrueTimeline(index, truth) && old(Quiet()) && old(pending) == Pulls(truth)
              && first < |truth| && old(decodedFrames) + |truth| <= U64_MAX ==>
        && r == Ok(truth[first])
        && PlaysAfter(truth, first)
        && decodedFrames == old(decodedFrames) + first + 1
    {
      hide TrueTimeline, MatchesEntry, ValidPicture, Pulls, OnTape, Heard, Due, OnAttempt, JustRead, Passed, Traced,
           Explained, Reconciles, Reconciled;
      ghost var whole := OnTape() && pending == tape;
      NothingReconciled(index, tape, 0, 0);
      ghost var traced := Heard(false) && OnAttempt() && OnTape();
      ghost var live := TrueTimeline(index, truth) && Quiet() && pending == Pulls(truth)
                        && first < |truth| && decodedFrames + |truth| <= U64_MAX;
      var current: u64 := 0;
      while true
        invariant current <= first && (old(OnTape()) ==> OnTape())
        invariant (old(Heard(false)) ==> Heard(false)) && (old(Due()) ==> Due())
        invariant whole ==> Position() == current - 1 && Reconciled(index, tape, 0, 0, current)
        invariant live ==> Quiet() && pending == Pulls(truth)[current..]
        invariant live ==> decodedFrames == old(decodedFrames) + current
        decreases |pending|
      {
        if live {
          PullsFrom(truth, current);
          TimelineAt(index, truth, current);
        }
        var decoded := NextDecoded();
        if decoded.Err? {
          return Err(decoded.error);
        }
        var entry := RequireMatching(index, current, decoded.value);
        if entry.Err? {
          if traced {
            MismatchExplained(current, decoded.value);
          }
          return Err(entry.error);
        }
        if whole {
          MatchedHere(decoded.value, current);
          ReconciledStep(index, tape, 0, 0, current);
        }
        if current == first {
          return Ok(decoded.value);
        }
        current := current + 1;
      }
    }

    /** Skip decoder output until it matches the anchor entry. */
    method FindAnchor(anchor: u64, ghost truth: seq<DecodedFrame>) returns (r: Result<DecodedFrame, Failure>)
      requires anchor < |index.entries|
      modifies this`polls, this`pending, this`decodedFrames
      ensures r.Ok? ==> MatchesEntry(r.value, index.entries[anchor])
      ensures old(OnTape()) && r.Ok? ==> JustRead(r.value)
      ensures old(Heard(false)) ==> Heard(r.Err? && r.error == Cancelled)
      ensures old(Due()) ==> Due()
      ensures old(Heard(false) && OnAttempt() && OnTape()) && r.Err? ==> Explained(r.error)
      ensures old(OnTape() && pending == tape) && r.Ok? ==> NoneBefore(index, tape, Position(), anchor)
      ensures TrueTimeline(index, truth) && old(Quiet()) && |old(pending)| <= |truth|
              && old(pending) == Pulls(truth)[|truth| - |old(pending)|..]
              && old(decodedFrames) + |truth| <= U64_MAX ==>
        && Quiet()
        && decodedFrames + |pending| == old(decodedFrames) + |old(pending)|
        && (r.Ok? ==> r.value == truth[anchor] && PlaysAfter(truth, anchor))
        && (r.Err? ==> r.error == UnexpectedEof)
    {
      hide Heard, Due, OnAttempt, MatchesEntry, TrueTimeline, Pulls, OnTape, Passed, NoneBefore;
      NothingBefore(anchor);
      ghost var whole := OnTape() && pending == tape;
      ghost var live := TrueTimeline(index, truth) && Quiet() && |pending| <= |truth|
                        && pending == Pulls(truth)[|truth| - |pending|..]
                        && decodedFrames + |truth| <= U64_MAX;
      while true
        invariant (old(OnTape()) ==> OnTape()) && (old(Heard(false)) ==> Heard(false)) && (old(Due()) ==> Due())
        invariant whole ==> NoneBefore(index, tape, Position() + 1, anchor)
        invariant live ==> Quiet() && |pending| <= |old(pending)|
        invariant live ==> pending == Pulls(truth)[|truth| - |pending|..]
        invariant live ==> decodedFrames + |pending| == old(decodedFrames) + |old(pending)|
        decreases |pending|
      {
        ghost var position := |truth| - |pending|;
        if live && pending != [] {
          PullsFrom(truth, position);
        }
        var candidate := NextDecoded();
        if candidate.Err? {
          return Err(candidate.error);
        }
        if MatchesEntry(candidate.value, index.entries[anchor]) {
          if live {
            OnlyAnchorMatches(index, truth, position, anchor);
          }
          return Ok(candidate.value);
        }
        if whole {
          Unmatched(candidate.value, anchor);
        }
      }
    }

    /** From the anchor, reconcile every frame up to the first planned one. */
    method AdvanceTo(anchor: u64, first: u64, anchored: DecodedFrame, ghost truth: seq<DecodedFrame>)
      returns (r: Result<DecodedFrame, Failure>)
      modifies this`polls, this`pending, this`decodedFrames
      ensures r.Ok? ==> first < |index.entries| && MatchesEntry(r.value, index.entries[first])
      ensures old(JustRead(anchored)) && r.Ok? ==> JustRead(r.value)
      ensures old(Heard(false)) ==> Heard(r.Err? && r.error == Cancelled)
      ensures old(Due()) ==> Due()
      ensures old(Heard(false) && OnAttempt() && JustRead(anchored)) && r.Err? ==> Explained(r.error)
      ensures old(JustRead(anchored)) && r.Ok? ==>
        && anchor <= first && Position() - first == old(Position()) - anchor
        && Reconciled(index, tape, old(Position()) - anchor, anchor, first + 1)
      ensures TrueTimeline(index, truth) && old(PlaysAfter(truth, anchor)) && anchored == truth[anchor]
              && old(decodedFrames) + |old(pending)| <= U64_MAX ==>
        && Quiet()
        && decodedFrames + |pending| == old(decodedFrames) + |old(pending)|
        && (r.Ok? ==> r.value == truth[first] && PlaysAfter(truth, first))
        && (r.Err? ==> Retries(r.error))
    {
      hide TrueTimeline, MatchesEntry, OnTape, Heard, Due, OnAttempt, JustRead, Explained, Reconciles, Reconciled,
           PlaysAfter;
      if PlaysAfter(truth, anchor) {
        PlaysNext(truth, anchor);
      }
      ghost var live := TrueTimeline(index, truth) && PlaysAfter(truth, anchor) && anchored == truth[anchor]
                        && decodedFrames + |pending| <= U64_MAX;
      ghost var base := Position() - anchor;
      NothingReconciled(index, tape, base, anchor);
      var decoded := anchored;
      var current: u64 := anchor;
      while true
        invariant anchor <= current
        invariant old(JustRead(anchored)) ==>
          JustRead(decoded) && Position() == base + current && Reconciled(index, tape, base, anchor, current)
        invariant (old(Heard(false)) ==> Heard(false)) && (old(Due()) ==> Due())
        invariant live ==> current < |truth| && decoded == truth[current] && PlaysAfter(truth, current)
        invariant live ==> decodedFrames + |pending| == old(decodedFrames) + |old(pending)|
        decreases |pending|
      {
        var step := CheckAndRead(current, first, decoded, truth);
        if step.Err? {
          return Err(step.error);
        }
        if old(JustRead(anchored)) {
          ReconciledStep(index, tape, base, anchor, current);
        }
        if step.value.None? {
          return Ok(decoded);
        }
        decoded := step.value.value;
        current := current + 1;
      }
    }

    /** Reconciles the current frame and, unless it is the one asked for, reads the next. */
    method CheckAndRead(current: u64, first: u64, decoded: DecodedFrame, ghost truth: seq<DecodedFrame>)
      returns (r: Result<Option<DecodedFrame>, Failure>)
      modifies this`polls, this`pending, this`decodedFrames
      ensures r.Ok? ==> current < |index.entries| && MatchesEntry(decoded, index.entries[current])
      ensures r.Ok? ==> (r.value.None? <==> current == first)
      ensures r.Ok? && r.value.Some? ==> |pending| == |old(pending)| - 1
      ensures r.Ok? && r.value.None? ==> pending == old(pending)
      ensures old(Heard(false)) ==> Heard(r.Err? && r.error == Cancelled)
      ensures old(Due()) ==> Due()
      ensures old(Heard(false) && OnAttempt() && JustRead(decoded)) && r.Err? ==> Explained(r.error)
      ensures old(JustRead(decoded)) && r.Ok? ==>
        && Reconciles(index, tape, old(Position()) - current, current)
        && JustRead(if r.value.Some? then r.value.value else decoded)
      ensures TrueTimeline(index, truth) && old(PlaysAfter(truth, current)) && decoded == truth[current]
              && old(decodedFrames) + |old(pending)| <= U64_MAX ==>
        && Quiet()
        && decodedFrames + |pending| == old(decodedFrames) + |old(pending)|
        && (r.Ok? && r.value.None? ==> PlaysAfter(truth, current))
        && (r.Ok? && r.value.Some? ==>
              current + 1 < |truth| && r.value.value == truth[current + 1] && PlaysAfter(truth, current + 1))
        && (r.Err? ==> Retries(r.error))
    {
      hide TrueTimeline, MatchesEntry, ValidPicture, Pulls, OnTape, Heard, Due, OnAttempt, JustRead, Passed, Traced,
           Explained, Reconciles, PlaysAfter;
      ghost var live := PlaysAfter(truth, current);
      if live {
        PlaysNext(truth, current);
      }
      var entry := RequireMatching(index, current, decoded);
      if entry.Err? {
        if OnAttempt() && JustRead(decoded) {
          MismatchExplained(current, decoded);
        }
        return Err(entry.error);
      }
      if JustRead(decoded) {
        MatchedHere(decoded, current);
        JustReadOnTape(decoded);
      }
      if current == first {
        return Ok(None);
      }
      ghost var before := pending;
      var next := NextDecoded();
      if next.Err? {
        return Err(next.error);
      }
      if live && pending == before[1..] && Quiet() {
        PlayedOn(truth, current, before);
      }
      return Ok(Some(next.value));
    }

    method AlignFromSeek(anchor: u64, first: u64, ghost truth: seq<DecodedFrame>)
      returns (r: Result<DecodedFrame, Failure>)
      modifies this`polls, this`pending, this`decodedFrames
      ensures r.Ok? ==> first < |index.entries| && MatchesEntry(r.value, index.entries[first])
      ensures old(OnTape()) && r.Ok? ==> JustRead(r.value)
      ensures old(Heard(false)) ==> Heard(r.Err? && r.error == Cancelled)
      ensures old(Due()) ==> Due()
      ensures old(Heard(false) && OnAttempt() && OnTape()) && r.Err? && !Retries(r.error) ==> Explained(r.error)
      ensures old(OnTape() && pending == tape) && r.Ok? ==> LandedOn(index, tape, Position(), anchor, first)
      ensures TrueTimeline(index, truth) && old(Quiet()) && |old(pending)| <= |truth|
              && old(pending) == Pulls(truth)[|truth| - |old(pending)|..]
              && old(decodedFrames) + |truth| <= U64_MAX ==>
        && Quiet()
        && decodedFrames + |pending| == old(decodedFrames) + |old(pending)|
        && (r.Ok? ==> r.value == truth[first] && PlaysAfter(truth, first))
        && (r.Err? ==> Retries(r.error))
    {
      hide MatchesEntry, ValidPicture, TrueTimeline, Pulls, Heard, Due, OnAttempt, OnTape, JustRead, Explained,
           Reconciled, NoneBefore;
      if index.EntryAt(anchor).None? {
        return Err(TimelineMismatch(anchor));
      }
      var found := FindAnchor(anchor, truth);
      if found.Err? {
        return Err(found.error);
      }
      r := AdvanceTo(anchor, first, found.value, truth);
    }

    /** A fresh decoder, played from the start of the stream. */
    method Reopen(first: u64, ghost truth: seq<DecodedFrame>) returns (r: Result<DecodedFrame, Failure>)
      requires Scripted()
      modifies this`attempts, this`polls, this`pending, this`landed, this`seekFails, this`opens, this`tape,
        this`decodedFrames
      ensures Scripted() && opens == old(opens) + [|log|]
      ensures r.Ok? ==> JustRead(r.value) && LastOpened(false) && Admitted()
      ensures r.Ok? ==> FromStart(index, tape, Position(), first)
      ensures old(Heard(false)) ==> Heard(r.Err? && r.error == Cancelled) && (r.Err? ==> Explained(r.error))
      ensures old(Due()) ==> Due()
      ensures r.Ok? ==> first < |index.entries| && MatchesEntry(r.value, index.entries[first])
      ensures |old(attempts)| > 0 && CooperativeAttempt(index, truth, old(attempts)[0]) && TrueTimeline(index, truth)
              && old(Quiet()) && first < |truth| && old(decodedFrames) + |truth| <= U64_MAX ==>
        && r == Ok(truth[first])
        && PlaysAfter(truth, first)
        && decodedFrames == old(decodedFrames) + first + 1
    {
      hide TrueTimeline, MatchesEntry, Pulls, CooperativeAttempt, Heard, Due, Reconciled, OnTape, JustRead, Explained,
           Scripted, LastOpened, Ready, PlaysAfter;
      var reopened := OpenChecked(truth);
      if reopened.Err? {
        return Err(reopened.error);
      }
      r := AlignFromStart(first, truth);
    }

    /** Open, seek to the anchor when there is one, and fall back to the stream start when the
        alignment cannot be proved. No visitor call happens here. */
    method OpenAndAlign(firstEntry: Entry, first: u64, ghost truth: seq<DecodedFrame>)
      returns (r: Result<Aligned, Failure>)
      requires log == [] && opens == [] && decodedFrames == 0 && positions == [] && Scripted()
      modifies this
      ensures log == [] && positions == [] && Scripted()
      ensures r.Ok? ==> JustRead(r.value.decoded) && LastOpened(r.value.usedSeek && !r.value.fellBack)
      ensures r.Ok? ==> Admitted()
      ensures r.Ok? && r.value.usedSeek && !r.value.fellBack ==> !LastAttempt().value.seekFails
      ensures old(Heard(false)) ==> Heard(r.Err? && r.error == Cancelled) && (r.Err? ==> Explained(r.error))
      ensures old(Due()) ==> Due()
      ensures r.Ok? ==> (r.value.usedSeek <==> SeekAnchor(firstEntry).Some?)
      ensures r.Ok? ==>
        if r.value.usedSeek && !r.value.fellBack
        then SeekAnchor(firstEntry).Some? && LandedOn(index, tape, Position(), SeekAnchor(firstEntry).value, first)
        else FromStart(index, tape, Position(), first)
      ensures 1 <= |opens| <= 2 && forall o :: o in opens ==> o == 0
      ensures r.Ok? ==> first < |index.entries| && MatchesEntry(r.value.decoded, index.entries[first])
      ensures r.Ok? ==> (r.value.fellBack <==> |opens| == 2) && (r.value.fellBack ==> r.value.usedSeek)
      ensures old(Cooperative(truth)) && first < |truth| ==>
        && r.Ok?
        && r.value.decoded == truth[first]
        && PlaysAfter(truth, first)
        && decodedFrames <= |truth| + first + 1
    {
      hide TrueTimeline, MatchesEntry, Pulls, FromTape, CooperativeAttempt, OnTape, Opened, PlaysAfter, JustRead,
           Scripted, Heard, Due, Explained, Ready,
           LandedOn, FromStart, LastAttempt;
      if Cooperative(truth) {
        TimelineLength(index, truth);
      }
      ghost var willing, planned := Cooperative(truth), attempts;
      var attempt := OpenChecked(truth);
      if attempt.Err? {
        return Err(attempt.error);
      }
      if willing {
        OpenedCooperative(truth, planned[0]);
      }
      var aligned, retry := AlignOpened(firstEntry, first, truth);
      if !retry {
        return aligned;
      }
      var restarted := Reopen(first, truth);
      if restarted.Err? {
        return Err(restarted.error);
      }
      return Ok(Aligned(restarted.value, true, true));
    }

    /** The decoder is open, cooperative and has not been read yet. */
    ghost predicate Opened(truth: seq<DecodedFrame>)
      reads this`polls, this`decodedFrames, this`pending, this`seekFails, this`landed
    {
      && TrueTimeline(index, truth) && Quiet() && decodedFrames == 0
      && pending == Pulls(truth) && !seekFails
      && |landed| <= |truth| && landed == Pulls(truth)[|truth| - |landed|..]
    }

    lemma OpenedCooperative(truth: seq<DecodedFrame>, a: Attempt)
      requires CooperativeAttempt(index, truth, a) && TrueTimeline(index, truth) && Quiet() && decodedFrames == 0
      requires pending == Pulls(truth) && !seekFails && landed == a.landed
      ensures Opened(truth)
    {
    }

    lemma ReadySeeks()
      requires Ready() && !seekFails
      ensures LastAttempt().Some? && !LastAttempt().value.seekFails
    {
    }

    lemma FailedSeekExplained()
      requires Ready() && seekFails
      ensures Explained(Decoder)
    {
    }

    /** The seek: the decoder now plays what lies behind its landing. */
    method Land()
      requires LastOpened(false) && Ready()
      modifies this`pending, this`tape
      ensures pending == tape == landed && OnTape() && LastOpened(true)
    {
      pending, tape := landed, landed;
    }

    /** Aligns the open decoder; `retry` when its seek could not be reconciled. */
    method AlignOpened(firstEntry: Entry, first: u64, ghost truth: seq<DecodedFrame>)
      returns (r: Result<Aligned, Failure>, retry: bool)
      requires OnTape() && LastOpened(false) && Ready()
      modifies this`polls, this`pending, this`tape, this`decodedFrames
      ensures r.Ok? ==> !retry && !r.value.fellBack && (r.value.usedSeek <==> SeekAnchor(firstEntry).Some?)
      ensures retry ==> SeekAnchor(firstEntry).Some?
      ensures r.Ok? && r.value.usedSeek ==> !LastAttempt().value.seekFails
      ensures old(Heard(false)) ==> Heard(r.Err? && r.error == Cancelled) && (r.Err? && !retry ==> Explained(r.error))
      ensures old(Due()) ==> Due()
      ensures retry ==> r.Err? && r.error != Cancelled
      ensures r.Ok? ==> JustRead(r.value.decoded) && LastOpened(r.value.usedSeek)
      ensures r.Ok? && !r.value.usedSeek && old(pending == tape) ==> FromStart(index, tape, Position(), first)
      ensures r.Ok? && r.value.usedSeek ==>
        SeekAnchor(firstEntry).Some? && LandedOn(index, tape, Position(), SeekAnchor(firstEntry).value, first)
      ensures r.Ok? ==> first < |index.entries| && MatchesEntry(r.value.decoded, index.entries[first])
      ensures old(Opened(truth)) && first < |truth| <= I64_MAX ==>
        && Quiet() && decodedFrames <= |truth|
        && (retry || (r.Ok? && r.value.decoded == truth[first] && PlaysAfter(truth, first)))
    {
      hide TrueTimeline, MatchesEntry, Pulls, FromTape, Heard, Due, OnTape, LastOpened, JustRead, Explained, Ready,
           NoneBefore, Reconciled;
      var anchor := SeekAnchor(firstEntry);
      if anchor.None? {
        var started := AlignFromStart(first, truth);
        if started.Err? {
          return Err(started.error), false;
        }
        return Ok(Aligned(started.value, false, false)), false;
      }
      if seekFails {
        FailedSeekExplained();
        return Err(Decoder), false;
      }
      ReadySeeks();
      Land();
      var sought := AlignFromSeek(anchor.value, first, truth);
      if sought.Ok? {
        return Ok(Aligned(sought.value, true, false)), false;
      }
      return Err(sought.error), Retries(sought.error);
    }

    /** The decoder has just returned the true picture of `current` and will play on from there. */
    ghost predicate Plays(current: nat, decoded: DecodedFrame, truth: seq<DecodedFrame>)
      reads this
    {
      && TrueTimeline(index, truth)
      && PlaysAfter(truth, current)
      && decoded == truth[current]
      && decodedFrames <= |truth| + current + 1
    }

    /** Reads the next frame; a decoder that played truly up to `next` goes on doing so. */
    method ReadOn(next: u64, ghost decoded: DecodedFrame, ghost truth: seq<DecodedFrame>)
      returns (r: Result<DecodedFrame, Failure>)
      modifies this`polls, this`pending, this`decodedFrames
      ensures r.Ok? ==> |pending| == |old(pending)| - 1
      ensures old(Heard(false)) ==> Heard(r.Err? && r.error == Cancelled)
      ensures old(Due()) ==> Due()
      ensures old(Heard(false) && OnAttempt() && Passed()) && r.Err? ==> Explained(r.error)
      ensures old(Passed()) ==> Passed() && (r.Ok? ==> Traced(r.value))
      ensures 0 < next < |index.entries| && old(Plays(next - 1, decoded, truth)) ==>
        r.Ok? && Plays(next, r.value, truth)
    {
      hide Passed, Traced, Pulls, MatchesEntry, ValidPicture;
      if next < |truth| {
        PullsFrom(truth, next);
      }
      if Passed() {
        PassedIsOnTape();
      }
      r := NextDecoded();
    }

    /** Reconciles the current frame with the index and emits it when it is planned. */
    method VisitCurrent<E>(plan: Plan, visit: Visit<E>, current: u64, decoded: DecodedFrame,
                           ghost truth: seq<DecodedFrame>)
      returns (r: Result<(), ExtractionError<E>>)
      requires WellFormed(plan) && PlannedLog(index, plan, log) && AtPosition(plan, |log|, current)
      requires VisitorOutcome(visit, log, None)
      modifies this`polls, this`log, this`positions
      ensures PlannedLog(index, plan, log)
      ensures r.Ok? ==> |log| == |old(log)| + if plan.Contains(current) then 1 else 0
      ensures r.Ok? ==> current < |index.entries| && current <= PlannedId(plan, plan.count - 1)
      ensures r.Ok? ==> if current == PlannedId(plan, plan.count - 1) then |log| == plan.count
                        else AtPosition(plan, |log|, current + 1)
      ensures VisitorOutcome(visit, log, VisitorError(r))
      ensures old(Traced(decoded)) ==> Passed()
      ensures old(JustRead(decoded)) && InStep(old(log), old(positions), Position() - current) ==>
        InStep(log, positions, Position() - current)
      ensures old(Traced(decoded)) && (r.Ok? || |log| > |old(log)|) ==>
        Reconciles(index, tape, Position() - current, current)
      ensures |log| > |old(log)| ==> log[|log| - 1].frameId == current
      ensures log == old(log) || |log| == |old(log)| + 1
      ensures old(Heard(false)) ==> Heard(r.Err? && r.error.Failed? && r.error.failure == Cancelled)
      ensures old(Due()) ==> Due()
      ensures old(Heard(false) && OnAttempt() && Traced(decoded)) && r.Err? && r.error.Failed? ==>
        Explained(r.error.failure)
      ensures old(Plays(current, decoded, truth)) ==>
        && Plays(current, decoded, truth) && (r.Ok? || r.error.Visitor?)
        && (TrueLog(truth, old(log)) ==> TrueLog(truth, log))
    {
      hide PlannedId, AtPosition, MatchesEntry, PlannedLog, VisitorOutcome, TrueLog, TrueTimeline, ValidPicture, Pulls,
           FromTape, WellFormed, Plan.Contains, Heard, Due, OnAttempt, OnTape, InStep, Reconciles, JustRead, Traced,
           Passed, Explained;
      ghost var traced := Traced(decoded);
      if traced {
        TracedIsPassed(decoded);
      }
      if Plays(current, decoded, truth) {
        TimelineAt(index, truth, current);
      }
      PositionInCount(plan, |log|, current);
      var entry := RequireMatching(index, current, decoded);
      if entry.Err? {
        if traced && OnAttempt() {
          MismatchExplained(current, decoded);
        }
        return Err(Failed(entry.error));
      }
      if traced {
        MatchedHere(decoded, current);
      }
      PositionStep(plan, |log|, current);
      if plan.Contains(current) {
        r := Emit(plan, visit, current, entry.value, decoded, truth);
        return;
      }
      return Ok(());
    }

    /** One turn of the decode loop: the next picture, or nothing once the last planned frame is through. */
    method Turn<E>(plan: Plan, visit: Visit<E>, lastSelected: u64, current: u64, decoded: DecodedFrame,
                   ghost truth: seq<DecodedFrame>)
      returns (r: Result<Option<DecodedFrame>, ExtractionError<E>>)
      requires WellFormed(plan) && PlannedLog(index, plan, log) && AtPosition(plan, |log|, current)
      requires plan.count > 0 && lastSelected == PlannedId(plan, plan.count - 1) < |index.entries|
      requires VisitorOutcome(visit, log, None)
      modifies this`polls, this`pending, this`decodedFrames, this`log, this`positions
      ensures PlannedLog(index, plan, log)
      ensures VisitorOutcome(visit, log, VisitorError(r))
      ensures r.Ok? ==> |log| == |old(log)| + if plan.Contains(current) then 1 else 0
      ensures old(Heard(false)) ==> Heard(r.Err? && r.error.Failed? && r.error.failure == Cancelled)
      ensures old(Due()) ==> Due()
      ensures old(Heard(false) && OnAttempt() && Traced(decoded)) && r.Err? && r.error.Failed? ==>
        Explained(r.error.failure)
      ensures old(JustRead(decoded)) && InStep(old(log), old(positions), old(Position()) - current) ==>
        InStep(log, positions, old(Position()) - current)
      ensures old(Traced(decoded)) && (r.Ok? || |log| > |old(log)|) ==>
        Reconciles(index, tape, old(Position()) - current, current)
      ensures log == old(log) || (|log| == |old(log)| + 1 && log[|log| - 1].frameId == current)
      ensures r.Ok? && r.value.Some? ==> Position() == old(Position()) + 1
      ensures r == Ok(None) ==> |log| == plan.count
      ensures r.Ok? && r.value.Some? ==>
        current < |index.entries| && AtPosition(plan, |log|, current + 1) && |pending| < |old(pending)|
      ensures old(Traced(decoded)) ==> Passed() && (r.Ok? && r.value.Some? ==> Traced(r.value.value))
      ensures old(Plays(current, decoded, truth)) && TrueLog(truth, old(log)) ==>
        && (r.Ok? || r.error.Visitor?) && TrueLog(truth, log)
        && (r.Ok? && r.value.Some? ==> Plays(current + 1, r.value.value, truth))
    {
      hide PlannedId, AtPosition, MatchesEntry, PlannedLog, VisitorOutcome, TrueLog, TrueTimeline, ValidPicture, Pulls,
           FromTape, Traced, Passed, Plays, WellFormed, Plan.Contains, Heard, Due, OnAttempt,
           Explained, InStep, Reconciles, JustRead;
      var outcome := VisitCurrent(plan, visit, current, decoded, truth);
      if outcome.Err? {
        return Err(outcome.error);
      }
      if current == lastSelected {
        return Ok(None);
      }
      var next := ReadOn(current + 1, decoded, truth);
      if next.Err? {
        return Err(Failed(next.error));
      }
      return Ok(Some(next.value));
    }

    /** The decode loop: every frame is reconciled, planned frames are emitted. */
    method EmitPlanned<E>(plan: Plan, visit: Visit<E>, lastSelected: u64, firstDecoded: DecodedFrame,
                          ghost truth: seq<DecodedFrame>)
      returns (r: Result<nat, ExtractionError<E>>)
      requires WellFormed(plan) && plan.count > 0 && log == []
      requires lastSelected == PlannedId(plan, plan.count - 1) < |index.entries|
      modifies this`polls, this`pending, this`decodedFrames, this`log, this`positions
      ensures PlannedLog(index, plan, log)
      ensures old(Traced(firstDecoded)) ==> FromTape(tape, log, positions, |tape|)
      ensures old(Heard(false)) ==> Heard(r.Err? && r.error.Failed? && r.error.failure == Cancelled)
      ensures old(Due()) ==> Due()
      ensures old(Heard(false) && OnAttempt() && Traced(firstDecoded)) && r.Err? && r.error.Failed? ==>
        Explained(r.error.failure)
      ensures old(Traced(firstDecoded) && positions == []) && log != [] ==>
        && InStep(log, positions, old(Position()) - plan.first)
        && Reconciled(index, tape, old(Position()) - plan.first, plan.first, log[|log| - 1].frameId + 1)
      ensures r.Ok? ==> |log| == plan.count == r.value
      ensures VisitorOutcome(visit, log, VisitorError(r))
      ensures old(Plays(plan.first, firstDecoded, truth)) ==>
        && (r.Ok? || r.error.Visitor?)
        && TrueLog(truth, log)
    {
      hide PlannedId, AtPosition, MatchesEntry, PlannedLog, VisitorOutcome, TrueLog, TrueTimeline, ValidPicture, Pulls,
           FromTape, Traced, Passed, Plays, WellFormed, Plan.Contains, Heard, Due, OnAttempt, Explained,
           InStep, Reconciles, Reconciled, JustRead;
      ghost var base := Position() - plan.first;
      ghost var tracked := Traced(firstDecoded) && positions == [];
      NothingReconciled(index, tape, base, plan.first);
      NothingInStep(base);
      ghost var live := Plays(plan.first, firstDecoded, truth);
      ghost var traced := Traced(firstDecoded);
      NothingVisited(index, plan, visit, truth);
      var decoded := firstDecoded;
      var current: u64 := plan.first;
      var selected := 0;
      while true
        invariant selected == |log|
        invariant AtPosition(plan, |log|, current)
        invariant PlannedLog(index, plan, log)
        invariant VisitorOutcome(visit, log, None)
        invariant live ==> Plays(current, decoded, truth) && TrueLog(truth, log)
        invariant traced ==> Traced(decoded)
        invariant tracked ==> Position() == base + current && InStep(log, positions, base)
        invariant tracked ==> Reconciled(index, tape, base, plan.first, current)
        invariant plan.first <= current && (log != [] ==> log[|log| - 1].frameId < current)
        invariant (old(Heard(false)) ==> Heard(false)) && (old(Due()) ==> Due())
        decreases |pending|
      {
        if traced {
          TracedIsPassed(decoded);
        }
        var turn := Turn(plan, visit, lastSelected, current, decoded, truth);
        if traced {
          PassedIsFromTape();
        }
        if tracked && Reconciles(index, tape, base, current) {
          ReconciledStep(index, tape, base, plan.first, current);
        }
        if tracked && log != [] {
          ReconciledLess(index, tape, base, plan.first, log[|log| - 1].frameId + 1, current);
        }
        if turn.Err? {
          return Err(turn.error);
        }
        if plan.Contains(current) {
          selected := selected + 1;
        }
        if turn.value.None? {
          return Ok(selected);
        }
        decoded := turn.value.value;
        current := current + 1;
      }
    }

    method ExtractRgbaPlan<E>(plan: Plan, visit: Visit<E>, ghost truth: seq<DecodedFrame>)
      returns (r: Result<Report, ExtractionError<E>>)
      requires plan.stride > 0 && log == [] && opens == [] && decodedFrames == 0 && positions == [] && Scripted()
      modifies this
      ensures |opens| <= 2 && forall o :: o in opens ==> o == 0
      ensures Scripted()
      ensures log != [] ==> FromTape(tape, log, positions, |tape|) && OnAttempt()
      ensures log != [] ==> TapeOf(script, tape)
      ensures r.Ok? ==> LastOpened(r.value.usedSeek && !r.value.fellBack)
      ensures log != [] || r.Ok? ==> Admitted()
      ensures old(Heard(false)) && r.Err? && r.error.Failed? ==>
        || ValidatePlan(index, plan) == Err(r.error.failure)
        || (ValidatePlan(index, plan).Ok? && Explained(r.error.failure))
      ensures old(Heard(false)) ==> Heard(r.Err? && r.error.Failed? && r.error.failure == Cancelled)
      ensures old(Due()) ==> Due()
      ensures log != [] ==>
        && positions != [] && InStep(log, positions, positions[0] - plan.first)
        && Reconciled(index, tape, positions[0] - plan.first, plan.first, log[|log| - 1].frameId + 1)
      ensures log != [] ==> plan.first < |index.entries| && StartedOn(index.entries[plan.first], plan.first)
      ensures r.Ok? ==> r.value.decoded == decodedFrames && (r.value.fellBack <==> |opens| == 2)
      ensures r.Ok? ==>
        plan.first < |index.entries| && (r.value.usedSeek <==> SeekAnchor(index.entries[plan.first]).Some?)
      ensures log == [] || WellFormed(plan)
      ensures WellFormed(plan) ==> PlannedLog(index, plan, log)
      ensures r.Ok? ==> WellFormed(plan) && |log| == plan.count == r.value.selected
      ensures VisitorOutcome(visit, log, VisitorError(r))
      ensures old(Cooperative(truth)) && ValidatePlan(index, plan).Ok? ==>
        && (r.Ok? || r.error.Visitor?)
        && TrueLog(truth, log)
    {
      hide ValidatePlan, PlannedId, PlannedLog, VisitorOutcome, TrueTimeline, MatchesEntry, TapeOf, Heard, Due,
           Explained, Reconciled, InStep, FromStart, LandedOn, JustRead, OnTape, FromTape, Scripted, PlaysAfter,
           TrueLog, LastOpened, CooperativeAttempt, WellFormed, PictureAt;
      NothingSeen(index, plan, visit, truth);
      var validated := ValidatePlan(index, plan);
      if validated.Err? {
        return Err(Failed(validated.error));
      }
      PlanBegins(plan);
      if Cooperative(truth) {
        TimelineLength(index, truth);
      }
      var aligned := OpenAndAlign(index.entries[plan.first], plan.first, truth);
      if aligned.Err? {
        return Err(Failed(aligned.error));
      }
      NothingTraced(aligned.value.decoded);
      ghost var base := Position() - plan.first;
      var emitted := EmitPlanned(plan, visit, validated.value, aligned.value.decoded, truth);
      if log != [] {
        FirstInStep(index, plan, log, positions, base);
        LastOpenedIsTape(aligned.value.usedSeek && !aligned.value.fellBack);
      }
      if emitted.Err? {
        return Err(emitted.error);
      }
      if emitted.value != plan.count {
        return Err(Failed(InvalidPlan));
      }
      return Ok(Report(emitted.value, decodedFrames, aligned.value.usedSeek, aligned.value.fellBack));
    }

    /** Cancellation check, pixel validation and one visitor call for a planned frame. */
    method Emit<E>(plan: Plan, visit: Visit<E>, current: u64, entry: Entry, decoded: DecodedFrame,
                   ghost truth: seq<DecodedFrame>)
      returns (r: Result<(), ExtractionError<E>>)
      requires WellFormed(plan) && PlannedLog(index, plan, log) && |log| < plan.count
      requires VisitorOutcome(visit, log, None)
      requires current == PlannedId(plan, |log|) < |index.entries| && entry == index.entries[current]
      modifies this`polls, this`log, this`positions
      ensures PlannedLog(index, plan, log)
      ensures old(Traced(decoded)) && MatchesEntry(decoded, entry) ==> Passed()
      ensures old(JustRead(decoded)) && InStep(old(log), old(positions), Position() - current) ==>
        InStep(log, positions, Position() - current)
      ensures old(Quiet()) ==> Quiet()
      ensures old(Heard(false)) ==> Heard(r.Err? && r.error.Failed? && r.error.failure == Cancelled)
      ensures old(Due()) ==> Due()
      ensures old(Heard(false) && OnAttempt() && JustRead(decoded)) && r.Err? && r.error.Failed? ==>
        Explained(r.error.failure)
      ensures r.Ok? ==> |log| == |old(log)| + 1
      ensures log == old(log) || (|log| == |old(log)| + 1 && log[|log| - 1].frameId == current)
      ensures VisitorOutcome(visit, log, VisitorError(r))
      ensures current < |truth| && decoded == truth[current] && TrueLog(truth, old(log)) ==> TrueLog(truth, log)
      ensures old(Quiet()) && ValidPicture(decoded) ==> r.Ok? || r.error.Visitor?
    {
      hide Heard, OnAttempt, OnTape, Traced, Passed, InStep, FromTape, PlannedLog, VisitorOutcome, TrueLog, PlannedId,
           WellFormed, MatchesEntry;
      if Traced(decoded) {
        TracedIsPassed(decoded);
      }
      var cancelled := IsCancelled();
      if cancelled {
        return Err(Failed(Cancelled));
      }
      var pixels := NewFrame(decoded.width, decoded.height, decoded.stride, decoded.pixels);
      if pixels.Err? {
        return Err(Failed(InvalidPixels));
      }
      var frame := Extracted(current, |log| + 1, plan.count, entry, pixels.value);
      var outcome := Deliver(plan, visit, frame, decoded, truth);
      if outcome.Some? {
        return Err(Visitor(outcome.value));
      }
      return Ok(());
    }

    lemma TracedIsPassed(d: DecodedFrame)
      requires Traced(d)
      ensures JustRead(d) && Passed()
    {
      FromTapeWider(tape, log, positions, Position(), Position() + 1);
    }

    /** The visitor call itself. */
    method Deliver<E>(plan: Plan, visit: Visit<E>, frame: Extracted, ghost decoded: DecodedFrame,
                      ghost truth: seq<DecodedFrame>)
      returns (outcome: Option<E>)
      requires WellFormed(plan) && PlannedLog(index, plan, log) && |log| < plan.count
      requires VisitorOutcome(visit, log, None)
      requires PlannedVisit(index, plan, |log|, frame)
      requires frame.pixels == RgbaLayout(decoded.width, decoded.height, decoded.stride, decoded.pixels)
      modifies this`log, this`positions
      ensures PlannedLog(index, plan, log) && |log| == |old(log)| + 1 && log[|log| - 1] == frame
      ensures VisitorOutcome(visit, log, outcome)
      ensures old(Traced(decoded)) && MatchesEntry(decoded, frame.entry) ==> Passed()
      ensures old(JustRead(decoded)) && InStep(old(log), old(positions), Position() - frame.frameId) ==>
        InStep(log, positions, Position() - frame.frameId)
      ensures frame.frameId < |truth| && decoded == truth[frame.frameId] && TrueLog(truth, old(log)) ==>
        TrueLog(truth, log)
    {
      hide FromTape, InStep, PlannedLog, PlannedVisit, VisitorOutcome, TrueLog, WellFormed;
      outcome := visit(log, frame);
      ghost var at: nat := if Position() >= 0 then Position() else 0;
      if Traced(decoded) && MatchesEntry(decoded, frame.entry) {
        FromTapeStep(tape, log, positions, at, Position() + 1, frame);
      }
      if InStep(log, positions, at - frame.frameId) {
        InStepStep(log, positions, at - frame.frameId, at, frame);
      }
      PlannedLogStep(index, plan, log, frame);
      TrueLogStep(truth, log, frame);
      VisitorOutcomeStep(visit, log, frame);
      log := log + [frame];
      positions := positions + [at];
    }
  }
}
