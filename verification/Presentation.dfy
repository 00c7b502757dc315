/**
 * Presentation generations of one microscope session. Preparing a frame answers with a generation;
 * the pixels are fetched later, under that generation, by a separate call. Every call runs with the
 * session locked, so a session's life is a sequence of calls. Timestamp lookups and decoding are
 * parameters: a lookup found a frame or not, a preparation produced pixels or failed.
 */
module Presentation {
  import opened Common

  const MAX_PRESENTATION_RGBA_BYTES: int := 256 * 1024 * 1024

  datatype Failure =
    | InvalidRequest | NoFrames | EmptyIndex | AtFirstFrame | AtLastFrame | FrameNotIndexed | TimestampNotIndexed
    | GenerationsExhausted | PreparationFailed | FrameTooLarge
    | StaleGeneration | NoPreparedFrame | BufferTooSmall

  datatype Presented = Presented(frame: nat, pixels: seq<byte>)

  datatype Session = Session(frameCount: u64, current: Option<nat>, generation: int, presented: Option<Presented>)

  datatype Request = ByStep(delta: int) | ToFrame(frame: int) | ToTimestamp(found: Option<nat>)

  datatype Call = Go(request: Request) | Prepare(decoded: Option<seq<byte>>) | Copy(generation: int, capacity: nat)

  datatype Response =
    | Moved(frame: nat)
    | Described(generation: int, frame: nat, byteLen: nat)
    | Copied(pixels: seq<byte>)
    | Failed(failure: Failure)

  function Open(frameCount: u64): Session {
    if frameCount > 0 then Session(frameCount, Some(0), 1, None) else Session(0, None, 0, None)
  }

  function Indexed(frameCount: u64, frame: int): Result<nat, Failure> {
    if frameCount == 0 then Err(EmptyIndex)
    else if 0 <= frame < frameCount then Ok(frame)
    else Err(FrameNotIndexed)
  }

  function StepTarget(s: Session, delta: int): Result<nat, Failure> {
    if delta != -1 && delta != 1 then Err(InvalidRequest)
    else if s.current.None? then Err(NoFrames)
    else if s.frameCount == 0 then Err(EmptyIndex)
    else if delta == -1 then
      if s.current.value == 0 then Err(AtFirstFrame) else Indexed(s.frameCount, s.current.value - 1)
    else if s.current.value + 1 >= s.frameCount then Err(AtLastFrame)
    else Indexed(s.frameCount, s.current.value + 1)
  }

  function Resolve(s: Session, request: Request): Result<nat, Failure> {
    match request
    case ByStep(delta) => StepTarget(s, delta)
    case ToFrame(frame) => if frame < 0 then Err(InvalidRequest) else Indexed(s.frameCount, frame)
    case ToTimestamp(found) =>
      if s.frameCount > 0 && found.None? then Err(TimestampNotIndexed)
      else Indexed(s.frameCount, if found.Some? then found.value else 0)
  }

  /** Moving to the frame already shown changes nothing; any other move starts a new generation. */
  function SetCurrent(s: Session, frame: nat): (Session, bool) {
    if s.current == Some(frame) then
      (s, true)
    else
      var moved := s.(current := Some(frame), presented := None);
      if s.generation == I64_MAX then (moved, false) else (moved.(generation := s.generation + 1), true)
  }

  function Act(s: Session, call: Call): (Session, Response) {
    match call
    case Go(request) =>
      (match Resolve(s, request)
       case Err(failure) => (s, Failed(failure))
       case Ok(frame) =>
         var (after, counted) := SetCurrent(s, frame);
         (after, if counted then Moved(frame) else Failed(GenerationsExhausted)))
    case Prepare(decoded) =>
      if s.current.None? then (s, Failed(NoFrames))
      else if decoded.None? then (s, Failed(PreparationFailed))
      else if |decoded.value| > MAX_PRESENTATION_RGBA_BYTES then (s, Failed(FrameTooLarge))
      else
        (s.(presented := Some(Presented(s.current.value, decoded.value))),
         Described(s.generation, s.current.value, |decoded.value|))
    case Copy(generation, capacity) =>
      if generation <= 0 then (s, Failed(InvalidRequest))
      else if generation != s.generation then (s, Failed(StaleGeneration))
      else if s.presented.None? then (s, Failed(NoPreparedFrame))
      else if s.current != Some(s.presented.value.frame) then (s, Failed(StaleGeneration))
      else if capacity < |s.presented.value.pixels| then (s, Failed(BufferTooSmall))
      else (s, Copied(s.presented.value.pixels))
  }

  function RunFrom(s: Session, calls: seq<Call>): Session
    decreases |calls|
  {
    if calls == [] then s else RunFrom(Act(s, calls[0]).0, calls[1..])
  }

  // ---- What every call keeps ----

  /** What is presented is the current frame, and a session with frames always has a current one. */
  ghost predicate Coherent(s: Session) {
    && 0 <= s.generation <= I64_MAX
    && (s.frameCount > 0 <==> s.current.Some?)
    && (s.current.Some? ==> s.current.value < s.frameCount && s.generation >= 1)
    && (s.presented.Some? ==> s.current == Some(s.presented.value.frame))
  }

  lemma {:induction false} ReachableIsCoherent(s: Session, calls: seq<Call>)
    requires Coherent(s)
    ensures Coherent(RunFrom(s, calls))
    ensures RunFrom(s, calls).generation >= s.generation
    decreases |calls|
  {
    if calls != [] {
      ReachableIsCoherent(Act(s, calls[0]).0, calls[1..]);
    }
  }

  /** Where each request leads, from any frame of a session with generations left. */
  lemma MovesAsAsked(s: Session, n: int)
    requires Coherent(s) && s.frameCount > 0 && s.generation < I64_MAX
    ensures var at := s.current.value;
      && Reaches(s, ToFrame(n), n, 0 <= n < s.frameCount, if n < 0 then InvalidRequest else FrameNotIndexed)
      && Reaches(s, ByStep(1), at + 1, at + 1 < s.frameCount, AtLastFrame)
      && Reaches(s, ByStep(-1), at - 1, at > 0, AtFirstFrame)
      && (n != 1 && n != -1 ==> Act(s, Go(ByStep(n))) == (s, Failed(InvalidRequest)))
      && (n >= 0 ==> Reaches(s, ToTimestamp(Some(n)), n, n < s.frameCount, FrameNotIndexed))
      && Act(s, Go(ToTimestamp(None))) == (s, Failed(TimestampNotIndexed))
  {
  }

  /** The request moves to `target` when it can, and otherwise fails and changes nothing. */
  ghost predicate Reaches(s: Session, request: Request, target: int, possible: bool, failure: Failure) {
    var (after, response) := Act(s, Go(request));
    if possible then target >= 0 && after.current == Some(target) && response == Moved(target)
    else after == s && response == Failed(failure)
  }

  /** A prepared frame is handed out, whole, to whoever asks with its generation and room for it. */
  lemma PreparedCanBeCopied(s: Session, pixels: seq<byte>, generation: int, capacity: nat)
    requires Coherent(s) && s.current.Some? && |pixels| <= 256 * 1024 * 1024
    ensures var (prepared, described) := Act(s, Prepare(Some(pixels)));
      && described == Described(s.generation, s.current.value, |pixels|)
      && Act(prepared, Copy(generation, capacity)) == (prepared,
           if generation <= 0 then Failed(InvalidRequest)
           else if generation != s.generation then Failed(StaleGeneration)
           else if capacity < |pixels| then Failed(BufferTooSmall)
           else Copied(pixels))
  {
  }

  /** A preparation that produced nothing, or too much, leaves what was presented. */
  lemma FailedPreparation(s: Session, decoded: Option<seq<byte>>)
    requires Coherent(s) && s.current.Some?
    requires decoded.Some? ==> |decoded.value| > 256 * 1024 * 1024
    ensures Act(s, Prepare(decoded)) == (s, Failed(if decoded.None? then PreparationFailed else FrameTooLarge))
  {
  }

  /** A session without frames refuses everything for that reason. */
  lemma EmptySession(request: Request, decoded: Option<seq<byte>>)
    ensures var s := Open(0);
      && Act(s, Prepare(decoded)) == (s, Failed(NoFrames))
      && Act(s, Go(request)).0 == s && Act(s, Go(request)).1.Failed?
  {
  }

  /** A move to a different frame with no generation left: the frame changes, the generation does not. */
  predicate Exhausts(s: Session, call: Call) {
    && call.Go? && s.generation == I64_MAX
    && var target := Resolve(s, call.request); target.Ok? && s.current != Some(target.value)
  }

  ghost predicate BelowExhaustion(s: Session, calls: seq<Call>)
    decreases |calls|
  {
    calls != [] ==> !Exhausts(s, calls[0]) && BelowExhaustion(Act(s, calls[0]).0, calls[1..])
  }

  /** The generation rises exactly when the current frame changes, except at an exhausted move. */
  lemma GenerationFollowsFrame(s: Session, call: Call)
    ensures var after := Act(s, call).0;
      && s.generation <= after.generation <= s.generation + 1
      && ((after.generation > s.generation <==> after.current != s.current) <==> !Exhausts(s, call))
  {
  }

  lemma {:induction false} GenerationNamesFrame(s: Session, calls: seq<Call>)
    requires Coherent(s) && BelowExhaustion(s, calls)
    ensures RunFrom(s, calls).generation == s.generation ==> RunFrom(s, calls).current == s.current
    decreases |calls|
  {
    if calls != [] {
      var next := Act(s, calls[0]).0;
      GenerationFollowsFrame(s, calls[0]);
      ReachableIsCoherent(s, [calls[0]]);
      ReachableIsCoherent(next, calls[1..]);
      GenerationNamesFrame(next, calls[1..]);
    }
  }

  /**
   * Over a whole run one generation names one frame, exactly when no move of the run is exhausted:
   * any two states with equal generations show the same frame.
   */
  lemma {:induction false} OneGenerationOneFrameIff(s: Session, calls: seq<Call>)
    requires Coherent(s)
    ensures BelowExhaustion(s, calls) <==>
      forall i, j | 0 <= i <= j <= |calls| && RunFrom(s, calls[..i]).generation == RunFrom(s, calls[..j]).generation ::
        RunFrom(s, calls[..i]).current == RunFrom(s, calls[..j]).current
  {
    if BelowExhaustion(s, calls) {
      forall i, j | 0 <= i <= j <= |calls| && RunFrom(s, calls[..i]).generation == RunFrom(s, calls[..j]).generation
        ensures RunFrom(s, calls[..i]).current == RunFrom(s, calls[..j]).current
      {
        var middle := calls[..j][i..];
        assert calls[..i] + middle == calls[..j];
        SplitRun(s, calls[..i], middle);
        assert calls == calls[..j] + calls[j..];
        BelowExhaustionOfPrefix(s, calls[..j], calls[j..]);
        BelowExhaustionOfPrefix(s, calls[..i], middle);
        ReachableIsCoherent(s, calls[..i]);
        GenerationNamesFrame(RunFrom(s, calls[..i]), middle);
      }
    } else {
      var i := FirstExhaustion(s, calls);
      var before, after := RunFrom(s, calls[..i]), RunFrom(s, calls[..i + 1]);
      assert calls[..i + 1] == calls[..i] + [calls[i]];
      SplitRun(s, calls[..i], [calls[i]]);
      GenerationFollowsFrame(before, calls[i]);
      assert before.generation == after.generation && before.current != after.current;
    }
  }

  lemma {:induction false} SplitRun(s: Session, first: seq<Call>, second: seq<Call>)
    ensures RunFrom(s, first + second) == RunFrom(RunFrom(s, first), second)
    decreases |first|
  {
    if first == [] {
      assert first + second == second;
    } else {
      assert (first + second)[1..] == first[1..] + second;
      SplitRun(Act(s, first[0]).0, first[1..], second);
    }
  }

  lemma {:induction false} BelowExhaustionOfPrefix(s: Session, first: seq<Call>, second: seq<Call>)
    requires BelowExhaustion(s, first + second)
    ensures BelowExhaustion(s, first) && BelowExhaustion(RunFrom(s, first), second)
    decreases |first|
  {
    if first == [] {
      assert first + second == second;
    } else {
      assert (first + second)[1..] == first[1..] + second;
      BelowExhaustionOfPrefix(Act(s, first[0]).0, first[1..], second);
    }
  }

  lemma {:induction false} FirstExhaustion(s: Session, calls: seq<Call>) returns (i: nat)
    requires !BelowExhaustion(s, calls)
    ensures i < |calls| && Exhausts(RunFrom(s, calls[..i]), calls[i])
    decreases |calls|
  {
    if Exhausts(s, calls[0]) {
      i := 0;
    } else {
      var rest := FirstExhaustion(Act(s, calls[0]).0, calls[1..]);
      i := rest + 1;
      assert calls[..i][1..] == calls[1..][..rest];
    }
  }

  /** Stepping to and fro over the first two frames. */
  function ToAndFro(n: nat): (calls: seq<Call>)
    ensures |calls| == n
  {
    if n == 0 then [] else ToAndFro(n - 1) + [Go(ByStep(if n % 2 == 1 then 1 else -1))]
  }

  /** Each of these steps starts a generation, so every generation can be reached from a fresh session. */
  lemma {:induction false} EveryGenerationIsReached(n: nat)
    requires n < I64_MAX
    ensures RunFrom(Open(2), ToAndFro(n)) == Session(2, Some(n % 2), n + 1, None)
    ensures BelowExhaustion(Open(2), ToAndFro(n))
  {
    if n == 0 {
      assert ToAndFro(0) == [];
    } else {
      hide Act, Exhausts, RunFrom, BelowExhaustion, Open;
      EveryGenerationIsReached(n - 1);
      var call := Go(ByStep(if n % 2 == 1 then 1 else -1));
      var before := RunFrom(Open(2), ToAndFro(n - 1));
      StepToOrFro(n);
      OneCall(before, call);
      SplitRun(Open(2), ToAndFro(n - 1), [call]);
      JoinBelowExhaustion(Open(2), ToAndFro(n - 1), [call]);
    }
  }

  lemma StepToOrFro(n: nat)
    requires 0 < n < I64_MAX
    ensures var s := Session(2, Some((n - 1) % 2), n, None); var call := Go(ByStep(if n % 2 == 1 then 1 else -1));
      Act(s, call).0 == Session(2, Some(n % 2), n + 1, None) && !Exhausts(s, call)
  {
  }

  lemma OneCall(s: Session, call: Call)
    ensures RunFrom(s, [call]) == Act(s, call).0
    ensures BelowExhaustion(s, [call]) <==> !Exhausts(s, call)
  {
    hide Act, Exhausts;
    assert [call][1..] == [];
  }

  lemma {:induction false} JoinBelowExhaustion(s: Session, first: seq<Call>, second: seq<Call>)
    requires BelowExhaustion(s, first) && BelowExhaustion(RunFrom(s, first), second)
    ensures BelowExhaustion(s, first + second)
    decreases |first|
  {
    if first == [] {
      assert first + second == second;
    } else {
      assert (first + second)[1..] == first[1..] + second;
      JoinBelowExhaustion(Act(s, first[0]).0, first[1..], second);
    }
  }

  /** The failing run: the last generation names both frames, because the exhausted step still moves. */
  lemma LastGenerationNamesTwoFrames()
    ensures var calls := ToAndFro(I64_MAX - 1); var s := RunFrom(Open(2), calls);
      var call := Go(ByStep(if s.current == Some(0) then 1 else -1));
      && s.generation == I64_MAX && Exhausts(s, call)
      && Act(s, call).0.generation == s.generation && Act(s, call).0.current != s.current
      && Act(s, call).1 == Failed(GenerationsExhausted)
  {
    EveryGenerationIsReached(I64_MAX - 1);
  }

  // ---- What a copy delivers ----

  /** The last successful preparation of a run that the session has not moved away from since. */
  ghost function LastDescribed(s: Session, calls: seq<Call>): Option<(Response, seq<byte>)> {
    if calls == [] then
      None
    else
      var before := RunFrom(s, calls[..|calls| - 1]);
      var last := calls[|calls| - 1];
      var response := Act(before, last).1;
      if response.Described? then Some((response, last.decoded.value)) else LastDescribed(s, calls[..|calls| - 1])
  }

  lemma {:induction false} PresentedWasDescribed(frameCount: u64, calls: seq<Call>)
    ensures var s := RunFrom(Open(frameCount), calls);
      s.presented.Some? ==>
        LastDescribed(Open(frameCount), calls) ==
          Some((Described(s.generation, s.presented.value.frame, |s.presented.value.pixels|), s.presented.value.pixels))
  {
    if calls != [] {
      var earlier, last := calls[..|calls| - 1], calls[|calls| - 1];
      PresentedWasDescribed(frameCount, earlier);
      assert calls == earlier + [last];
      SplitRun(Open(frameCount), earlier, [last]);
    }
  }

  /**
   * A successful copy delivers exactly the bytes of the run's last successful preparation; that
   * preparation was described with the generation asked for and with the frame shown now.
   */
  lemma CopyDeliversLastPreparation(frameCount: u64, calls: seq<Call>, generation: int, capacity: nat)
    ensures var s := RunFrom(Open(frameCount), calls);
      var response := Act(s, Copy(generation, capacity)).1;
      response.Copied? ==>
        && s.current.Some?
        && LastDescribed(Open(frameCount), calls) ==
             Some((Described(generation, s.current.value, |response.pixels|), response.pixels))
  {
    PresentedWasDescribed(frameCount, calls);
  }

  /**
   * A caller that was told (generation, frame) by a preparation, and later copies successfully
   * under that generation, gets pixels prepared for that frame, whatever happened in between.
   */
  lemma CopyDeliversDescribedFrame(s: Session, decoded: seq<byte>, between: seq<Call>, capacity: nat)
    requires Coherent(s)
    requires var described := Act(s, Prepare(Some(decoded)));
      described.1.Described? && BelowExhaustion(described.0, between)
    ensures var (begun, described) := Act(s, Prepare(Some(decoded)));
      var later := RunFrom(begun, between);
      Act(later, Copy(described.generation, capacity)).1.Copied? ==>
        later.presented.Some? && later.presented.value.frame == described.frame
  {
    var begun := Act(s, Prepare(Some(decoded))).0;
    ReachableIsCoherent(s, [Prepare(Some(decoded))]);
    ReachableIsCoherent(begun, between);
    GenerationNamesFrame(begun, between);
  }

  predicate RefusedAfter(s: Session, later: seq<Call>, generation: int, capacity: nat) {
    Act(RunFrom(s, later), Copy(generation, capacity)).1 == Failed(StaleGeneration)
  }

  /**
   * Once the session has moved to another frame, every generation up to the one left behind is
   * refused for good, exactly when that generation was not the last one: at exhaustion a later
   * preparation makes the old generation valid again, now naming a different frame.
   */
  lemma OldGenerationRefusedIff(s: Session, request: Request)
    requires Coherent(s) && s.generation >= 1 && Act(s, Go(request)).0.current != s.current
    ensures s.generation < I64_MAX <==>
      forall later: seq<Call>, generation: int, capacity: nat | 1 <= generation <= s.generation ::
        RefusedAfter(Act(s, Go(request)).0, later, generation, capacity)
  {
    var moved := Act(s, Go(request)).0;
    if s.generation < I64_MAX {
      forall later: seq<Call>, generation: int, capacity: nat | 1 <= generation <= s.generation
        ensures RefusedAfter(moved, later, generation, capacity)
      {
        ReachableIsCoherent(s, [Go(request)]);
        ReachableIsCoherent(moved, later);
      }
    } else {
      var later := [Prepare(Some([]))];
      var prepared := Act(moved, Prepare(Some([]))).0;
      assert later[1..] == [] && RunFrom(moved, later) == prepared;
      assert moved.current.Some? && prepared.presented == Some(Presented(moved.current.value, []));
      assert Act(RunFrom(moved, later), Copy(s.generation, 0)).1 == Copied([]);
      assert !RefusedAfter(Act(s, Go(request)).0, later, s.generation, 0);
    }
  }

  // ---- The session in place ----

  class NavigationSession {
    const frameCount: u64
    var current: Option<nat>
    var generation: int
    var presented: Option<Presented>

    ghost function State(): Session
      reads this
    {
      Session(frameCount, current, generation, presented)
    }

    constructor (frameCount: u64)
      ensures this.frameCount == frameCount && State() == Open(frameCount) && Coherent(State())
    {
      this.frameCount := frameCount;
      current := if frameCount > 0 then Some(0) else None;
      generation := if frameCount > 0 then 1 else 0;
      presented := None;
    }

    method Navigate(request: Request) returns (r: Response)
      requires Coherent(State())
      modifies this
      ensures Coherent(State())
      ensures (State(), r) == Act(old(State()), Go(request))
      ensures r.Moved? <==> Resolve(old(State()), request).Ok? && !Exhausts(old(State()), Go(request))
    {
      var target := Resolve(Session(frameCount, current, generation, presented), request);
      if target.Err? {
        return Failed(target.error);
      }
      if current != Some(target.value) {
        current := Some(target.value);
        presented := None;
        if generation == I64_MAX {
          return Failed(GenerationsExhausted);
        }
        generation := generation + 1;
      }
      return Moved(target.value);
    }

    method PrepareCurrentFrame(decoded: Option<seq<byte>>) returns (r: Response)
      requires Coherent(State())
      modifies this
      ensures Coherent(State())
      ensures (State(), r) == Act(old(State()), Prepare(decoded))
      ensures current == old(current) && generation == old(generation)
    {
      if current.None? {
        return Failed(NoFrames);
      }
      if decoded.None? {
        return Failed(PreparationFailed);
      }
      if |decoded.value| > MAX_PRESENTATION_RGBA_BYTES {
        return Failed(FrameTooLarge);
      }
      presented := Some(Presented(current.value, decoded.value));
      return Described(generation, current.value, |decoded.value|);
    }

    method CopyPreparedFrame(requested: int, destination: array<byte>) returns (r: Response)
      modifies destination
      ensures r == Act(State(), Copy(requested, destination.Length)).1
      ensures r.Copied? ==>
        |r.pixels| <= destination.Length && destination[..] == r.pixels + old(destination[..])[|r.pixels|..]
      ensures !r.Copied? ==> destination[..] == old(destination[..])
    {
      if requested <= 0 {
        return Failed(InvalidRequest);
      }
      if requested != generation {
        return Failed(StaleGeneration);
      }
      if presented.None? {
        return Failed(NoPreparedFrame);
      }
      if current != Some(presented.value.frame) {
        return Failed(StaleGeneration);
      }
      var pixels := presented.value.pixels;
      if destination.Length < |pixels| {
        return Failed(BufferTooSmall);
      }
      forall i | 0 <= i < |pixels| {
        destination[i] := pixels[i];
      }
      return Copied(pixels);
    }
  }
}
