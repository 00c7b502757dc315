/**
 * The send/receive loop between demuxer and codec. Both are environments: each call has whatever
 * answer they choose. Cancellation polls and demuxer reads come from finite tapes (an exhausted
 * tape answers "cancelled" or "read error"), which covers every call that returns. Every read, every
 * send and every frame asked for is logged, with its answer, by the one method that makes it.
 */
module PacketPump {
  import opened Common

  datatype Packet = Packet(stream: int, payload: nat)

  datatype ReadAnswer = GotPacket(packet: Packet) | ReadEof | ReadExit | ReadMalformed | ReadIo

  datatype ReceiveAnswer = ReceivedFrame | ReceiveEof | ReceiveAgain | ReceiveMalformed | ReceiveError

  datatype SendAnswer = SendAccepted | SendAgain | SendEof | SendMalformed | SendError

  datatype Failure = Cancelled | Malformed | DecoderFailure | IoFailure | SeekUnavailable

  datatype NextResult = Frame(epoch: u64, index: u64) | EndOfStream | Failed(failure: Failure)

  datatype Feed = Fed | Drained | FeedFailed(failure: Failure)

  /** One call of the codec's send function: a packet, or the flush, and what the codec answered. */
  datatype Sent = Sent(what: Option<Packet>, answer: SendAnswer)

  /** Where the codec stands: it put off what it was last sent, it was told to drain, or neither. */
  datatype CodecState = Open | Full | Draining

  /** One request for a frame: the codec's answer, and where it stood. */
  datatype Received = Received(answer: ReceiveAnswer, state: CodecState)

  datatype SeekAnswer = Seeked | SeekExit | SeekRefused

  /** How much of its environment a session has used. */
  datatype Marks = Marks(polled: nat, demuxed: nat, received: nat, sent: nat)

  /** What draining a session goes by: polls and codec calls made, things still to hand over, a full codec. */
  datatype Account = Account(polled: nat, needed: nat, sent: nat, received: nat, full: bool)

  datatype Report = Report(epoch: u64, index: u64)

  // ---- Packet accounting ----

  /** The packets of the selected stream among some demuxer answers, in demux order. */
  function Selected(answers: seq<ReadAnswer>, stream: int): seq<Packet> {
    if answers == [] then []
    else
      var last := answers[|answers| - 1];
      Selected(answers[..|answers| - 1], stream)
      + (if last.GotPacket? && last.packet.stream == stream then [last.packet] else [])
  }

  /** The packets the codec has answered for good, in order: it took or refused them. */
  function Settled(log: seq<Sent>): seq<Packet> {
    if log == [] then []
    else
      var last := log[|log| - 1];
      Settled(log[..|log| - 1]) + (if last.what.Some? && last.answer != SendAgain then [last.what.value] else [])
  }

  /** Step by step: of the reads the packets of the stream, of the sends those answered for good, or taken. */
  lemma AccountsStep(answers: seq<ReadAnswer>, answer: ReadAnswer, stream: int, log: seq<Sent>, sent: Sent)
    ensures Selected([], stream) == [] && Settled([]) == [] && AcceptedPackets([]) == []
    ensures Selected(answers + [answer], stream) == Selected(answers, stream)
      + (if answer.GotPacket? && answer.packet.stream == stream then [answer.packet] else [])
    ensures Settled(log + [sent]) == Settled(log)
      + (if sent.what.Some? && sent.answer != SendAgain then [sent.what.value] else [])
    ensures AcceptedPackets(log + [sent]) == AcceptedPackets(log)
      + (if sent.what.Some? && sent.answer == SendAccepted then [sent.what.value] else [])
  {
    assert (answers + [answer])[..|answers|] == answers && (log + [sent])[..|log|] == log;
  }

  /** The packets the codec took, in the order it took them. */
  function AcceptedPackets(log: seq<Sent>): seq<Packet> {
    if log == [] then []
    else
      var last := log[|log| - 1];
      AcceptedPackets(log[..|log| - 1])
      + (if last.what.Some? && last.answer == SendAccepted then [last.what.value] else [])
  }

  /** Every packet handed over was taken or put off, none refused. */
  ghost predicate AllAccepted(log: seq<Sent>) {
    forall i | 0 <= i < |log| && log[i].what.Some? :: log[i].answer == SendAccepted || log[i].answer == SendAgain
  }

  predicate TakesFlush(answer: SendAnswer) {
    answer == SendAccepted || answer == SendEof
  }

  ghost predicate FlushTaken(log: seq<Sent>) {
    exists i | 0 <= i < |log| :: log[i].what.None? && TakesFlush(log[i].answer)
  }

  ghost predicate FlushTried(log: seq<Sent>) {
    exists i | 0 <= i < |log| :: log[i].what.None?
  }

  /** No packet follows a flush. */
  ghost predicate FlushLast(log: seq<Sent>) {
    forall i, j | 0 <= i < j < |log| && log[i].what.None? :: log[j].what.None?
  }

  function Waiting(pending: Option<Packet>): seq<Packet> {
    if pending.Some? then [pending.value] else []
  }

  predicate EndsInput(answers: seq<ReadAnswer>) {
    answers != [] && answers[|answers| - 1] == ReadEof
  }

  /**
   * Since the last seek every selected packet was settled exactly once and in demux order, and at
   * most one still waits; a flush was tried only with the input exhausted and nothing waiting, and
   * the flags say so.
   */
  ghost predicate Accounted(
    answers: seq<ReadAnswer>, stream: int, log: seq<Sent>, pending: Option<Packet>, demuxEof: bool, flushSent: bool)
  {
    && Settled(log) + Waiting(pending) == Selected(answers, stream)
    && (demuxEof <==> EndsInput(answers))
    && (flushSent <==> FlushTaken(log))
    && (FlushTried(log) ==> demuxEof && pending == None)
    && FlushLast(log)
  }

  /**
   * Between seeks, until the codec refuses a packet: what it took, plus the packet it put off, is
   * exactly what was demuxed, in order; once it took the flush, that is the whole input.
   */
  lemma AcceptedInDemuxOrder(
    answers: seq<ReadAnswer>, stream: int, log: seq<Sent>, pending: Option<Packet>, demuxEof: bool, flushSent: bool)
    requires Accounted(answers, stream, log, pending, demuxEof, flushSent) && AllAccepted(log)
    ensures AcceptedPackets(log) + Waiting(pending) == Selected(answers, stream)
    ensures FlushTried(log) ==> EndsInput(answers) && AcceptedPackets(log) == Selected(answers, stream)
  {
    NothingRefused(log);
  }

  lemma {:induction false} NothingRefused(log: seq<Sent>)
    requires AllAccepted(log)
    ensures AcceptedPackets(log) == Settled(log)
  {
    if log != [] {
      var n := |log| - 1;
      assert log[n].what.Some? ==> log[n].answer == SendAccepted || log[n].answer == SendAgain;
      NothingRefused(log[..n]);
    }
  }

  lemma FlushedIsAll(
    answers: seq<ReadAnswer>, stream: int, log: seq<Sent>, pending: Option<Packet>, demuxEof: bool)
    requires Accounted(answers, stream, log, pending, demuxEof, true)
    ensures EndsInput(answers) && (AllAccepted(log) ==> AcceptedPackets(log) == Selected(answers, stream))
  {
    assert FlushTried(log);
    if AllAccepted(log) {
      AcceptedInDemuxOrder(answers, stream, log, pending, demuxEof, true);
    }
  }

  /** Whenever a flush was tried, everything ever demuxed had been settled before it. */
  lemma FlushComesLast(
    answers: seq<ReadAnswer>, stream: int, log: seq<Sent>, pending: Option<Packet>, demuxEof: bool, flushSent: bool,
    i: nat)
    requires Accounted(answers, stream, log, pending, demuxEof, flushSent) && i < |log| && log[i].what.None?
    ensures Settled(log[..i]) == Selected(answers, stream)
  {
    OnlyFlushesAfter(log, i, |log|);
    assert log[..|log|] == log;
  }

  lemma {:induction false} OnlyFlushesAfter(log: seq<Sent>, i: nat, n: nat)
    requires FlushLast(log) && i < |log| && log[i].what.None? && i <= n <= |log|
    ensures Settled(log[..n]) == Settled(log[..i])
    decreases n
  {
    if i < n {
      OnlyFlushesAfter(log, i, n - 1);
      assert log[..n][..n - 1] == log[..n - 1];
    }
  }

  lemma NothingReadYet(stream: int)
    ensures Accounted([], stream, [], None, false, false)
  {
  }

  lemma ReadAccounted(answers: seq<ReadAnswer>, answer: ReadAnswer, stream: int, log: seq<Sent>)
    requires Accounted(answers, stream, log, None, false, false)
    ensures var pending := if answer.GotPacket? && answer.packet.stream == stream then Some(answer.packet) else None;
      Accounted(answers + [answer], stream, log, pending, answer == ReadEof, false)
  {
    hide FlushTaken, FlushTried, FlushLast;
    var longer := answers + [answer];
    assert longer[..|longer| - 1] == answers && longer[|answers|] == answer;
  }

  lemma SendAccounted(
    answers: seq<ReadAnswer>, stream: int, log: seq<Sent>, packet: Packet, demuxEof: bool, answer: SendAnswer)
    requires Accounted(answers, stream, log, Some(packet), demuxEof, false)
    ensures Accounted(answers, stream, log + [Sent(Some(packet), answer)],
                      if answer == SendAgain then Some(packet) else None, demuxEof, false)
  {
    hide Selected, EndsInput, FlushTaken, FlushTried, FlushLast;
    var longer := log + [Sent(Some(packet), answer)];
    assert longer[..|longer| - 1] == log;
    PacketAfterPackets(log, Sent(Some(packet), answer));
    NoFlush(longer);
  }

  lemma PacketAfterPackets(log: seq<Sent>, sent: Sent)
    requires !FlushTried(log) && sent.what.Some?
    ensures !FlushTried(log + [sent])
  {
  }

  lemma NoFlush(log: seq<Sent>)
    requires !FlushTried(log)
    ensures !FlushTaken(log) && FlushLast(log)
  {
  }

  lemma FlushAccounted(answers: seq<ReadAnswer>, stream: int, log: seq<Sent>, answer: SendAnswer)
    requires Accounted(answers, stream, log, None, true, false)
    ensures Accounted(answers, stream, log + [Sent(None, answer)], None, true, TakesFlush(answer))
  {
    hide Selected, EndsInput;
    var longer := log + [Sent(None, answer)];
    assert longer[..|longer| - 1] == log;
    assert forall i | 0 <= i < |log| :: longer[i] == log[i];
    assert longer[|log|] == Sent(None, answer);
    if FlushTaken(longer) {
      var i :| 0 <= i < |longer| && longer[i].what.None? && TakesFlush(longer[i].answer);
      assert i < |log| ==> FlushTaken(log);
    }
  }

  lemma EmptyTail<T>(log: seq<T>)
    ensures log[|log|..] == []
  {
  }

  lemma TailGrows<T>(log: seq<T>, from: nat, last: T)
    requires from <= |log|
    ensures (log + [last])[from..] == log[from..] + [last]
  {
  }

  /** Nothing of the shorter log was changed. */
  ghost predicate Extends(shorter: seq<Sent>, longer: seq<Sent>) {
    shorter <= longer
  }

  lemma LogGrew(log: seq<Sent>, sent: Sent)
    ensures Extends(log, log + [sent])
    ensures AllAccepted(log) && (sent.what.Some? ==> sent.answer == SendAccepted || sent.answer == SendAgain) ==>
      AllAccepted(log + [sent])
  {
  }

  lemma SameExtends(log: seq<Sent>)
    ensures Extends(log, log)
  {
  }

  lemma ExtendsOn(a: seq<Sent>, b: seq<Sent>, c: seq<Sent>)
    requires Extends(a, b) && Extends(b, c)
    ensures Extends(a, c)
  {
  }

  // ---- What a failure says ----

  function ReadFailure(answer: ReadAnswer): Option<Failure> {
    match answer
    case GotPacket(_) => None
    case ReadEof => None
    case ReadExit => Some(Cancelled)
    case ReadMalformed => Some(Malformed)
    case ReadIo => Some(IoFailure)
  }

  /** Asking for more input is a failure of the codec once it was told that there is none. */
  function ReceiveFailure(received: Received): Option<Failure> {
    match received.answer
    case ReceivedFrame => None
    case ReceiveEof => None
    case ReceiveAgain => if received.state == Draining then Some(DecoderFailure) else None
    case ReceiveMalformed => Some(Malformed)
    case ReceiveError => Some(DecoderFailure)
  }

  function SendFailure(sent: Sent): Option<Failure> {
    match sent.answer
    case SendAccepted => None
    case SendAgain => None
    case SendEof => if sent.what.None? then None else Some(DecoderFailure)
    case SendMalformed => if sent.what.None? then Some(DecoderFailure) else Some(Malformed)
    case SendError => Some(DecoderFailure)
  }

  /** Which answers are failures, and of which kind. */
  lemma FailureKinds(packet: Packet)
    ensures ReadFailure(GotPacket(packet)) == ReadFailure(ReadEof) == None
    ensures ReadFailure(ReadExit) == Some(Cancelled) && ReadFailure(ReadMalformed) == Some(Malformed)
    ensures ReadFailure(ReadIo) == Some(IoFailure)
    ensures forall s :: ReceiveFailure(Received(ReceivedFrame, s)) == ReceiveFailure(Received(ReceiveEof, s)) == None
    ensures forall s :: ReceiveFailure(Received(ReceiveMalformed, s)) == Some(Malformed)
    ensures forall s :: ReceiveFailure(Received(ReceiveError, s)) == Some(DecoderFailure)
    ensures forall s ::
      ReceiveFailure(Received(ReceiveAgain, s)) == if s == Draining then Some(DecoderFailure) else None
    ensures forall w :: SendFailure(Sent(w, SendAccepted)) == SendFailure(Sent(w, SendAgain)) == None
    ensures forall w :: SendFailure(Sent(w, SendError)) == Some(DecoderFailure)
    ensures SendFailure(Sent(Some(packet), SendMalformed)) == Some(Malformed)
    ensures SendFailure(Sent(None, SendMalformed)) == Some(DecoderFailure)
    ensures SendFailure(Sent(Some(packet), SendEof)) == Some(DecoderFailure)
    ensures SendFailure(Sent(None, SendEof)) == None
  {
  }

  function FeedFailure(fed: Feed): Option<Failure> {
    if fed.FeedFailed? then Some(fed.failure) else None
  }

  function ResultFailure(result: NextResult): Option<Failure> {
    if result.Failed? then Some(result.failure) else None
  }

  predicate NotAfter(a: Marks, b: Marks) {
    a.polled <= b.polled && a.demuxed <= b.demuxed && a.received <= b.received && a.sent <= b.sent
  }

  function Left(end: nat, done: nat): nat {
    if done < end then end - done else 0
  }

  /** Bound on the turns of the outer loop that can still bring a frame or feed a willing codec. */
  function Remaining(a: Account, frames: nat, puts: nat): nat {
    a.needed + 2 * Left(puts, a.sent) + Left(frames, a.received) + (if a.full then 1 else 0)
  }

  /** One turn of the outer loop: it makes one poll, and hands something over or ends the call. */
  predicate OneTurn(a: Account, b: Account, ends: bool) {
    && b.polled + b.needed <= a.polled + a.needed + (if ends || b.full then 1 else 0)
    && (a.full ==> ends)
  }

  /** A call of any number of turns: at most one of them hands over something that is put off. */
  predicate OneCall(a: Account, b: Account, ends: bool) {
    b.polled + b.needed <= a.polled + a.needed + (if ends then 2 else if b.full then 1 else 0)
  }

  lemma NoTurnYet(a: Account)
    ensures OneCall(a, a, false)
  {
  }

  lemma TurnInCall(a: Account, b: Account, c: Account, ends: bool)
    requires OneCall(a, b, false) && OneTurn(b, c, ends)
    ensures OneCall(a, c, ends)
  {
  }

  // ---- Report order ----

  const WORD: int := 0x1_0000_0000_0000_0000

  /** A 64-bit counter after `n` increments from zero. */
  function Wrap(n: nat): u64 {
    n % WORD
  }

  function Increment(n: u64): u64 {
    if n == U64_MAX then 0 else n + 1
  }

  lemma WrapStep(n: nat)
    ensures Wrap(n + 1) == Increment(Wrap(n))
  {
  }

  predicate Precedes(a: Report, b: Report) {
    a.epoch < b.epoch || (a.epoch == b.epoch && a.index < b.index)
  }

  ghost predicate Rising(reports: seq<Report>) {
    forall i, j | 0 <= i < j < |reports| :: Precedes(reports[i], reports[j])
  }

  /** Where a report truly stands: completed seeks before it, and frames since the last of them. */
  datatype Place = Place(seeks: nat, frame: nat)

  predicate PlaceBefore(a: Place, b: Place) {
    a.seeks < b.seeks || (a.seeks == b.seeks && a.frame < b.frame)
  }

  /** The frame before `places[i]` in the same epoch was reported right before it. */
  predicate FollowsOn(places: seq<Place>, i: nat)
    requires i < |places|
  {
    places[i].frame > 0 ==> i > 0 && places[i - 1] == Place(places[i].seeks, places[i].frame - 1)
  }

  /** Reports are the wrapped places, which themselves rise without gaps up to `next`. */
  ghost predicate Placed(places: seq<Place>, reports: seq<Report>, next: Place) {
    && |places| == |reports|
    && (forall i | 0 <= i < |reports| :: reports[i] == Report(Wrap(places[i].seeks), Wrap(places[i].frame)))
    && (forall i, j | 0 <= i < j < |places| :: PlaceBefore(places[i], places[j]))
    && (forall i | 0 <= i < |places| :: PlaceBefore(places[i], next) && FollowsOn(places, i))
    && (next.frame > 0 ==> |places| > 0 && places[|places| - 1] == Place(next.seeks, next.frame - 1))
  }

  lemma ReportPlaced(places: seq<Place>, reports: seq<Report>, next: Place)
    requires Placed(places, reports, next)
    ensures Placed(places + [next], reports + [Report(Wrap(next.seeks), Wrap(next.frame))],
                   Place(next.seeks, next.frame + 1))
  {
    hide Wrap, FollowsOn;
    forall i | 0 <= i <= |places|
      ensures FollowsOn(places + [next], i)
    {
      AppendFollows(places, next, i);
    }
  }

  lemma AppendFollows(places: seq<Place>, next: Place, i: nat)
    requires i <= |places| && (i < |places| ==> FollowsOn(places, i))
    requires next.frame > 0 ==> |places| > 0 && places[|places| - 1] == Place(next.seeks, next.frame - 1)
    ensures FollowsOn(places + [next], i)
  {
  }

  lemma SeekPlaced(places: seq<Place>, reports: seq<Report>, next: Place)
    requires Placed(places, reports, next)
    ensures Placed(places, reports, Place(next.seeks + 1, 0))
  {
    hide Wrap;
  }

  lemma {:induction false} EarlierFrame(places: seq<Place>, reports: seq<Report>, next: Place, i: nat, back: nat)
    requires Placed(places, reports, next) && i < |places| && back <= places[i].frame
    ensures back <= i && places[i - back] == Place(places[i].seeks, places[i].frame - back)
    decreases back
  {
    hide Wrap;
    if back > 0 {
      EarlierFrame(places, reports, next, i, back - 1);
      assert FollowsOn(places, i - (back - 1));
    }
  }

  ghost predicate IndexInWord(places: seq<Place>) {
    forall i | 0 <= i < |places| :: places[i].frame < WORD
  }

  ghost predicate EpochInWord(places: seq<Place>) {
    forall i | 0 <= i < |places| :: places[i].seeks < WORD
  }

  lemma WrapInWord(n: nat)
    ensures n < WORD ==> Wrap(n) == n
    ensures n == WORD ==> Wrap(n) == 0
  {
  }

  lemma UnwrappedRise(places: seq<Place>, reports: seq<Report>, next: Place, i: nat, j: nat)
    requires Placed(places, reports, next) && i < j < |reports|
    requires places[i].seeks < WORD && places[j].seeks < WORD && places[i].frame < WORD && places[j].frame < WORD
    ensures Precedes(reports[i], reports[j])
  {
    hide Wrap;
    WrapInWord(places[i].seeks);
    WrapInWord(places[j].seeks);
    WrapInWord(places[i].frame);
    WrapInWord(places[j].frame);
    assert PlaceBefore(places[i], places[j]);
  }

  /** A frame index that wrapped repeats the report that opened its epoch. */
  lemma WrappedRepeats(places: seq<Place>, reports: seq<Report>, next: Place, i: nat)
    requires Placed(places, reports, next) && i < |places| && places[i].frame >= WORD
    ensures !Rising(reports)
  {
    hide Wrap, Placed;
    var first := places[i].frame;
    EarlierFrame(places, reports, next, i, first);
    EarlierFrame(places, reports, next, i, first - WORD);
    var a, b := i - first, i - (first - WORD);
    WrapInWord(0);
    WrapInWord(WORD);
    ReportAt(places, reports, next, a);
    ReportAt(places, reports, next, b);
    assert reports[a] == reports[b] && a < b && !Precedes(reports[a], reports[b]);
  }

  lemma ReportAt(places: seq<Place>, reports: seq<Report>, next: Place, i: nat)
    requires Placed(places, reports, next) && i < |places|
    ensures i < |reports| && reports[i] == Report(Wrap(places[i].seeks), Wrap(places[i].frame))
  {
    hide Wrap;
  }

  /** While no epoch has wrapped, reports rise strictly exactly while no frame index has wrapped. */
  lemma ReportsRiseIff(places: seq<Place>, reports: seq<Report>, next: Place)
    requires Placed(places, reports, next) && EpochInWord(places)
    ensures Rising(reports) <==> IndexInWord(places)
  {
    assert |places| == |reports|;
    hide Placed, Precedes;
    if IndexInWord(places) {
      forall i, j | 0 <= i < j < |reports|
        ensures Precedes(reports[i], reports[j])
      {
        UnwrappedRise(places, reports, next, i, j);
      }
    } else {
      var i :| 0 <= i < |places| && places[i].frame >= WORD;
      WrappedRepeats(places, reports, next, i);
    }
  }

  // ---- The session in place ----

  class Session {
    const stream: int
    const polls: seq<bool>
    const answers: seq<ReadAnswer>
    const receives: (nat, CodecState) -> ReceiveAnswer
    const sends: nat -> SendAnswer
    var pollCount: nat
    var readCount: nat
    var receiveCount: nat
    var sendCount: nat
    var packet: Packet
    var packetPending: bool
    var demuxEof: bool
    var flushSent: bool
    /** The codec put off the last thing it was sent and has not been asked for a frame since. */
    var full: bool
    var epoch: u64
    var frameIndex: u64
    /** Every read, send and request for a frame so far; how many reads and sends preceded the last seek. */
    ghost var read: seq<ReadAnswer>
    ghost var sent: seq<Sent>
    ghost var received: seq<Received>
    ghost var readsBefore: nat
    ghost var sentBefore: nat
    ghost var reports: seq<Report>
    ghost var places: seq<Place>
    ghost var next: Place
    ghost var calls: nat

    /** The environment's answer to the k-th poll and to the k-th read. */
    predicate PollAnswer(k: nat) {
      k >= |polls| || polls[k]
    }

    function ReadAnswerAt(k: nat): ReadAnswer {
      if k < |answers| then answers[k] else ReadIo
    }

    function Codec(): CodecState
      reads this`flushSent, this`full
    {
      if flushSent then Draining else if full then Full else Open
    }

    ghost function Pending(): Option<Packet>
      reads this`packetPending, this`packet
    {
      if packetPending then Some(packet) else None
    }

    /** The logs hold what the environment answered. */
    ghost predicate TrueReads(log: seq<ReadAnswer>) {
      forall i | 0 <= i < |log| :: log[i] == ReadAnswerAt(i)
    }

    ghost predicate TrueSends(log: seq<Sent>) {
      forall i | 0 <= i < |log| :: log[i].answer == sends(i)
    }

    ghost predicate TrueReceives(log: seq<Received>) {
      forall i | 0 <= i < |log| :: log[i].answer == receives(i, log[i].state)
    }

    ghost predicate Counted()
      reads this`readCount, this`receiveCount, this`sendCount, this`read, this`sent, this`received,
        this`readsBefore, this`sentBefore
    {
      && readsBefore <= |read| == readCount && sentBefore <= |sent| == sendCount && |received| == receiveCount
      && TrueReads(read) && TrueSends(sent) && TrueReceives(received)
    }

    /** What the demuxer delivered and what the codec was sent since the last seek. */
    ghost function Read(): seq<ReadAnswer>
      requires readsBefore <= |read|
      reads this`read, this`readsBefore
    {
      read[readsBefore..]
    }

    ghost function Log(): seq<Sent>
      requires sentBefore <= |sent|
      reads this`sent, this`sentBefore
    {
      sent[sentBefore..]
    }

    ghost predicate Kept()
      requires readsBefore <= |read| && sentBefore <= |sent|
      reads this`read, this`sent, this`readsBefore, this`sentBefore, this`packet, this`packetPending, this`demuxEof,
        this`flushSent
    {
      Accounted(Read(), stream, Log(), Pending(), demuxEof, flushSent)
    }

    ghost predicate PacketsValid()
      reads this`readCount, this`receiveCount, this`sendCount, this`read, this`sent, this`received,
        this`readsBefore, this`sentBefore, this`packet, this`packetPending, this`demuxEof, this`flushSent
    {
      Counted() && Kept()
    }

    /** The counters are the wrapped number of seeks and of frames since; fewer calls than 2^64 cannot wrap them. */
    ghost predicate ReportsValid()
      reads this`epoch, this`frameIndex, this`next, this`reports, this`places, this`calls
    {
      && epoch == Wrap(next.seeks) && frameIndex == Wrap(next.frame)
      && next.seeks + |reports| <= calls
      && Placed(places, reports, next)
    }

    ghost function Marked(): Marks
      reads this`pollCount, this`read, this`received, this`sent
    {
      Marks(pollCount, |read|, |received|, |sent|)
    }

    /** Since `from` nobody cancelled, and neither demuxer nor codec last answered with a failure. */
    ghost predicate Clean(from: Marks)
      reads this`pollCount, this`read, this`received, this`sent
    {
      && (pollCount > from.polled ==> !PollAnswer(pollCount - 1))
      && (|read| > from.demuxed ==> ReadFailure(read[|read| - 1]) == None)
      && (|received| > from.received ==> ReceiveFailure(received[|received| - 1]) == None)
      && (|sent| > from.sent ==> SendFailure(sent[|sent| - 1]) == None)
    }

    /** Something answered since `from` stands for this failure: a poll, or an answer of demuxer or codec. */
    ghost predicate Explained(failure: Failure, from: Marks)
      reads this`pollCount, this`read, this`received, this`sent
    {
      || (pollCount > from.polled && PollAnswer(pollCount - 1) && failure == Cancelled)
      || (|read| > from.demuxed && ReadFailure(read[|read| - 1]) == Some(failure)
          && pollCount > from.polled && !PollAnswer(pollCount - 1))
      || (|received| > from.received && ReceiveFailure(received[|received| - 1]) == Some(failure))
      || (|sent| > from.sent && SendFailure(sent[|sent| - 1]) == Some(failure))
    }

    /** A failure is explained by what was answered since `from`, and without one all of it was clean. */
    ghost predicate Judged(failure: Option<Failure>, from: Marks)
      reads this`pollCount, this`read, this`received, this`sent
    {
      (failure == None <==> Clean(from)) && (failure.Some? ==> Explained(failure.value, from))
    }

    lemma NothingYet()
      ensures Judged(None, Marked())
    {
    }

    twostate lemma JudgedOn(start: Marks)
      requires old(Judged(None, start)) && NotAfter(start, old(Marked())) && NotAfter(old(Marked()), Marked())
      requires |read| == |old(read)| ==> read == old(read)
      requires |received| == |old(received)| ==> received == old(received)
      requires |sent| == |old(sent)| ==> sent == old(sent)
      ensures forall failure :: Judged(failure, old(Marked())) ==> Judged(failure, start)
    {
    }

    /** The last send decides, after a read that brought a packet or no read at all. */
    lemma SendDecides(from: Marks, fed: Feed)
      requires pollCount == from.polled && |received| == from.received && |sent| > from.sent
      requires |read| > from.demuxed ==> ReadFailure(read[|read| - 1]) == None
      requires FeedFailure(fed) == SendFailure(sent[|sent| - 1])
      ensures Judged(FeedFailure(fed), from)
    {
    }

    lemma ReadDecides(from: Marks, failure: Option<Failure>)
      requires |received| == from.received && |sent| == from.sent && |read| > from.demuxed
      requires var read := ReadFailure(read[|read| - 1]);
        if read.None? then failure == None && pollCount == from.polled
        else pollCount > from.polled && failure == if PollAnswer(pollCount - 1) then Some(Cancelled) else read
      ensures Judged(failure, from)
    {
    }

    lemma PollDecides(from: Marks)
      requires pollCount > from.polled && PollAnswer(pollCount - 1)
      ensures Judged(Some(Cancelled), from)
    {
    }

    lemma ReceiveDecides(from: Marks, failure: Option<Failure>)
      requires |read| == from.demuxed && |sent| == from.sent && |received| > from.received
      requires pollCount > from.polled && !PollAnswer(pollCount - 1)
      requires failure == ReceiveFailure(received[|received| - 1])
      ensures Judged(failure, from)
    {
    }

    /** The input ahead is packets up to its end. */
    ghost predicate InputEnds()
      reads this`demuxEof, this`readCount
    {
      demuxEof || EndsFrom(readCount)
    }

    ghost predicate EndsFrom(from: nat) {
      exists e | from <= e < |answers| :: answers[e] == ReadEof && forall k | from <= k < e :: answers[k].GotPacket?
    }

    lemma EndsFromNext(from: nat)
      requires EndsFrom(from)
      ensures from < |answers| && (answers[from] == ReadEof || (answers[from].GotPacket? && EndsFrom(from + 1)))
    {
      var e :| from <= e < |answers| && answers[e] == ReadEof && forall k | from <= k < e :: answers[k].GotPacket?;
      assert from == e || from + 1 <= e;
    }

    /**
     * From now on the codec takes whatever it is sent or puts it off, has a frame whenever it put something
     * off, asks for more only before the flush and ends only after it.
     */
    ghost predicate Accepting(sendsDone: nat, receivesDone: nat) {
      && (forall k: nat | sendsDone <= k :: sends(k) == SendAccepted || sends(k) == SendAgain)
      && (forall k: nat | receivesDone <= k :: receives(k, Open).ReceivedFrame? || receives(k, Open).ReceiveAgain?)
      && (forall k: nat | receivesDone <= k :: receives(k, Full).ReceivedFrame?)
      && (forall k: nat | receivesDone <= k ::
            receives(k, Draining).ReceivedFrame? || receives(k, Draining).ReceiveEof?)
    }

    lemma AcceptsNext(sendsDone: nat, receivesDone: nat)
      requires Accepting(sendsDone, receivesDone)
      ensures sends(sendsDone) == SendAccepted || sends(sendsDone) == SendAgain
      ensures Accepting(sendsDone + 1, receivesDone)
    {
    }

    lemma AnswersNext(sendsDone: nat, receivesDone: nat, state: CodecState)
      requires Accepting(sendsDone, receivesDone)
      ensures ReceiveFailure(Received(receives(receivesDone, state), state)) == None
      ensures receives(receivesDone, state) == ReceiveEof ==> state == Draining
      ensures receives(receivesDone, state) == ReceiveAgain ==> state == Open
      ensures Accepting(sendsDone, receivesDone + 1)
    {
    }

    ghost predicate Willing()
      reads this`demuxEof, this`readCount, this`sendCount, this`receiveCount
    {
      InputEnds() && Accepting(sendCount, receiveCount)
    }

    /** How many more things can be handed to a willing codec. */
    ghost function Needed(): nat
      reads this`readCount, this`packetPending, this`flushSent
    {
      (if packetPending then 1 else 0) + (if readCount < |answers| then |answers| - readCount else 0)
      + (if flushSent then 0 else 1)
    }

    /** The next poll and the `n` after it are not cancelled. */
    ghost predicate QuietFor(n: nat)
      reads this`pollCount
    {
      forall k | pollCount <= k <= pollCount + n :: !PollAnswer(k)
    }

    /**
     * From request `frames` on the codec has a frame only when it put something off, and from send `puts`
     * on it puts nothing off.
     */
    ghost predicate Settles(frames: nat, puts: nat) {
      && (forall k: nat, state: CodecState | frames <= k && state != Full :: receives(k, state) != ReceivedFrame)
      && (forall k: nat | puts <= k :: sends(k) != SendAgain)
    }

    ghost function Standing(): Account
      reads this`pollCount, this`readCount, this`packetPending, this`flushSent, this`sendCount, this`receiveCount,
        this`full
    {
      Account(pollCount, Needed(), sendCount, receiveCount, full)
    }

    /** Between two accounts at most `most` polls were made beyond what the remaining work fell by. */
    ghost predicate Spends(a: Account, b: Account, most: int) {
      forall frames, puts | Settles(frames, puts) ::
        b.polled + Remaining(b, frames, puts) <= a.polled + Remaining(a, frames, puts) + most
    }

    lemma SpendsOn(a: Account, b: Account, c: Account, first: int, second: int)
      requires Spends(a, b, first) && Spends(b, c, second)
      ensures Spends(a, c, first + second)
    {
      hide Settles, Remaining;
    }

    lemma NothingSpent(a: Account)
      ensures Spends(a, a, 0)
    {
    }

    lemma SpendsMore(a: Account, b: Account, most: int, more: int)
      requires Spends(a, b, most) && most <= more
      ensures Spends(a, b, more)
    {
    }

    lemma PollSpends(a: Account)
      ensures Spends(a, a.(polled := a.polled + 1), 1)
    {
    }

    lemma ReadSpends(a: Account, b: Account)
      requires b == a.(needed := b.needed) && b.needed < a.needed
      ensures Spends(a, b, -1)
    {
    }

    lemma SendSpends(a: Account, b: Account)
      requires b == a.(needed := b.needed, sent := a.sent + 1, full := sends(a.sent) == SendAgain)
      requires b.needed + (if b.full then 0 else 1) <= a.needed
      ensures Spends(a, b, -1)
    {
    }

    /** A frame is paid for: by a request that could still bring one, or by what the codec had put off. */
    lemma ReceiveSpends(a: Account, b: Account, state: CodecState)
      requires b == a.(polled := a.polled + 1, received := a.received + 1, full := false)
      requires state == Full ==> a.full
      ensures Spends(a, b, if receives(a.received, state) == ReceivedFrame then 0 else 1)
    {
    }

    /** Clean input, willing and settling codec, and no cancellation for as long as draining can take. */
    ghost predicate Drainable(frames: nat, puts: nat)
      reads this`demuxEof, this`readCount, this`sendCount, this`receiveCount, this`pollCount, this`packetPending,
        this`flushSent, this`full
    {
      Willing() && Settles(frames, puts) && QuietFor(Remaining(Standing(), frames, puts))
    }

    constructor (stream: int, polls: seq<bool>, answers: seq<ReadAnswer>,
                 receives: (nat, CodecState) -> ReceiveAnswer, sends: nat -> SendAnswer)
      ensures PacketsValid() && ReportsValid() && reports == [] && sent == [] && calls == 0
      ensures this.stream == stream && this.polls == polls && this.answers == answers
      ensures this.receives == receives && this.sends == sends
      ensures readsBefore == 0 && !demuxEof && readCount == 0 && Standing() == Account(0, |answers| + 1, 0, 0, false)
    {
      this.stream, this.polls, this.answers, this.receives, this.sends := stream, polls, answers, receives, sends;
      pollCount, readCount, receiveCount, sendCount := 0, 0, 0, 0;
      packet, packetPending, demuxEof, flushSent, full := Packet(stream, 0), false, false, false, false;
      epoch, frameIndex := 0, 0;
      read, sent, received, readsBefore, sentBefore := [], [], [], 0, 0;
      reports, places, next, calls := [], [], Place(0, 0), 0;
    }

    method IsCancelled() returns (cancelled: bool)
      modifies this`pollCount
      ensures cancelled == PollAnswer(old(pollCount)) && pollCount == old(pollCount) + 1
    {
      cancelled := pollCount >= |polls| || polls[pollCount];
      pollCount := pollCount + 1;
    }

    /** The only method that calls the codec's send function, and the only one that logs such a call. */
    method SendToCodec(what: Option<Packet>) returns (answer: SendAnswer)
      requires Counted()
      modifies this`sendCount, this`sent, this`full
      ensures Counted() && full == (answer == SendAgain)
      ensures answer == sends(old(sendCount)) && sendCount == old(sendCount) + 1
      ensures sent == old(sent) + [Sent(what, answer)]
    {
      hide TrueReads, TrueReceives;
      answer := sends(sendCount);
      sendCount := sendCount + 1;
      full := answer == SendAgain;
      sent := sent + [Sent(what, answer)];
    }

    /** The only method that asks the codec for a frame. */
    method ReceiveFromCodec() returns (answer: ReceiveAnswer)
      requires Counted()
      modifies this`receiveCount, this`received, this`full
      ensures Counted() && !full
      ensures answer == receives(old(receiveCount), old(Codec())) && receiveCount == old(receiveCount) + 1
      ensures received == old(received) + [Received(answer, old(Codec()))]
    {
      hide TrueReads, TrueSends;
      answer := receives(receiveCount, Codec());
      receiveCount := receiveCount + 1;
      received := received + [Received(answer, Codec())];
      full := false;
    }

    /** Hands over the current packet once; it stays pending exactly when the codec cannot take it yet. */
    method SubmitCurrentPacket() returns (r: Feed)
      requires Counted() && Accounted(Read(), stream, Log(), Some(packet), demuxEof, false)
      requires !flushSent
      modifies this`sendCount, this`sent, this`full, this`packetPending
      ensures full == (sends(old(sendCount)) == SendAgain)
      ensures PacketsValid() && sendCount == old(sendCount) + 1
      ensures sent == old(sent) + [Sent(Some(packet), sends(old(sendCount)))]
      ensures packetPending <==> sends(old(sendCount)) == SendAgain
      ensures FeedFailure(r) == SendFailure(sent[|sent| - 1])
      ensures Extends(old(Log()), Log()) && (AllAccepted(old(Log())) && !r.FeedFailed? ==> AllAccepted(Log()))
      ensures r == match sends(old(sendCount))
        case SendAccepted => Fed
        case SendAgain => Fed
        case SendMalformed => FeedFailed(Malformed)
        case _ => FeedFailed(DecoderFailure)
    {
      hide Accounted, TrueReads, TrueSends, TrueReceives, Extends, AllAccepted;
      ghost var log := Log();
      TailGrows(sent, sentBefore, Sent(Some(packet), sends(sendCount)));
      var answer := SendToCodec(Some(packet));
      SendAccounted(Read(), stream, log, packet, demuxEof, answer);
      LogGrew(log, Sent(Some(packet), answer));
      if answer == SendAccepted {
        packetPending := false;
        return Fed;
      }
      if answer == SendAgain {
        packetPending := true;
        return Fed;
      }
      packetPending := false;
      return FeedFailed(if answer == SendMalformed then Malformed else DecoderFailure);
    }

    /** With the input exhausted and nothing pending: ask the codec to drain. */
    method SendFlush() returns (r: Feed)
      requires PacketsValid() && demuxEof && !packetPending && !flushSent
      modifies this`sendCount, this`sent, this`full, this`flushSent
      ensures full == (sends(old(sendCount)) == SendAgain)
      ensures PacketsValid() && sendCount == old(sendCount) + 1
      ensures sent == old(sent) + [Sent(None, sends(old(sendCount)))]
      ensures flushSent <==> TakesFlush(sends(old(sendCount)))
      ensures FeedFailure(r) == SendFailure(sent[|sent| - 1])
      ensures Extends(old(Log()), Log()) && (AllAccepted(old(Log())) && !r.FeedFailed? ==> AllAccepted(Log()))
      ensures r == match sends(old(sendCount))
        case SendAccepted => Fed
        case SendAgain => Fed
        case SendEof => Drained
        case _ => FeedFailed(DecoderFailure)
    {
      hide Accounted, TrueReads, TrueSends, TrueReceives, Extends, AllAccepted;
      ghost var log := Log();
      TailGrows(sent, sentBefore, Sent(None, sends(sendCount)));
      var answer := SendToCodec(None);
      FlushAccounted(Read(), stream, log, answer);
      LogGrew(log, Sent(None, answer));
      match answer
      case SendAccepted => flushSent := true; return Fed;
      case SendAgain => return Fed;
      case SendEof => flushSent := true; return Drained;
      case _ => return FeedFailed(DecoderFailure);
    }

    /** One read: a selected packet becomes current, the end of input is marked. */
    method ReadPacket() returns (answer: ReadAnswer)
      requires PacketsValid() && !packetPending && !demuxEof
      modifies this`readCount, this`read, this`packet, this`demuxEof
      ensures Counted() && readCount == old(readCount) + 1
      ensures answer == ReadAnswerAt(old(readCount)) && read == old(read) + [answer]
      ensures demuxEof <==> answer == ReadEof
      ensures answer.GotPacket? ==> packet == answer.packet
      ensures answer.GotPacket? && answer.packet.stream == stream ==>
        Accounted(Read(), stream, Log(), Some(packet), demuxEof, false)
      ensures !(answer.GotPacket? && answer.packet.stream == stream) ==> PacketsValid()
    {
      hide Accounted, TrueReads, TrueSends, TrueReceives;
      NotFlushed(Read(), stream, Log(), Pending(), flushSent);
      answer := if readCount < |answers| then answers[readCount] else ReadIo;
      ReadAccounted(Read(), answer, stream, Log());
      TailGrows(read, readsBefore, answer);
      ReadLogged(answer);
      readCount := readCount + 1;
      read := read + [answer];
      if answer.GotPacket? {
        packet := answer.packet;
      } else if answer == ReadEof {
        demuxEof := true;
      }
    }

    lemma ReadLogged(answer: ReadAnswer)
      requires TrueReads(read) && answer == ReadAnswerAt(|read|)
      ensures TrueReads(read + [answer])
    {
    }

    /** The inner loop: one more thing for the codec, or the reason there is none. */
    method FeedCodec() returns (r: Feed)
      requires PacketsValid() && !flushSent
      modifies this`readCount, this`read, this`packet, this`demuxEof, this`sendCount, this`sent,
        this`full, this`packetPending, this`flushSent, this`pollCount
      ensures PacketsValid() && NotAfter(old(Marked()), Marked())
      ensures |read| == |old(read)| ==> read == old(read)
      ensures sent == old(sent) || |sent| == |old(sent)| + 1
      ensures !r.FeedFailed? ==> |sent| == |old(sent)| + 1
      ensures r == Drained ==> sent[|sent| - 1] == Sent(None, SendEof)
      ensures Extends(old(Log()), Log())
      ensures AllAccepted(old(Log())) && !r.FeedFailed? ==> AllAccepted(Log())
      ensures Judged(FeedFailure(r), old(Marked()))
      ensures old(Willing()) ==> r == Fed && Willing() && pollCount == old(pollCount)
      ensures old(Willing()) ==> Needed() + (if full then 0 else 1) <= old(Needed())
      ensures old(Willing()) ==> Spends(old(Standing()), Standing(), -1)
    {
      hide Kept, AllAccepted, TrueReads, TrueSends, TrueReceives, Judged, Willing, Needed, Extends, Spends, Standing;
      ghost var from, needed, standing := Marked(), Needed(), Standing();
      NothingYet();
      NothingSpent(standing);
      while true
        invariant PacketsValid() && !flushSent && sent == old(sent) && pollCount == old(pollCount)
        invariant NotAfter(from, Marked()) && Judged(None, from)
        invariant |read| == |old(read)| ==> read == old(read)
        invariant old(Willing()) ==> Willing() && Needed() <= needed && Spends(standing, Standing(), 0)
        decreases |answers| - readCount, !demuxEof
      {
        ghost var before := Standing();
        label turn:
        var fed := FeedTurn();
        JudgedOn@turn(from);
        if old(Willing()) {
          SpendsOn(standing, before, Standing(), 0, -1);
          SpendsMore(standing, Standing(), -1, 0);
        }
        if fed.Some? {
          return fed.value;
        }
      }
    }

    /** One turn of the inner loop; no result means that the read brought nothing for the codec. */
    method FeedTurn() returns (r: Option<Feed>)
      requires PacketsValid() && !flushSent
      modifies this`readCount, this`read, this`packet, this`demuxEof, this`sendCount, this`sent,
        this`full, this`packetPending, this`flushSent, this`pollCount
      ensures PacketsValid() && NotAfter(old(Marked()), Marked())
      ensures |read| == |old(read)| ==> read == old(read)
      ensures sent == old(sent) || |sent| == |old(sent)| + 1
      ensures r.None? ==>
        !flushSent && sent == old(sent) && pollCount == old(pollCount) && old(readCount) < readCount <= |answers|
      ensures r.Some? && !r.value.FeedFailed? ==> |sent| == |old(sent)| + 1
      ensures r == Some(Drained) ==> sent[|sent| - 1] == Sent(None, SendEof)
      ensures Extends(old(Log()), Log())
      ensures AllAccepted(old(Log())) && !(r.Some? && r.value.FeedFailed?) ==> AllAccepted(Log())
      ensures Judged(if r.Some? then FeedFailure(r.value) else None, old(Marked()))
      ensures old(Willing()) ==>
        (r.None? || r.value == Fed) && Willing() && pollCount == old(pollCount)
      ensures old(Willing()) ==> Needed() + (if r.Some? && full then 0 else 1) <= old(Needed())
      ensures old(Willing()) ==> Spends(old(Standing()), Standing(), -1)
    {
      hide Accounted, AllAccepted, TrueReads, TrueSends, TrueReceives, Accepting, EndsFrom, Judged, Extends, PollAnswer,
        Spends;
      if packetPending || demuxEof {
        ghost var from, standing, willing := Marked(), Standing(), Willing();
        if willing {
          AcceptsNext(sendCount, receiveCount);
        }
        var fed;
        if packetPending {
          fed := SubmitCurrentPacket();
        } else {
          fed := SendFlush();
        }
        SendDecides(from, fed);
        if willing {
          SendSpends(standing, Standing());
        }
        return Some(fed);
      }
      r := ReadTurn();
    }

    /** Nothing waits and the input goes on: one read, and the packet it brought, if any, is handed over. */
    method ReadTurn() returns (r: Option<Feed>)
      requires PacketsValid() && !flushSent && !packetPending && !demuxEof
      modifies this`readCount, this`read, this`packet, this`demuxEof, this`sendCount, this`sent,
        this`full, this`packetPending, this`flushSent, this`pollCount
      ensures PacketsValid() && NotAfter(old(Marked()), Marked())
      ensures |read| == |old(read)| ==> read == old(read)
      ensures sent == old(sent) || |sent| == |old(sent)| + 1
      ensures r.None? ==>
        !flushSent && sent == old(sent) && pollCount == old(pollCount) && old(readCount) < readCount <= |answers|
      ensures r.Some? && !r.value.FeedFailed? ==> |sent| == |old(sent)| + 1
      ensures r == Some(Drained) ==> sent[|sent| - 1] == Sent(None, SendEof)
      ensures Extends(old(Log()), Log())
      ensures AllAccepted(old(Log())) && !(r.Some? && r.value.FeedFailed?) ==> AllAccepted(Log())
      ensures Judged(if r.Some? then FeedFailure(r.value) else None, old(Marked()))
      ensures old(Willing()) ==>
        (r.None? || r.value == Fed) && Willing() && pollCount == old(pollCount)
      ensures old(Willing()) ==> Needed() + (if r.Some? && full then 0 else 1) <= old(Needed())
      ensures old(Willing()) ==> Spends(old(Standing()), Standing(), -1)
    {
      hide Accounted, AllAccepted, TrueReads, TrueSends, TrueReceives, Accepting, EndsFrom, Judged, Extends, PollAnswer,
        Spends, Log, Read, SendFailure, Remaining;
      ghost var from, standing, willing := Marked(), Standing(), Willing();
      SameExtends(Log());
      if willing {
        AcceptsNext(sendCount, receiveCount);
        EndsFromNext(readCount);
      }
      var answer := ReadPacket();
      if !answer.GotPacket? && answer != ReadEof {
        var cancelled := IsCancelled();
        var failure := if cancelled || answer == ReadExit then Cancelled
                       else if answer == ReadMalformed then Malformed else IoFailure;
        ReadDecides(from, Some(failure));
        return Some(FeedFailed(failure));
      }
      if answer == ReadEof || answer.packet.stream != stream {
        ReadDecides(from, None);
        if willing {
          ReadSpends(standing, Standing());
        }
        return None;
      }
      var fed := SubmitCurrentPacket();
      SendDecides(from, fed);
      if willing {
        SendSpends(standing, Standing());
      }
      return Some(fed);
    }

    /** Takes the next position of the timeline for a frame just received. */
    method FillFrameInfo() returns (r: NextResult)
      requires ReportsValid() && next.seeks + |reports| < calls
      modifies this`frameIndex, this`reports, this`places, this`next
      ensures r == Frame(epoch, old(frameIndex)) && frameIndex == Increment(old(frameIndex))
      ensures reports == old(reports) + [Report(epoch, old(frameIndex))]
      ensures places == old(places) + [old(next)] && next == Place(old(next).seeks, old(next).frame + 1)
      ensures ReportsValid()
    {
      ReportPlaced(places, reports, next);
      WrapStep(next.frame);
      hide Placed, Wrap;
      r := Frame(epoch, frameIndex);
      reports := reports + [Report(epoch, frameIndex)];
      places := places + [next];
      next := Place(next.seeks, next.frame + 1);
      frameIndex := Increment(frameIndex);
    }

    /**
     * The next decoded frame. Whatever the codec and demuxer answer, packets stay accounted for and
     * reports keep their places; a frame is reported exactly when the codec delivered one, and the call
     * fails exactly when a poll, the demuxer or the codec answered so. With a clean input and a willing
     * codec only cancellation stops it, after a bounded number of polls.
     */
    method NextFrame() returns (r: NextResult)
      requires PacketsValid() && ReportsValid()
      modifies this
      ensures PacketsValid() && ReportsValid()
      ensures calls == old(calls) + 1 && epoch == old(epoch)
      ensures readsBefore == old(readsBefore) && sentBefore == old(sentBefore)
      ensures Extends(old(Log()), Log())
      ensures AllAccepted(old(Log())) && !r.Failed? ==> AllAccepted(Log())
      ensures r.Frame? <==> |received| > |old(received)| && received[|received| - 1].answer == ReceivedFrame
      ensures r.Frame? ==> r == Frame(epoch, old(frameIndex)) && reports == old(reports) + [Report(r.epoch, r.index)]
      ensures !r.Frame? ==> reports == old(reports) && frameIndex == old(frameIndex)
      ensures r == EndOfStream ==>
        || (|received| > |old(received)| && received[|received| - 1].answer == ReceiveEof)
        || (|sent| > |old(sent)| && sent[|sent| - 1] == Sent(None, SendEof))
      ensures old(flushSent) ==> sent == old(sent)
      ensures NotAfter(old(Marked()), Marked()) && pollCount > old(pollCount)
      ensures Judged(ResultFailure(r), old(Marked()))
      ensures old(Willing()) ==> Willing() && pollCount + Needed() <= old(pollCount + Needed()) + 2
      ensures old(Willing()) && r.Failed? ==> r.failure == Cancelled && PollAnswer(pollCount - 1)
      ensures old(Willing()) && r == EndOfStream ==> flushSent
      ensures old(Willing()) ==> Spends(old(Standing()), Standing(), if r.Frame? then 0 else 1)
    {
      hide Kept, Placed, AllAccepted, Wrap, TrueReads, TrueSends, TrueReceives, Willing, Judged, Spends;
      calls := calls + 1;
      r := Pump();
    }

    /** The outer loop, until the codec delivers a frame, the stream ends or something fails. */
    method Pump() returns (r: NextResult)
      requires PacketsValid() && ReportsValid() && next.seeks + |reports| < calls
      modifies this`pollCount, this`receiveCount, this`received, this`frameIndex, this`reports, this`places,
        this`next, this`readCount, this`read, this`packet, this`demuxEof, this`sendCount, this`sent,
        this`full, this`packetPending, this`flushSent
      ensures PacketsValid() && ReportsValid()
      ensures Extends(old(Log()), Log())
      ensures AllAccepted(old(Log())) && !r.Failed? ==> AllAccepted(Log())
      ensures r.Frame? <==> |received| > |old(received)| && received[|received| - 1].answer == ReceivedFrame
      ensures r.Frame? ==> r == Frame(epoch, old(frameIndex)) && reports == old(reports) + [Report(r.epoch, r.index)]
      ensures !r.Frame? ==> reports == old(reports) && frameIndex == old(frameIndex)
      ensures r == EndOfStream ==>
        || (|received| > |old(received)| && received[|received| - 1].answer == ReceiveEof)
        || (|sent| > |old(sent)| && sent[|sent| - 1] == Sent(None, SendEof))
      ensures old(flushSent) ==> sent == old(sent)
      ensures NotAfter(old(Marked()), Marked()) && pollCount > old(pollCount)
      ensures Judged(ResultFailure(r), old(Marked()))
      ensures old(Willing()) ==> Willing() && OneCall(old(Standing()), Standing(), true)
      ensures old(Willing()) && r.Failed? ==> r.failure == Cancelled && PollAnswer(pollCount - 1)
      ensures old(Willing()) && r == EndOfStream ==> flushSent
      ensures old(Willing()) ==> Spends(old(Standing()), Standing(), if r.Frame? then 0 else 1)
    {
      hide Kept, ReportsValid, AllAccepted, Extends, TrueReads, TrueSends, TrueReceives, Willing, Judged, Needed,
        PollAnswer, Spends, Standing, OneTurn, OneCall, Log, Codec;
      ghost var start, from, standing := Log(), Marked(), Standing();
      SameExtends(start);
      NothingYet();
      NothingSpent(standing);
      NoTurnYet(standing);
      while true
        invariant PacketsValid() && ReportsValid() && next == old(next)
        invariant frameIndex == old(frameIndex) && reports == old(reports)
        invariant Extends(start, Log()) && (AllAccepted(start) ==> AllAccepted(Log()))
        invariant old(flushSent) ==> flushSent && sent == old(sent)
        invariant NotAfter(from, Marked()) && Judged(None, from)
        invariant |received| > |old(received)| ==> received[|received| - 1].answer == ReceiveAgain
        invariant old(Willing()) ==>
          Willing() && OneCall(standing, Standing(), false) && Spends(standing, Standing(), 0)
        decreases |polls| - pollCount
      {
        ghost var before, reached := Log(), Standing();
        label turn:
        var stepped := PumpStep();
        ExtendsOn(start, before, Log());
        if old(Willing()) {
          TurnInCall(standing, reached, Standing(), stepped.Some?);
          SpendsOn(standing, reached, Standing(), 0, if stepped.Some? && !stepped.value.Frame? then 1 else 0);
        }
        JudgedOn@turn(from);
        if stepped.Some? {
          return stepped.value;
        }
      }
    }

    /** One turn of the outer loop: a result, or one more thing handed to the codec. */
    method PumpStep() returns (r: Option<NextResult>)
      requires PacketsValid() && ReportsValid() && next.seeks + |reports| < calls
      modifies this`pollCount, this`receiveCount, this`received, this`frameIndex, this`reports, this`places,
        this`next, this`readCount, this`read, this`packet, this`demuxEof, this`sendCount, this`sent,
        this`full, this`packetPending, this`flushSent
      ensures PacketsValid() && ReportsValid()
      ensures NotAfter(old(Marked()), Marked()) && pollCount > old(pollCount)
      ensures |read| == |old(read)| ==> read == old(read)
      ensures |sent| == |old(sent)| ==> sent == old(sent)
      ensures received == old(received) || |received| > |old(received)|
      ensures r.None? ==> old(pollCount) < |polls|
      ensures r.None? ==> |received| > |old(received)| && received[|received| - 1].answer == ReceiveAgain
      ensures r.Some? && r.value.Frame? <==>
        |received| > |old(received)| && received[|received| - 1].answer == ReceivedFrame
      ensures Extends(old(Log()), Log())
      ensures AllAccepted(old(Log())) && !(r.Some? && r.value.Failed?) ==> AllAccepted(Log())
      ensures old(flushSent) ==> r.Some? && flushSent && sent == old(sent)
      ensures r.Some? && r.value.Frame? ==>
        r.value == Frame(epoch, old(frameIndex)) && reports == old(reports) + [Report(epoch, old(frameIndex))]
      ensures r == Some(EndOfStream) ==>
        || (|received| > |old(received)| && received[|received| - 1].answer == ReceiveEof)
        || (|sent| > |old(sent)| && sent[|sent| - 1] == Sent(None, SendEof))
      ensures !(r.Some? && r.value.Frame?) ==>
        reports == old(reports) && places == old(places) && next == old(next) && frameIndex == old(frameIndex)
      ensures Judged(if r.Some? then ResultFailure(r.value) else None, old(Marked()))
      ensures old(Willing()) ==> Willing() && OneTurn(old(Standing()), Standing(), r.Some?)
      ensures old(Willing()) && r.Some? && r.value.Failed? ==>
        r.value.failure == Cancelled && pollCount > 0 && PollAnswer(pollCount - 1)
      ensures old(Willing()) ==>
        Spends(old(Standing()), Standing(), if r.Some? && !r.value.Frame? then 1 else 0)
      ensures old(Willing()) && r == Some(EndOfStream) ==> flushSent
    {
      hide Kept, ReportsValid, AllAccepted, TrueReads, TrueSends, TrueReceives, Willing, Judged, Needed, Extends,
        Spends, Log, Codec;
      ghost var log, from, standing, willing := Log(), Marked(), Standing(), Willing();
      SameExtends(log);
      r := ReceiveStep();
      if r.Some? {
        return;
      }
      ghost var asked := Standing();
      label received:
      var fed := FeedCodec();
      JudgedOn@received(from);
      if willing {
        SpendsOn(standing, asked, Standing(), 1, -1);
      }
      match fed
      case FeedFailed(failure) => return Some(Failed(failure));
      case Drained => return Some(EndOfStream);
      case Fed => return None;
    }

    /** Cancellation check and one request for a frame; no result means the codec wants and may have input. */
    method ReceiveStep() returns (r: Option<NextResult>)
      requires PacketsValid() && ReportsValid() && next.seeks + |reports| < calls
      modifies this`pollCount, this`receiveCount, this`received, this`full, this`frameIndex, this`reports,
        this`places, this`next
      ensures PacketsValid() && ReportsValid() && pollCount == old(pollCount) + 1
      ensures received == old(received) || |received| == |old(received)| + 1
      ensures r.None? ==> !PollAnswer(old(pollCount)) && !flushSent
      ensures r.None? ==> |received| > |old(received)| && received[|received| - 1].answer == ReceiveAgain
      ensures r.Some? && r.value.Frame? <==>
        |received| > |old(received)| && received[|received| - 1].answer == ReceivedFrame
      ensures r.Some? && r.value.Frame? ==>
        r.value == Frame(epoch, old(frameIndex)) && reports == old(reports) + [Report(epoch, old(frameIndex))]
      ensures r == Some(EndOfStream) ==>
        |received| > |old(received)| && received[|received| - 1].answer == ReceiveEof
      ensures !(r.Some? && r.value.Frame?) ==>
        reports == old(reports) && places == old(places) && next == old(next) && frameIndex == old(frameIndex)
      ensures Judged(if r.Some? then ResultFailure(r.value) else None, old(Marked()))
      ensures old(Willing()) ==> Willing() && (r == Some(EndOfStream) ==> flushSent)
      ensures old(Willing()) && old(full) ==> r.Some?
      ensures Needed() == old(Needed())
      ensures old(Willing()) && r.Some? && r.value.Failed? ==>
        r.value.failure == Cancelled && PollAnswer(old(pollCount))
      ensures Spends(old(Standing()), Standing(), if r.Some? && r.value.Frame? then 0 else 1)
    {
      hide PacketsValid, ReportsValid, Wrap, Willing, Judged, PollAnswer, Spends, Standing, Codec;
      var asked := AskForFrame();
      if asked.None? {
        return Some(Failed(Cancelled));
      }
      match asked.value
      case ReceivedFrame =>
        var frame := FillFrameInfo();
        return Some(frame);
      case ReceiveEof => return Some(EndOfStream);
      case ReceiveMalformed => return Some(Failed(Malformed));
      case ReceiveError => return Some(Failed(DecoderFailure));
      case ReceiveAgain => return if flushSent then Some(Failed(DecoderFailure)) else None;
    }

    /** Asks the codec for a frame, unless cancelled. */
    method AskForFrame() returns (answer: Option<ReceiveAnswer>)
      requires PacketsValid()
      modifies this`pollCount, this`receiveCount, this`received, this`full
      ensures PacketsValid() && pollCount == old(pollCount) + 1
      ensures answer.None? <==> PollAnswer(old(pollCount))
      ensures answer.None? ==> received == old(received) && Judged(Some(Cancelled), old(Marked()))
      ensures answer.Some? ==>
        && |received| == |old(received)| + 1
        && received[|received| - 1].answer == answer.value
        && Judged(ReceiveFailure(Received(answer.value, old(Codec()))), old(Marked()))
      ensures Spends(old(Standing()), Standing(), if answer == Some(ReceivedFrame) then 0 else 1)
      ensures old(Codec()) == Draining <==> flushSent
      ensures old(Willing()) ==> Willing()
      ensures old(Willing()) && answer.Some? ==>
        && ReceiveFailure(Received(answer.value, old(Codec()))) == None
        && (answer.value == ReceiveEof ==> flushSent)
        && (answer.value == ReceiveAgain ==> !old(full))
    {
      hide Kept, TrueReads, TrueSends, TrueReceives, Accepting, InputEnds, Judged, PollAnswer, Spends, Needed;
      ghost var from, state, standing := Marked(), Codec(), Standing();
      if Willing() {
        AnswersNext(sendCount, receiveCount, state);
      }
      var cancelled := IsCancelled();
      if cancelled {
        PollDecides(from);
        PollSpends(standing);
        return None;
      }
      var received := ReceiveFromCodec();
      ReceiveDecides(from, ReceiveFailure(Received(received, state)));
      ReceiveSpends(standing, Standing(), state);
      return Some(received);
    }

    /**
     * Asks for frames until there are no more. A drainable session ends with the whole input demuxed and
     * every packet of it taken by the codec, in order.
     */
    method DecodeAll(ghost frames: nat, ghost puts: nat) returns (r: NextResult)
      requires PacketsValid() && ReportsValid()
      modifies this
      ensures PacketsValid() && ReportsValid() && !r.Frame?
      ensures readsBefore == old(readsBefore) && sentBefore == old(sentBefore) && Extends(old(Log()), Log())
      ensures old(Drainable(frames, puts)) ==> r == EndOfStream && flushSent && EndsInput(Read())
      ensures old(Drainable(frames, puts)) && AllAccepted(old(Log())) ==>
        AcceptedPackets(Log()) == Selected(Read(), stream)
    {
      hide Accounted, ReportsValid, AllAccepted, Extends, TrueReads, TrueSends, TrueReceives, Willing, Judged, Needed,
        Settles, Spends, AcceptedPackets, Selected, EndsInput;
      ghost var start, standing := Log(), Standing();
      SameExtends(start);
      NothingSpent(standing);
      while true
        invariant PacketsValid() && ReportsValid() && pollCount >= old(pollCount)
        invariant readsBefore == old(readsBefore) && sentBefore == old(sentBefore)
        invariant Extends(start, Log()) && (AllAccepted(start) ==> AllAccepted(Log()))
        invariant old(Willing()) ==> Willing() && Spends(standing, Standing(), 0)
        decreases |polls| - pollCount
      {
        ghost var before, marked, reached := Log(), Marked(), Standing();
        r := NextFrame();
        ExtendsOn(start, before, Log());
        if old(Willing()) {
          SpendsOn(standing, reached, Standing(), 0, if r.Frame? then 0 else 1);
        }
        if !r.Frame? {
          break;
        }
        LastPollWasQuiet(marked);
      }
      if old(Drainable(frames, puts)) {
        PollsAreBounded(standing, Standing(), frames, puts);
        FlushedIsAll(Read(), stream, Log(), Pending(), demuxEof);
      }
    }

    lemma PollsAreBounded(a: Account, b: Account, frames: nat, puts: nat)
      requires Settles(frames, puts) && Spends(a, b, 1)
      ensures b.polled <= a.polled + Remaining(a, frames, puts) + 1
    {
    }

    /** Reads that end an input with its only end mark at `end` are the whole of it. */
    lemma WholeInputRead(end: nat)
      requires Counted() && readsBefore == 0 && EndsInput(Read()) && |answers| == end + 1
      requires forall k | 0 <= k < end :: answers[k] != ReadEof
      ensures Read() == answers
    {
      hide TrueSends, TrueReceives;
      assert read[|read| - 1] == ReadEof;
    }

    lemma LastPollWasQuiet(from: Marks)
      requires Judged(None, from) && pollCount > from.polled
      ensures pollCount <= |polls|
    {
    }

    /** A completed seek starts a new epoch with an empty log; a refused one changes nothing. */
    method SeekUs(timestamp: int, hasTimeBase: bool, answer: SeekAnswer) returns (r: Result<(), Failure>)
      requires PacketsValid() && ReportsValid()
      modifies this
      ensures PacketsValid() && ReportsValid()
      ensures reports == old(reports) && sent == old(sent) && read == old(read) && calls == old(calls) + 1
      ensures r.Ok? ==> epoch == Increment(old(epoch)) && frameIndex == 0 && next == Place(old(next).seeks + 1, 0)
      ensures r.Ok? ==> Log() == [] && Read() == [] && !packetPending && !demuxEof && !flushSent
      ensures r.Err? ==>
        && epoch == old(epoch) && frameIndex == old(frameIndex) && Log() == old(Log()) && Read() == old(Read())
        && packetPending == old(packetPending) && demuxEof == old(demuxEof) && flushSent == old(flushSent)
      ensures r.Ok? <==> timestamp >= 0 && !PollAnswer(old(pollCount)) && hasTimeBase && answer == Seeked
      ensures r == Err(Cancelled) <==>
        && timestamp >= 0
        && (PollAnswer(old(pollCount))
            || (hasTimeBase && (answer == SeekExit || (answer == SeekRefused && PollAnswer(old(pollCount) + 1)))))
      ensures r.Err? ==> r.error == Cancelled || r.error == SeekUnavailable
    {
      hide Placed, Kept, Wrap, TrueReads, TrueSends, TrueReceives;
      calls := calls + 1;
      if timestamp < 0 {
        return Err(SeekUnavailable);
      }
      var cancelled := IsCancelled();
      if cancelled {
        return Err(Cancelled);
      }
      if !hasTimeBase {
        return Err(SeekUnavailable);
      }
      if answer != Seeked {
        var interrupted := IsCancelled();
        return Err(if interrupted || answer == SeekExit then Cancelled else SeekUnavailable);
      }
      Restart();
      return Ok(());
    }

    /** Discards everything of the old position and opens the next epoch. */
    method Restart()
      requires Counted() && ReportsValid() && next.seeks + |reports| < calls
      modifies this`demuxEof, this`packetPending, this`flushSent, this`full, this`epoch, this`frameIndex,
        this`readsBefore, this`sentBefore, this`next
      ensures PacketsValid() && ReportsValid()
      ensures epoch == Increment(old(epoch)) && frameIndex == 0 && next == Place(old(next).seeks + 1, 0)
      ensures Log() == [] && Read() == [] && !packetPending && !demuxEof && !flushSent
    {
      hide ReportsValid, PacketsValid;
      DiscardPackets();
      OpenEpoch();
    }

    method DiscardPackets()
      requires Counted()
      modifies this`demuxEof, this`packetPending, this`flushSent, this`full, this`readsBefore, this`sentBefore
      ensures PacketsValid() && Log() == [] && Read() == [] && !packetPending && !demuxEof && !flushSent
    {
      hide Accounted, TrueReads, TrueSends, TrueReceives;
      NothingReadYet(stream);
      EmptyTail(read);
      EmptyTail(sent);
      demuxEof, packetPending, flushSent, full := false, false, false, false;
      readsBefore, sentBefore := |read|, |sent|;
    }

    method OpenEpoch()
      requires ReportsValid() && next.seeks + |reports| < calls
      modifies this`epoch, this`frameIndex, this`next
      ensures ReportsValid()
      ensures epoch == Increment(old(epoch)) && frameIndex == 0 && next == Place(old(next).seeks + 1, 0)
    {
      hide Placed, Wrap, Increment;
      SeekPlaced(places, reports, next);
      WrapStep(next.seeks);
      WrapInWord(0);
      epoch, frameIndex := Increment(epoch), 0;
      next := Place(next.seeks + 1, 0);
    }

    /** Below 2^64 calls no counter has wrapped, so all reports of the session rise strictly. */
    lemma ReportsRise()
      requires ReportsValid() && calls < WORD
      ensures Rising(reports)
    {
      forall i | 0 <= i < |places|
        ensures places[i].seeks < WORD && places[i].frame < WORD
      {
        EarlierFrame(places, reports, next, i, places[i].frame);
        assert PlaceBefore(places[i], next);
      }
      ReportsRiseIff(places, reports, next);
    }
  }

  lemma NotFlushed(answers: seq<ReadAnswer>, stream: int, log: seq<Sent>, pending: Option<Packet>, flushSent: bool)
    requires Accounted(answers, stream, log, pending, false, flushSent)
    ensures !flushSent
  {
  }

  // ---- A session that drains ----

  /** Two packets and the end of the input. */
  function TwoPackets(): seq<ReadAnswer> {
    [GotPacket(Packet(0, 10)), GotPacket(Packet(0, 11)), ReadEof]
  }

  /** The codec puts off the second packet once. */
  function PutsOffOnce(k: nat): SendAnswer {
    if k == 1 then SendAgain else SendAccepted
  }

  /** It has a frame after putting something off and one more when it drains. */
  function TwoFrames(k: nat, state: CodecState): ReceiveAnswer {
    match state
    case Open => ReceiveAgain
    case Full => ReceivedFrame
    case Draining => if k < 6 then ReceivedFrame else ReceiveEof
  }

  method PuttingOffSession() returns (session: Session)
    ensures fresh(session) && session.PacketsValid() && session.ReportsValid() && session.Drainable(6, 2)
    ensures session.stream == 0 && session.answers == TwoPackets() && session.readsBefore == 0 && session.sent == []
    ensures session.sends == PutsOffOnce && session.receives == TwoFrames
  {
    hide Session.ReportsValid, Session.PacketsValid;
    session := new Session(0, seq(32, _ => false), TwoPackets(), TwoFrames, PutsOffOnce);
    assert session.EndsFrom(0) by {
      assert session.answers[2] == ReadEof;
    }
  }

  /** The result of draining is met by it: both packets are taken, in order, the one put off as well. */
  method DrainsPuttingOff() returns (session: Session, r: NextResult)
    ensures fresh(session) && session.PacketsValid()
    ensures r == EndOfStream && AcceptedPackets(session.Log()) == [Packet(0, 10), Packet(0, 11)]
  {
    hide Accounted, Session.ReportsValid, Session.Drainable, AcceptedPackets;
    session := PuttingOffSession();
    assert AllAccepted(session.Log());
    r := session.DecodeAll(6, 2);
    session.WholeInputRead(2);
    BothSelected();
  }

  lemma BothSelected()
    ensures Selected(TwoPackets(), 0) == [Packet(0, 10), Packet(0, 11)]
  {
    hide Selected;
    var first, second := GotPacket(Packet(0, 10)), GotPacket(Packet(0, 11));
    AccountsStep([], first, 0, [], Sent(None, SendEof));
    AccountsStep([first], second, 0, [], Sent(None, SendEof));
    AccountsStep([first, second], ReadEof, 0, [], Sent(None, SendEof));
    assert [] + [first] == [first] && [first] + [second] == [first, second];
    assert [first, second] + [ReadEof] == TwoPackets();
  }
}
