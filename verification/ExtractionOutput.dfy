/**
 Encoding and committing extracted frames while recording the manifest. The sink is any function of
 its call history; it either commits an artifact and reports it, or rejects the frame. Plain export
 and unique-frame export share one output step.
 */
module ExtractionOutput {
  import opened Common
  import opened Frames
  import opened Grouping
  import opened GroupNavigation
  import opened ExtractionPlan
  import opened ExtractionVideo
  import opened GroupExport
  import opened Manifest

  datatype ImageFormat = Png | Jpeg(quality: byte) | WebPLossless {
    function Extension(): string {
      match this case Png => "png" case Jpeg(_) => "jpg" case WebPLossless => "webp"
    }
  }

  /** A frame offered to the sink, with its group for unique-frame export. */
  datatype Output = Output(frameId: u64, ordinal: nat, total: nat, entry: Entry, pixels: Frame, group: Option<Target>)

  datatype SinkReply<+E> = SinkFailed(error: E) | Committed(format: ImageFormat, bytes: u64)

  type Sink<!E> = (seq<Output>, Output) -> SinkReply<E>

  datatype OutputError<+E> = SinkError(error: E) | SinkContract | ManifestRefused(refusal: ManifestError)

  /** Manifest, every frame the sink was offered, and every artifact it committed. */
  datatype ExportState = ExportState(book: Book, offered: seq<Output>, commits: seq<Record>)

  datatype Stepped<+E> = Stepped(state: ExportState, error: Option<OutputError<E>>)

  function RecordOf(format: ImageFormat, o: Output, bytes: u64): Record {
    Record(o.frameId, o.ordinal, o.total, o.entry, FrameFileName(o.frameId, format.Extension()), bytes, o.group)
  }

  /** Commit first, then record: a manifest line never claims an uncommitted artifact. */
  function WriteOutput<E>(format: ImageFormat, sink: Sink<E>, st: ExportState, o: Output): Stepped<E> {
    match sink(st.offered, o)
    case SinkFailed(e) => Stepped(st.(offered := st.offered + [o]), Some(SinkError(e)))
    case Committed(reported, bytes) =>
      var record := RecordOf(format, o, bytes);
      var stored := st.(offered := st.offered + [o], commits := st.commits + [record]);
      if reported != format then Stepped(stored, Some(SinkContract))
      else if bytes == 0 then Stepped(stored, Some(SinkContract))
      else
        match Refusal(st.book, record)
        case Some(refusal) => Stepped(stored, Some(ManifestRefused(refusal)))
        case None => Stepped(stored.(book := Append(st.book, record)), None)
  }

  function FoldOutputs<F, E>(
    format: ImageFormat, sink: Sink<E>, toOutput: F -> Output, start: ExportState, history: seq<F>): ExportState
  {
    if history == [] then start
    else
      WriteOutput(format, sink, FoldOutputs(format, sink, toOutput, start, history[..|history| - 1]),
                  toOutput(history[|history| - 1])).state
  }

  function OutputVisit<F, E>(format: ImageFormat, sink: Sink<E>, toOutput: F -> Output, start: ExportState)
    : (seq<F>, F) -> Option<OutputError<E>>
  {
    (history: seq<F>, frame: F) =>
      WriteOutput(format, sink, FoldOutputs(format, sink, toOutput, start, history), toOutput(frame)).error
  }

  /** Outputs numbered from one with the manifest's total, authoritative entries and sound groups. */
  predicate SoundOutput(expected: nat, i: nat, o: Output) {
    && o.ordinal == i + 1
    && o.total == expected
    && o.frameId == o.entry.frameId
    && (o.group.Some? ==> ValidGroup(o.frameId, o.group.value))
  }

  lemma FileNameIsLeaf(frameId: u64, format: ImageFormat)
    ensures ValidLeaf(FrameFileName(frameId, format.Extension()))
  {
    var name := FrameFileName(frameId, format.Extension());
    assert name[0] == 'f';
    assert 'f' in name && 'f' !in " \t\r\n";
  }

  /** The only record the manifest can refuse during an export is one that overflows the byte total. */
  lemma OnlyOverflowRefuses(format: ImageFormat, st: ExportState, o: Output, bytes: u64)
    requires Holds(st.book, st.commits) && SoundOutput(st.book.expected, |st.commits|, o) && bytes > 0
    ensures Refusal(st.book, RecordOf(format, o, bytes))
         == if SumBytes(st.commits) + bytes > U64_MAX then Some(ByteTotalOverflow) else None
  {
    hide FrameFileName, ValidLeaf;
    FileNameIsLeaf(o.frameId, format);
  }

  /** The manifest holds every commit, except possibly the last one after an error. */
  predicate Recorded<E>(st: ExportState, expected: nat, error: Option<OutputError<E>>) {
    && st.book.expected == expected
    && match error
       case None => Holds(st.book, st.commits)
       case Some(SinkError(_)) => Holds(st.book, st.commits)
       case Some(SinkContract) => |st.commits| > 0 && Holds(st.book, st.commits[..|st.commits| - 1])
       case Some(ManifestRefused(refusal)) =>
         && |st.commits| > 0 && Holds(st.book, st.commits[..|st.commits| - 1])
         && refusal == ByteTotalOverflow
         && SumBytes(st.commits) > U64_MAX
  }

  lemma WriteOutputRecords<E>(format: ImageFormat, sink: Sink<E>, st: ExportState, o: Output)
    requires Holds(st.book, st.commits)
    requires SoundOutput(st.book.expected, |st.commits|, o)
    ensures var step := WriteOutput(format, sink, st, o);
      Recorded(step.state, st.book.expected, step.error)
      && (step.error.None? ==> |step.state.commits| == |st.commits| + 1)
      && |step.state.commits| <= |st.commits| + 1
  {
    match sink(st.offered, o)
    case SinkFailed(e) =>
    case Committed(reported, bytes) =>
      var record := RecordOf(format, o, bytes);
      assert (st.commits + [record])[..|st.commits|] == st.commits;
      if reported == format && bytes > 0 {
        OnlyOverflowRefuses(format, st, o, bytes);
        hide Refusal, FrameFileName, Holds;
        if Refusal(st.book, record) == None {
          AppendHolds(st.book, st.commits, record);
        }
      }
  }

  lemma {:induction false} OutputRun<F, E>(
    format: ImageFormat, sink: Sink<E>, toOutput: F -> Output, start: ExportState,
    log: seq<F>, error: Option<OutputError<E>>)
    requires Holds(start.book, []) && start.commits == []
    requires VisitorOutcome(OutputVisit(format, sink, toOutput, start), log, error)
    requires forall i :: 0 <= i < |log| ==> SoundOutput(start.book.expected, i, toOutput(log[i]))
    ensures Recorded(FoldOutputs(format, sink, toOutput, start, log), start.book.expected, error)
    ensures error.None? ==> |FoldOutputs(format, sink, toOutput, start, log).commits| == |log|
    ensures |FoldOutputs(format, sink, toOutput, start, log).commits| <= |log|
  {
    if log != [] {
      var n := |log| - 1;
      VisitorOutcomePrefix(OutputVisit(format, sink, toOutput, start), log, error);
      hide VisitorOutcome, WriteOutput, SoundOutput;
      OutputRun(format, sink, toOutput, start, log[..n], None);
      WriteOutputRecords(format, sink, FoldOutputs(format, sink, toOutput, start, log[..n]), toOutput(log[n]));
    }
  }

  // ---------------------------------------------------------------- what the sink answered

  /** The record of a committed artifact; a failed write leaves none. */
  function CommitRecord<E>(format: ImageFormat, o: Output, reply: SinkReply<E>): seq<Record> {
    match reply
    case SinkFailed(_) => []
    case Committed(_, bytes) => [RecordOf(format, o, bytes)]
  }

  /** The records of exactly the artifacts the sink reports as committed. */
  function CommitRecords<E>(format: ImageFormat, sink: Sink<E>, outputs: seq<Output>): seq<Record> {
    if outputs == [] then []
    else
      var n := |outputs| - 1;
      CommitRecords(format, sink, outputs[..n]) + CommitRecord(format, outputs[n], sink(outputs[..n], outputs[n]))
  }

  /** A record says of its output exactly what the output is, under the name of its frame and format. */
  lemma RecordDescribesOutput(format: ImageFormat, o: Output, bytes: u64)
    ensures var r := RecordOf(format, o, bytes);
      && r.frameId == o.frameId && r.ordinal == o.ordinal && r.total == o.total && r.entry == o.entry
      && r.bytes == bytes && r.group == o.group
      && (format.Png? ==> r.fileName == FrameFileName(o.frameId, "png"))
      && (format.Jpeg? ==> r.fileName == FrameFileName(o.frameId, "jpg"))
      && (format.WebPLossless? ==> r.fileName == FrameFileName(o.frameId, "webp"))
  {
  }

  /** A reply is clean exactly when it is a commit in the asked format, not empty, that still fits the total. */
  lemma VerdictMeaning<E>(format: ImageFormat, total: nat, reply: SinkReply<E>)
    ensures VerdictOn(format, total, reply) == None <==>
      reply.Committed? && reply.format == format && reply.bytes > 0 && total + reply.bytes <= 0xFFFF_FFFF_FFFF_FFFF
    ensures reply.SinkFailed? ==> VerdictOn(format, total, reply) == Some(SinkError(reply.error))
    ensures reply.Committed? && (reply.format != format || reply.bytes == 0) ==>
      VerdictOn(format, total, reply) == Some(SinkContract)
  {
  }

  /** What stops an export at a reply, given the bytes committed before it. */
  function VerdictOn<E>(format: ImageFormat, total: nat, reply: SinkReply<E>): Option<OutputError<E>> {
    match reply
    case SinkFailed(e) => Some(SinkError(e))
    case Committed(reported, bytes) =>
      if reported != format || bytes == 0 then Some(SinkContract)
      else if total + bytes > U64_MAX then Some(ManifestRefused(ByteTotalOverflow))
      else None
  }

  function VerdictAt<E>(format: ImageFormat, sink: Sink<E>, outputs: seq<Output>, i: nat): Option<OutputError<E>>
    requires i < |outputs|
  {
    VerdictOn(format, SumBytes(CommitRecords(format, sink, outputs[..i])), sink(outputs[..i], outputs[i]))
  }

  /** The first `n` replies are commits in the right format, not empty, within the 64-bit total. */
  ghost predicate Clean<E>(format: ImageFormat, sink: Sink<E>, outputs: seq<Output>, n: nat)
    requires n <= |outputs|
  {
    forall i :: 0 <= i < n ==> VerdictAt(format, sink, outputs, i) == None
  }

  /** Every offered frame had a clean reply, except that the last one stopped the export when there is an error. */
  ghost predicate ReplyRun<E>(
    format: ImageFormat, sink: Sink<E>, offered: seq<Output>, error: Option<OutputError<E>>)
  {
    && (error.Some? ==> offered != [] && VerdictAt(format, sink, offered, |offered| - 1) == error)
    && Clean(format, sink, offered, if error.Some? then |offered| - 1 else |offered|)
  }

  function Offered<F>(toOutput: F -> Output, log: seq<F>): (r: seq<Output>)
    ensures |r| == |log|
  {
    seq(|log|, i requires 0 <= i < |log| => toOutput(log[i]))
  }

  lemma StepTraces<E>(format: ImageFormat, sink: Sink<E>, st: ExportState, o: Output)
    ensures var after := WriteOutput(format, sink, st, o).state;
      && after.offered == st.offered + [o]
      && after.commits == st.commits + CommitRecord(format, o, sink(st.offered, o))
  {
    hide Refusal, Append, RecordOf;
  }

  /** The export state keeps every offer and commits exactly what the sink reported. */
  lemma {:induction false} FoldTraces<F, E>(
    format: ImageFormat, sink: Sink<E>, toOutput: F -> Output, start: ExportState, log: seq<F>)
    requires start.offered == [] && start.commits == []
    ensures var st := FoldOutputs(format, sink, toOutput, start, log);
      st.offered == Offered(toOutput, log) && st.commits == CommitRecords(format, sink, st.offered)
  {
    if log != [] {
      hide WriteOutput, CommitRecord, Offered, CommitRecords;
      var n := |log| - 1;
      FoldTraces(format, sink, toOutput, start, log[..n]);
      StepTraces(format, sink, FoldOutputs(format, sink, toOutput, start, log[..n]), toOutput(log[n]));
      OfferedStep(toOutput, log);
      CommitRecordsStep(format, sink, Offered(toOutput, log[..n]), toOutput(log[n]));
    } else {
      hide WriteOutput;
    }
  }

  lemma OfferedStep<F>(toOutput: F -> Output, log: seq<F>)
    requires log != []
    ensures Offered(toOutput, log) == Offered(toOutput, log[..|log| - 1]) + [toOutput(log[|log| - 1])]
  {
  }

  lemma CommitRecordsStep<E>(format: ImageFormat, sink: Sink<E>, outputs: seq<Output>, o: Output)
    ensures CommitRecords(format, sink, outputs + [o])
         == CommitRecords(format, sink, outputs) + CommitRecord(format, o, sink(outputs, o))
  {
    hide CommitRecord;
    assert (outputs + [o])[..|outputs|] == outputs;
  }

  /** One output step stops exactly as the reply says. */
  lemma StepVerdict<E>(format: ImageFormat, sink: Sink<E>, st: ExportState, o: Output)
    requires Holds(st.book, st.commits) && SoundOutput(st.book.expected, |st.commits|, o)
    ensures WriteOutput(format, sink, st, o).error
         == VerdictOn(format, SumBytes(st.commits), sink(st.offered, o))
  {
    hide Refusal, Holds, SoundOutput, SumBytes;
    match sink(st.offered, o)
    case SinkFailed(_) =>
    case Committed(reported, bytes) =>
      if reported == format && bytes > 0 {
        OnlyOverflowRefuses(format, st, o, bytes);
      }
  }

  lemma VisitVerdict<F, E>(
    format: ImageFormat, sink: Sink<E>, toOutput: F -> Output, start: ExportState, log: seq<F>, i: nat)
    requires Holds(start.book, []) && start.commits == [] && start.offered == [] && i < |log|
    requires VisitorOutcome(OutputVisit(format, sink, toOutput, start), log[..i], None)
    requires forall k :: 0 <= k < |log| ==> SoundOutput(start.book.expected, k, toOutput(log[k]))
    ensures OutputVisit(format, sink, toOutput, start)(log[..i], log[i])
         == VerdictAt(format, sink, Offered(toOutput, log), i)
  {
    hide Holds, SoundOutput, VisitorOutcome, WriteOutput, VerdictOn, FoldOutputs;
    OutputRun(format, sink, toOutput, start, log[..i], None);
    FoldTraces(format, sink, toOutput, start, log[..i]);
    assert Offered(toOutput, log)[..i] == Offered(toOutput, log[..i]);
    StepVerdict(format, sink, FoldOutputs(format, sink, toOutput, start, log[..i]), toOutput(log[i]));
  }

  /** The replies decide: the visitor history of an export is a reply run. */
  lemma RunFollowsReplies<F, E>(
    format: ImageFormat, sink: Sink<E>, toOutput: F -> Output, start: ExportState,
    log: seq<F>, error: Option<OutputError<E>>)
    requires Holds(start.book, []) && start.commits == [] && start.offered == []
    requires VisitorOutcome(OutputVisit(format, sink, toOutput, start), log, error)
    requires forall k :: 0 <= k < |log| ==> SoundOutput(start.book.expected, k, toOutput(log[k]))
    ensures ReplyRun(format, sink, Offered(toOutput, log), error)
  {
    hide Holds, SoundOutput, OutputVisit, VerdictAt, Offered;
    var visit := OutputVisit(format, sink, toOutput, start);
    forall i | 0 <= i < |log|
      ensures VerdictAt(format, sink, Offered(toOutput, log), i) == if i == |log| - 1 then error else None
    {
      VisitorOutcomeTake(visit, log, error, i);
      VisitVerdict(format, sink, toOutput, start, log, i);
      assert visit(log[..i], log[i]) == if i == |log| - 1 then error else None;
    }
  }

  // ---------------------------------------------------------------- finished manifests

  /** Header, the records numbered from one, and one terminal with exact totals. */
  predicate Finished(lines: seq<Line>, expected: nat, records: seq<Record>, status: Status) {
    && |lines| == |records| + 2
    && lines[0] == Header(expected)
    && (forall i :: 0 <= i < |records| ==> lines[i + 1] == FrameLine(records[i]) && records[i].ordinal == i + 1)
    && lines[|records| + 1] == Terminal(status, |records|, expected, SumBytes(records))
  }

  lemma CloseFinishes(b: Book, records: seq<Record>, status: Status)
    requires Holds(b, records)
    ensures Finished(Close(b, status).lines, b.expected, records, status)
  {
  }

  datatype ExportError<+E> =
    | PlanFailed(plan: PlanError)
    | ExportBatch(failure: Failure)
    | ExportGroups(code: string)
    | ExportOutput(output: OutputError<E>)
    | ExportCancelled

  /** Terminal status written for an outcome. */
  function StatusOf<E>(outcome: Result<nat, ExportError<E>>): Status {
    match outcome
    case Ok(_) => Complete
    case Err(ExportCancelled) => Aborted
    case Err(ExportOutput(SinkError(_))) => FailedWith("output_error")
    case Err(ExportOutput(_)) => FailedWith("output_contract_error")
    case Err(ExportGroups(code)) => FailedWith(code)
    case Err(_) => FailedWith("decode_error")
  }

  function OutputErrorOf<E>(outcome: Result<nat, ExportError<E>>): Option<OutputError<E>> {
    match outcome case Err(ExportOutput(e)) => Some(e) case _ => None
  }

  /** The commits a manifest claims: all of them, or all but the last after the last was not recorded. */
  function Claimed<E>(commits: seq<Record>, error: Option<OutputError<E>>): seq<Record> {
    if error.Some? && !error.value.SinkError? && |commits| > 0 then commits[..|commits| - 1] else commits
  }

  /** The manifest lines after the terminal handling of an outcome: a refused record ends the export
      without a terminal, everything else asks the writer for one. */
  function EndExport<E>(st: ExportState, outcome: Result<nat, ExportError<E>>): seq<Line> {
    var error := OutputErrorOf(outcome);
    if error.Some? && error.value.ManifestRefused? then st.book.lines
    else if FinishRefusal(st.book, StatusOf(outcome)).Some? then st.book.lines
    else Close(st.book, StatusOf(outcome)).lines
  }

  ghost predicate HasTerminal(lines: seq<Line>) {
    exists i :: 0 <= i < |lines| && lines[i].Terminal?
  }

  /** The law of a recorded export. Unless a record was refused there is a finished manifest of the
      claimed commits; it says complete exactly on success, with the whole plan and exact bytes. */
  ghost predicate SoundExport<E>(
    outcome: Result<nat, ExportError<E>>, lines: seq<Line>, commits: seq<Record>, expected: nat)
  {
    var error := OutputErrorOf(outcome);
    && (error.Some? && error.value.ManifestRefused? ==> error.value.refusal == ByteTotalOverflow)
    && (HasTerminal(lines) <==> !(error.Some? && error.value.ManifestRefused?))
    && (HasTerminal(lines) ==> Finished(lines, expected, Claimed(commits, error), StatusOf(outcome)))
    && (outcome.Ok? ==> |commits| == expected && outcome.value == SumBytes(commits))
  }

  /**
   * The terminal line says how the export ended: complete on success, aborted when cancelled, and otherwise
   * failed with a code that tells decoding, the sink and a broken sink contract apart.
   */
  ghost predicate TerminalTells<E>(outcome: Result<nat, ExportError<E>>, lines: seq<Line>) {
    HasTerminal(lines) ==>
      && lines[|lines| - 1].Terminal?
      && var status := lines[|lines| - 1].status;
        && (outcome.Ok? <==> status == Complete)
        && (outcome.Err? && outcome.error.ExportCancelled? <==> status == Aborted)
        && (outcome.Err? && outcome.error.ExportBatch? ==> status == FailedWith("decode_error"))
        && (outcome.Err? && outcome.error.ExportGroups? ==> status == FailedWith(outcome.error.code))
        && (outcome.Err? && outcome.error.ExportOutput? && outcome.error.output.SinkError? ==>
              status == FailedWith("output_error"))
        && (outcome.Err? && outcome.error.ExportOutput? && outcome.error.output.SinkContract? ==>
              status == FailedWith("output_contract_error"))
  }

  lemma TerminalOfOutcome<E>(
    outcome: Result<nat, ExportError<E>>, lines: seq<Line>, commits: seq<Record>, expected: nat)
    requires SoundExport(outcome, lines, commits, expected)
    ensures TerminalTells(outcome, lines)
  {
    hide HasTerminal, Claimed, SumBytes;
  }

  /** The writer accepts the terminal of every outcome that gets one. */
  lemma FinishSucceeds<E>(st: ExportState, outcome: Result<nat, ExportError<E>>, expected: nat)
    requires Recorded(st, expected, OutputErrorOf(outcome)) && (outcome.Ok? ==> |st.commits| == expected)
    ensures FinishRefusal(st.book, StatusOf(outcome)) == None
  {
  }

  lemma OpenBookHasNoTerminal(b: Book, records: seq<Record>)
    requires Holds(b, records)
    ensures !HasTerminal(b.lines)
  {
    forall i | 0 <= i < |b.lines|
      ensures !b.lines[i].Terminal?
    {
      if i > 0 {
        assert b.lines[i - 1 + 1] == FrameLine(records[i - 1]);
      }
    }
  }

  lemma EndExportIsSound<E>(st: ExportState, outcome: Result<nat, ExportError<E>>, expected: nat)
    requires Recorded(st, expected, OutputErrorOf(outcome))
    requires outcome.Ok? ==> |st.commits| == expected && outcome.value == st.book.bytes
    ensures SoundExport(outcome, EndExport(st, outcome), st.commits, expected)
  {
    var error := OutputErrorOf(outcome);
    if !(error.Some? && error.value.ManifestRefused?) {
      FinishSucceeds(st, outcome, expected);
      var records := Claimed(st.commits, error);
      CloseFinishes(st.book, records, StatusOf(outcome));
      assert EndExport(st, outcome)[|records| + 1].Terminal?;
    } else {
      OpenBookHasNoTerminal(st.book, st.commits[..|st.commits| - 1]);
    }
  }

  // ---------------------------------------------------------------- what an export promises

  /** The last reply is the first one that is not clean, and it fails on the byte total only. */
  predicate EndsOnOverflow<E>(format: ImageFormat, sink: Sink<E>, offered: seq<Output>) {
    && offered != []
    && VerdictAt(format, sink, offered, |offered| - 1) == Some(ManifestRefused(ByteTotalOverflow))
  }

  /** A sound manifest over what the sink was offered and answered: clean replies up to the last,
      commits exactly as reported, and a terminal exactly unless the last reply overflows the total. */
  ghost predicate ExportLaw<E>(
    format: ImageFormat, sink: Sink<E>, outcome: Result<nat, ExportError<E>>, lines: seq<Line>,
    offered: seq<Output>, commits: seq<Record>, expected: nat)
  {
    && SoundExport(outcome, lines, commits, expected)
    && ReplyRun(format, sink, offered, OutputErrorOf(outcome))
    && commits == CommitRecords(format, sink, offered)
    && (outcome.Ok? ==> |offered| == expected)
    && (HasTerminal(lines) <==> !EndsOnOverflow(format, sink, offered))
  }

  lemma LawOfRun<E>(
    format: ImageFormat, sink: Sink<E>, outcome: Result<nat, ExportError<E>>, lines: seq<Line>,
    offered: seq<Output>, commits: seq<Record>, expected: nat)
    requires SoundExport(outcome, lines, commits, expected) && commits == CommitRecords(format, sink, offered)
    requires ReplyRun(format, sink, offered, OutputErrorOf(outcome)) && (outcome.Ok? ==> |offered| == expected)
    ensures ExportLaw(format, sink, outcome, lines, offered, commits, expected)
  {
    hide VerdictAt, Finished, CommitRecords, SumBytes;
  }

  /** The first reply over `all` that is not clean fails on the byte total only. */
  ghost predicate OverflowsFirst<E>(format: ImageFormat, sink: Sink<E>, all: seq<Output>) {
    exists k :: 0 <= k < |all| && Clean(format, sink, all, k) && EndsOnOverflow(format, sink, all[..k + 1])
  }

  /** Where nothing but the sink can stop an export, the sink's replies over all outputs decide it. */
  ghost predicate DecidedByReplies<E>(
    format: ImageFormat, sink: Sink<E>, outcome: Result<nat, ExportError<E>>, lines: seq<Line>,
    offered: seq<Output>, all: seq<Output>)
  {
    && offered <= all
    && (outcome.Ok? <==> Clean(format, sink, all, |all|))
    && (HasTerminal(lines) <==> !OverflowsFirst(format, sink, all))
  }

  lemma VerdictOfPrefix<E>(format: ImageFormat, sink: Sink<E>, all: seq<Output>, n: nat, i: nat)
    requires i < n <= |all|
    ensures VerdictAt(format, sink, all[..n], i) == VerdictAt(format, sink, all, i)
  {
    assert all[..n][..i] == all[..i];
  }

  lemma CleanOfPrefix<E>(format: ImageFormat, sink: Sink<E>, all: seq<Output>, n: nat, k: nat)
    requires k <= n <= |all|
    ensures Clean(format, sink, all[..n], k) <==> Clean(format, sink, all, k)
  {
    hide VerdictAt;
    forall i | 0 <= i < k
      ensures VerdictAt(format, sink, all[..n], i) == VerdictAt(format, sink, all, i)
    {
      VerdictOfPrefix(format, sink, all, n, i);
    }
  }

  lemma RepliesDecide<E>(
    format: ImageFormat, sink: Sink<E>, outcome: Result<nat, ExportError<E>>, lines: seq<Line>,
    offered: seq<Output>, commits: seq<Record>, all: seq<Output>)
    requires ExportLaw(format, sink, outcome, lines, offered, commits, |all|) && offered <= all
    requires outcome.Err? ==> outcome.error.ExportOutput?
    ensures DecidedByReplies(format, sink, outcome, lines, offered, all)
  {
    hide VerdictAt, SoundExport, CommitRecords, Clean, OverflowsFirst, EndsOnOverflow;
    var n := |offered|;
    assert offered == all[..n];
    if outcome.Ok? {
      NoErrorOnSuccess(outcome);
      assert offered == all;
      EndsClean(format, sink, all);
    } else {
      VerdictOfPrefix(format, sink, all, n, n - 1);
      CleanOfPrefix(format, sink, all, n, n - 1);
      StopsUnclean(format, sink, all, n - 1);
      assert all[..n - 1 + 1] == offered;
    }
  }

  /** Where every reply is clean, no prefix ends on an overflow. */
  lemma EndsClean<E>(format: ImageFormat, sink: Sink<E>, all: seq<Output>)
    requires Clean(format, sink, all, |all|)
    ensures !OverflowsFirst(format, sink, all) && !EndsOnOverflow(format, sink, all)
  {
    hide VerdictAt;
    if OverflowsFirst(format, sink, all) {
      OverflowIsNotClean(format, sink, all);
    }
  }

  /** The first reply that is not clean decides whether the replies overflow first. */
  lemma StopsUnclean<E>(format: ImageFormat, sink: Sink<E>, all: seq<Output>, n: nat)
    requires n < |all| && Clean(format, sink, all, n) && VerdictAt(format, sink, all, n) != None
    ensures !Clean(format, sink, all, |all|)
    ensures OverflowsFirst(format, sink, all) <==> EndsOnOverflow(format, sink, all[..n + 1])
  {
    hide VerdictAt;
    if OverflowsFirst(format, sink, all) {
      var k :| 0 <= k < |all| && Clean(format, sink, all, k) && EndsOnOverflow(format, sink, all[..k + 1]);
      VerdictOfPrefix(format, sink, all, k + 1, k);
      assert k == n;
    }
  }

  lemma OverflowIsNotClean<E>(format: ImageFormat, sink: Sink<E>, all: seq<Output>)
    requires OverflowsFirst(format, sink, all)
    ensures !Clean(format, sink, all, |all|)
  {
    var k :| 0 <= k < |all| && Clean(format, sink, all, k) && EndsOnOverflow(format, sink, all[..k + 1]);
    VerdictOfPrefix(format, sink, all, k + 1, k);
  }

  lemma NoErrorOnSuccess<E>(outcome: Result<nat, ExportError<E>>)
    ensures outcome.Ok? ==> OutputErrorOf(outcome) == None
  {
  }

  function FromExtracted(f: Extracted): Output {
    Output(f.frameId, f.ordinal, f.total, f.entry, f.pixels, None)
  }

  function FromRepresentative(f: Representative): Output {
    Output(f.frameId, f.ordinal, f.total, f.entry, f.pixels, Some(f.target))
  }

  lemma PlannedOutputsAreSound(index: FrameIndex, plan: Plan, log: seq<Extracted>)
    requires WellFormed(plan) && PlannedLog(index, plan, log)
    ensures forall i :: 0 <= i < |log| ==> SoundOutput(plan.count, i, FromExtracted(log[i]))
  {
    forall i | 0 <= i < |log|
      ensures SoundOutput(plan.count, i, FromExtracted(log[i]))
    {
      assert PlannedVisit(index, plan, i, log[i]);
    }
  }

  lemma EmptyBookHolds(expected: nat)
    ensures Holds(Book([Header(expected)], expected, 0, 0, false), [])
  {
  }

  lemma PlanIsUsable(index: FrameIndex, request: Request)
    requires request.stride > 0 && PlanExtraction(index, request).Ok?
    ensures WellFormed(PlanExtraction(index, request).value)
  {
  }

  /** How a batch result ends a plain export. */
  function PlainOutcome<E>(result: Result<Report, ExtractionError<OutputError<E>>>, bytes: nat)
    : (r: Result<nat, ExportError<E>>)
    ensures OutputErrorOf(r) == VisitorError(result)
    ensures r.Ok? <==> result.Ok?
    ensures r.Ok? ==> r.value == bytes
    ensures r.Err? && r.error.ExportCancelled? <==>
      result.Err? && result.error.Failed? && result.error.failure == Cancelled
    ensures result.Err? && result.error.Failed? && result.error.failure != Cancelled ==>
      r.error.ExportBatch? && r.error.failure == result.error.failure
    ensures r.Err? ==> !r.error.PlanFailed? && !r.error.ExportGroups?
  {
    match result
    case Err(Failed(Cancelled)) => Err(ExportCancelled)
    case Err(Failed(failure)) => Err(ExportBatch(failure))
    case Err(Visitor(error)) => Err(ExportOutput(error))
    case Ok(_) => Ok(bytes)
  }

  /** How a group extraction result ends a unique-frame export. */
  function GroupOutcome<E>(result: Result<GroupReport, GroupError<OutputError<E>>>, bytes: nat)
    : (r: Result<nat, ExportError<E>>)
    ensures OutputErrorOf(r) == if result.Err? && result.error.GroupVisitor? then Some(result.error.error) else None
    ensures r.Ok? <==> result.Ok?
    ensures r.Ok? ==> r.value == bytes
    ensures r.Err? && r.error.ExportCancelled? <==>
      result.Err? && result.error.GroupBatch? && result.error.failure == Cancelled
    ensures result.Err? && result.error.GroupBatch? && result.error.failure != Cancelled ==>
      r.error.ExportBatch? && r.error.failure == result.error.failure
    ensures result.Err? && result.error.GroupVisitor? ==> r.error.ExportOutput?
    ensures result.Err? && !result.error.GroupBatch? && !result.error.GroupVisitor? ==>
      && r.error.ExportGroups?
      && r.error.code == (if result.error.GroupIncompleteIndex? then "incomplete_index"
                          else if result.error.GroupEmptyIndex? then "empty_index"
                          else if result.error.GroupNoGroups? then "no_groups"
                          else if result.error.GroupPlan? then "selection_error" else "group_navigation_error")
  {
    match result
    case Err(GroupBatch(Cancelled)) => Err(ExportCancelled)
    case Err(GroupBatch(failure)) => Err(ExportBatch(failure))
    case Err(GroupVisitor(error)) => Err(ExportOutput(error))
    case Err(GroupIncompleteIndex) => Err(ExportGroups("incomplete_index"))
    case Err(GroupEmptyIndex) => Err(ExportGroups("empty_index"))
    case Err(GroupNoGroups) => Err(ExportGroups("no_groups"))
    case Err(GroupPlan(_)) => Err(ExportGroups("selection_error"))
    case Err(_) => Err(ExportGroups("group_navigation_error"))
    case Ok(_) => Ok(bytes)
  }

  /** Offer `i` is the `i`-th planned frame with the metadata of the index. */
  ghost predicate PlannedOffers(index: FrameIndex, plan: Plan, offered: seq<Output>)
    requires WellFormed(plan)
  {
    && |offered| <= plan.count
    && forall i :: 0 <= i < |offered| ==>
         && PlannedId(plan, i) < |index.entries|
         && offered[i] == Output(PlannedId(plan, i), i + 1, plan.count, index.entries[PlannedId(plan, i)],
                                 offered[i].pixels, None)
  }

  /** Offer `i` as a true decoder plays it. */
  function TrueOutput(index: FrameIndex, plan: Plan, truth: seq<DecodedFrame>, i: nat): Output
    requires WellFormed(plan) && plan.last < |index.entries| && TrueTimeline(index, truth) && i < plan.count
  {
    PlannedIffFits(plan, i);
    TimelineAt(index, truth, PlannedId(plan, i));
    Output(PlannedId(plan, i), i + 1, plan.count, index.entries[PlannedId(plan, i)],
           PixelsOf(truth[PlannedId(plan, i)]), None)
  }

  function TrueOutputs(index: FrameIndex, plan: Plan, truth: seq<DecodedFrame>): (r: seq<Output>)
    requires WellFormed(plan) && plan.last < |index.entries| && TrueTimeline(index, truth)
    ensures |r| == plan.count
  {
    seq(plan.count, i requires 0 <= i < plan.count => TrueOutput(index, plan, truth, i))
  }

  lemma OffersOfLog(index: FrameIndex, plan: Plan, log: seq<Extracted>)
    requires WellFormed(plan) && PlannedLog(index, plan, log)
    ensures PlannedOffers(index, plan, Offered(FromExtracted, log))
  {
    hide PlannedId, WellFormed;
    var offered := Offered(FromExtracted, log);
    forall i | 0 <= i < |offered|
      ensures PlannedId(plan, i) < |index.entries|
      ensures offered[i] == Output(PlannedId(plan, i), i + 1, plan.count, index.entries[PlannedId(plan, i)],
                                   offered[i].pixels, None)
    {
      assert PlannedVisit(index, plan, i, log[i]) && offered[i] == FromExtracted(log[i]);
    }
  }

  lemma TrueOffer(index: FrameIndex, plan: Plan, truth: seq<DecodedFrame>, i: nat, v: Extracted)
    requires WellFormed(plan) && plan.last < |index.entries| && TrueTimeline(index, truth) && i < plan.count
    requires PlannedVisit(index, plan, i, v) && TrueVisit(truth, v)
    ensures FromExtracted(v) == TrueOutput(index, plan, truth, i)
  {
    hide TrueTimeline, PlannedId, WellFormed;
  }

  lemma TrueOffersOfLog(index: FrameIndex, plan: Plan, log: seq<Extracted>, truth: seq<DecodedFrame>)
    requires WellFormed(plan) && PlannedLog(index, plan, log)
    requires plan.last < |index.entries| && TrueTimeline(index, truth) && TrueLog(truth, log)
    ensures Offered(FromExtracted, log) <= TrueOutputs(index, plan, truth)
  {
    hide TrueTimeline, WellFormed, TrueOutput, PlannedVisit, TrueVisit;
    forall i | 0 <= i < |log|
      ensures FromExtracted(log[i]) == TrueOutputs(index, plan, truth)[i]
    {
      TrueOffer(index, plan, truth, i, log[i]);
    }
  }

  /** Every offer has the pixels of its own picture of the tape, which matched its entry, at rising positions. */
  ghost predicate OffersFromTape(tape: seq<Pull>, offered: seq<Output>, positions: seq<nat>) {
    && |positions| == |offered|
    && (forall i, j :: 0 <= i < j < |positions| ==> positions[i] < positions[j])
    && (forall i :: 0 <= i < |offered| ==> PictureOf(tape, positions[i], offered[i].entry, offered[i].pixels))
  }

  lemma OfferedFromTape(tape: seq<Pull>, log: seq<Extracted>, positions: seq<nat>)
    requires FromTape(tape, log, positions, |tape|)
    ensures OffersFromTape(tape, Offered(FromExtracted, log), positions)
  {
    hide PictureOf;
    forall i | 0 <= i < |log|
      ensures PictureOf(tape, positions[i], FromExtracted(log[i]).entry, FromExtracted(log[i]).pixels)
    {
      assert PictureAt(tape, positions[i], log[i]);
    }
  }

  lemma RowsFromTape(tape: seq<Pull>, emitted: seq<Representative>, positions: seq<nat>)
    requires EmittedFromTape(tape, emitted, positions)
    ensures OffersFromTape(tape, Offered(FromRepresentative, emitted), positions)
  {
    hide PictureOf;
    var offered := Offered(FromRepresentative, emitted);
    forall i | 0 <= i < |offered|
      ensures PictureOf(tape, positions[i], offered[i].entry, offered[i].pixels)
    {
      assert offered[i] == FromRepresentative(emitted[i]);
    }
  }

  /** Plain export of a selection. Against any decoder the export law holds over a planned prefix of offers,
      each with the pixels of its own decoded picture; with a true decoder and no cancellation the sink's
      replies alone decide the outcome. */
  method ExportRequest<E>(
    index: FrameIndex, request: Request, format: ImageFormat, attempts: seq<Attempt>, polls: seq<bool>, sink: Sink<E>,
    ghost truth: seq<DecodedFrame>)
    returns (r: Result<nat, ExportError<E>>, lines: seq<Line>, offered: seq<Output>, commits: seq<Record>,
             ghost tape: seq<Pull>, ghost positions: seq<nat>, ghost asked: int)
    requires request.stride > 0
    ensures offered != [] ==> TapeOf(attempts, tape) && OffersFromTape(tape, offered, positions)
    ensures PollsAnswered(polls, asked, r.Err? && r.error.ExportCancelled?) && asked >= Min(|polls|, |offered|)
    ensures TerminalTells(r, lines)
    ensures PlanExtraction(index, request).Ok? ==>
      && (forall i | 0 <= i < |offered| :: Requested(index, request, offered[i].frameId))
      && (forall i, j | 0 <= i < j < |offered| :: offered[i].frameId < offered[j].frameId)
    ensures r.Ok? ==> forall id: u64 | Requested(index, request, id) :: OfferedFrame(offered, id)
    ensures PlanExtraction(index, request).Err? <==> r.Err? && r.error.PlanFailed?
    ensures PlanExtraction(index, request).Err? ==> lines == [] && offered == [] && commits == []
    ensures PlanExtraction(index, request).Ok? ==>
      var plan := PlanExtraction(index, request).value;
      && WellFormed(plan) && PlannedOffers(index, plan, offered)
      && ExportLaw(format, sink, r, lines, offered, commits, plan.count)
    ensures PlanExtraction(index, request).Ok? && LookupsInIndex(index, request)
            && CooperativeRun(index, truth, attempts, polls) ==>
      var plan := PlanExtraction(index, request).value;
      && WellFormed(plan) && plan.last < |index.entries| && TrueTimeline(index, truth)
      && DecidedByReplies(format, sink, r, lines, offered, TrueOutputs(index, plan, truth))
  {
    hide PlanExtraction, WellFormed, PlannedLog, VisitorOutcome, Holds, FoldOutputs, OutputVisit, SoundOutput,
         SoundExport, Recorded, EndExport, OutputErrorOf, VisitorError, PlainOutcome, TrueTimeline, TrueLog, FromTape,
         ReplyRun, CommitRecords, ExportLaw, DecidedByReplies, PlannedOffers, TrueOutputs, ValidatePlan, Offered,
         CooperativeAttempt, TapeOf, OffersFromTape, PollsAnswered, TerminalTells, Requested, OfferedFrame, Reconciled,
         InStep, Batch.Heard, Batch.Due, Batch.Explained, Batch.StartedOn, Batch.OnAttempt, Batch.LastOpened,
         Batch.Scripted, Batch.Admitted, SeekAnchor, HasTerminal;
    lines, offered, commits, tape, positions, asked := [], [], [], [], [], 0;
    var planned := PlanExtraction(index, request);
    if planned.Err? {
      NoPolls(polls);
      NoLines<E>(planned.error);
      return Err(PlanFailed(planned.error)), [], [], [], [], [], 0;
    }
    var plan := planned.value;
    PlanIsUsable(index, request);
    EmptyBookHolds(plan.count);
    var start := ExportState(Book([Header(plan.count)], plan.count, 0, 0, false), [], []);
    var batch := new Batch(index, attempts, polls);
    var outcome: Result<Report, ExtractionError<OutputError<E>>> :=
      batch.ExtractRgbaPlan(plan, OutputVisit(format, sink, FromExtracted, start), truth);
    batch.PollsOfRun(outcome.Err? && outcome.error.Failed? && outcome.error.failure == Cancelled);
    asked := batch.Asked();
    var st := FoldOutputs(format, sink, FromExtracted, start, batch.log);
    r := PlainOutcome(outcome, st.book.bytes);
    lines, offered, commits := EndExport(st, r), st.offered, st.commits;
    tape, positions := batch.tape, batch.positions;
    if batch.log != [] {
      OfferedFromTape(tape, batch.log, positions);
    }
    PlannedOutputsAreSound(index, plan, batch.log);
    OffersOfLog(index, plan, batch.log);
    ExportedLaw(format, sink, FromExtracted, start, batch.log, r, plan.count);
    LawTells(format, sink, r, lines, offered, commits, plan.count);
    OffersAreRequested(index, request, offered);
    if LookupsInIndex(index, request) && CooperativeRun(index, truth, attempts, polls) {
      PlanIsInIndex(index, request);
      TrueOffersOfLog(index, plan, batch.log, truth);
      OutcomeKinds(outcome, st.book.bytes);
      RepliesDecide(format, sink, r, lines, offered, commits, TrueOutputs(index, plan, truth));
    }
  }

  ghost predicate OfferedFrame(offered: seq<Output>, id: u64) {
    exists i | 0 <= i < |offered| :: offered[i].frameId == id
  }

  /** Offers of the plan are requested frames in rising order; all offers of the plan are all requested frames. */
  lemma OffersAreRequested(index: FrameIndex, request: Request, offered: seq<Output>)
    requires request.stride > 0 && PlanExtraction(index, request).Ok?
    requires WellFormed(PlanExtraction(index, request).value)
    requires PlannedOffers(index, PlanExtraction(index, request).value, offered)
    ensures forall i | 0 <= i < |offered| :: Requested(index, request, offered[i].frameId)
    ensures forall i, j | 0 <= i < j < |offered| :: offered[i].frameId < offered[j].frameId
    ensures |offered| == PlanExtraction(index, request).value.count ==>
      forall id: u64 | Requested(index, request, id) :: OfferedFrame(offered, id)
  {
    var plan := PlanExtraction(index, request).value;
    hide PlanExtraction, Requested, PlannedId;
    forall i | 0 <= i < |offered|
      ensures Requested(index, request, offered[i].frameId)
    {
      PlannedIffRequested(index, request, offered[i].frameId);
      assert offered[i].frameId == PlannedId(plan, i);
    }
    forall i, j | 0 <= i < j < |offered|
      ensures offered[i].frameId < offered[j].frameId
    {
      PlannedIdsIncrease(plan, i, j);
      assert offered[i].frameId == PlannedId(plan, i) && offered[j].frameId == PlannedId(plan, j);
    }
    if |offered| == plan.count {
      forall id: u64 | Requested(index, request, id)
        ensures OfferedFrame(offered, id)
      {
        PlannedIffRequested(index, request, id);
        var i: nat :| i < plan.count && id == PlannedId(plan, i);
        assert offered[i].frameId == id;
      }
    }
  }

  lemma NoLines<E>(error: PlanError)
    ensures TerminalTells<E>(Err(PlanFailed(error)), [])
  {
  }

  lemma LawTells<E>(
    format: ImageFormat, sink: Sink<E>, outcome: Result<nat, ExportError<E>>, lines: seq<Line>,
    offered: seq<Output>, commits: seq<Record>, expected: nat)
    requires ExportLaw(format, sink, outcome, lines, offered, commits, expected)
    ensures TerminalTells(outcome, lines) && (outcome.Ok? ==> |offered| == expected)
  {
    hide SoundExport, ReplyRun, CommitRecords, TerminalTells, HasTerminal, EndsOnOverflow;
    TerminalOfOutcome(outcome, lines, commits, expected);
  }

  /** From a visitor history to the export law. */
  lemma ExportedLaw<F, E>(
    format: ImageFormat, sink: Sink<E>, toOutput: F -> Output, start: ExportState, log: seq<F>,
    outcome: Result<nat, ExportError<E>>, expected: nat)
    requires start == ExportState(Book([Header(expected)], expected, 0, 0, false), [], [])
    requires VisitorOutcome(OutputVisit(format, sink, toOutput, start), log, OutputErrorOf(outcome))
    requires forall i :: 0 <= i < |log| ==> SoundOutput(expected, i, toOutput(log[i]))
    requires outcome.Ok? ==>
      |log| == expected && outcome.value == FoldOutputs(format, sink, toOutput, start, log).book.bytes
    ensures var st := FoldOutputs(format, sink, toOutput, start, log);
      && st.offered == Offered(toOutput, log)
      && ExportLaw(format, sink, outcome, EndExport(st, outcome), st.offered, st.commits, expected)
  {
    hide Holds, VisitorOutcome, OutputVisit, FoldOutputs, SoundOutput, SoundExport, Recorded, EndExport, ReplyRun,
         CommitRecords, ExportLaw;
    EmptyBookHolds(expected);
    NoErrorOnSuccess(outcome);
    OutputRun(format, sink, toOutput, start, log, OutputErrorOf(outcome));
    FoldTraces(format, sink, toOutput, start, log);
    RunFollowsReplies(format, sink, toOutput, start, log, OutputErrorOf(outcome));
    var st := FoldOutputs(format, sink, toOutput, start, log);
    EndExportIsSound(st, outcome, expected);
    LawOfRun(format, sink, outcome, EndExport(st, outcome), st.offered, st.commits, expected);
  }

  lemma PlanIsInIndex(index: FrameIndex, request: Request)
    requires request.stride > 0 && PlanExtraction(index, request).Ok? && LookupsInIndex(index, request)
    ensures var plan := PlanExtraction(index, request).value;
      WellFormed(plan) && plan.last < |index.entries| && ValidatePlan(index, plan).Ok?
      && index.complete && index.frameCount.Some?
  {
    PlansAreWellFormed(index, request);
  }

  /** A batch that only its visitor can stop ends the export in success or an output error. */
  lemma OutcomeKinds<E>(result: Result<Report, ExtractionError<OutputError<E>>>, bytes: nat)
    requires result.Ok? || result.error.Visitor?
    ensures PlainOutcome(result, bytes).Ok? || PlainOutcome(result, bytes).error.ExportOutput?
  {
  }

  lemma RepresentativeOutputsAreSound(index: FrameIndex, rows: seq<Group>, emitted: seq<Representative>)
    requires CoversTimeline(rows, |index.entries|) && UniquePrefix(index, rows, emitted)
    ensures forall i :: 0 <= i < |emitted| ==> SoundOutput(|rows|, i, FromRepresentative(emitted[i]))
  {
  }

  /** Offer `i` is the first frame of group `i`, with its entry and group. */
  ghost predicate RowOffers(index: FrameIndex, rows: seq<Group>, offered: seq<Output>) {
    && |offered| <= |rows|
    && forall i :: 0 <= i < |offered| ==>
         && rows[i].first < |index.entries|
         && offered[i] == Output(rows[i].first, i + 1, |rows|, index.entries[rows[i].first], offered[i].pixels,
                                 Some(Target(i, |rows|, rows[i])))
  }

  /** Offer `i` as a true decoder plays it. */
  function TrueRowOutput(index: FrameIndex, rows: seq<Group>, truth: seq<DecodedFrame>, i: nat): Output
    requires TrueTimeline(index, truth) && CoversTimeline(rows, |index.entries|) && i < |rows|
  {
    RowInTimeline(rows, |index.entries|, i);
    TimelineAt(index, truth, rows[i].first);
    Output(rows[i].first, i + 1, |rows|, index.entries[rows[i].first], PixelsOf(truth[rows[i].first]),
           Some(Target(i, |rows|, rows[i])))
  }

  function TrueRowOutputs(index: FrameIndex, rows: seq<Group>, truth: seq<DecodedFrame>): (r: seq<Output>)
    requires TrueTimeline(index, truth) && CoversTimeline(rows, |index.entries|)
    ensures |r| == |rows|
  {
    seq(|rows|, i requires 0 <= i < |rows| => TrueRowOutput(index, rows, truth, i))
  }

  lemma RowInTimeline(rows: seq<Group>, frameCount: nat, i: nat)
    requires CoversTimeline(rows, frameCount) && i < |rows|
    ensures rows[i].first <= rows[i].last < frameCount
  {
    if i < |rows| - 1 {
      RowsAreOrdered(rows, frameCount, i, |rows| - 1);
    }
  }

  lemma OffersOfRows(index: FrameIndex, rows: seq<Group>, emitted: seq<Representative>)
    requires UniquePrefix(index, rows, emitted)
    ensures RowOffers(index, rows, Offered(FromRepresentative, emitted))
  {
    var offered := Offered(FromRepresentative, emitted);
    forall i | 0 <= i < |offered|
      ensures rows[i].first < |index.entries|
      ensures offered[i] == Output(rows[i].first, i + 1, |rows|, index.entries[rows[i].first], offered[i].pixels,
                                   Some(Target(i, |rows|, rows[i])))
    {
      assert offered[i] == FromRepresentative(emitted[i]);
    }
  }

  lemma TrueOffersOfRows(
    index: FrameIndex, rows: seq<Group>, emitted: seq<Representative>, truth: seq<DecodedFrame>)
    requires CoversTimeline(rows, |index.entries|) && UniquePrefix(index, rows, emitted)
    requires TrueTimeline(index, truth) && TrueEmissions(rows, truth, emitted)
    ensures Offered(FromRepresentative, emitted) <= TrueRowOutputs(index, rows, truth)
  {
    TimelineLength(index, truth);
    hide CoversTimeline, TrueTimeline;
    forall i | 0 <= i < |emitted|
      ensures FromRepresentative(emitted[i]) == TrueRowOutputs(index, rows, truth)[i]
    {
      TimelineAt(index, truth, rows[i].first);
      assert TrueRowOutputs(index, rows, truth)[i] == TrueRowOutput(index, rows, truth, i);
    }
  }

  /** Unique-frame export over covering rows: the same law with one record per group, and the only
      failures left are decoding, cancellation, the sink and the byte total. */
  method ExportGroupRepresentatives<E>(
    index: FrameIndex, rows: seq<Group>, format: ImageFormat, attempts: seq<Attempt>, polls: seq<bool>, sink: Sink<E>,
    ghost truth: seq<DecodedFrame>)
    returns (r: Result<nat, ExportError<E>>, lines: seq<Line>, offered: seq<Output>, commits: seq<Record>,
             ghost tape: seq<Pull>, ghost positions: seq<nat>, ghost asked: int)
    ensures CoveredIndex(index, rows) && offered != [] ==>
      TapeOf(attempts, tape) && OffersFromTape(tape, offered, positions)
    ensures PollsAnswered(polls, asked, r.Err? && r.error.ExportCancelled?)
    ensures CoveredIndex(index, rows) ==> asked >= Min(|polls|, |offered|) && TerminalTells(r, lines)
    ensures |rows| == 0 ==> r == Err(ExportGroups("no_groups")) && lines == [] && offered == [] && commits == []
    ensures CoveredIndex(index, rows) ==>
      && RowOffers(index, rows, offered)
      && ExportLaw(format, sink, r, lines, offered, commits, |rows|)
      && (r.Err? ==> r.error.ExportBatch? || r.error.ExportCancelled? || r.error.ExportOutput?)
    ensures CoveredIndex(index, rows) && CooperativeRun(index, truth, attempts, polls) ==>
      DecidedByReplies(format, sink, r, lines, offered, TrueRowOutputs(index, rows, truth))
  {
    hide CoversTimeline, UniquePrefix, VisitorOutcome, Holds, FoldOutputs, OutputVisit, SoundOutput, SoundExport,
         Recorded, EndExport, OutputErrorOf, GroupOutcome, TrueTimeline, TrueEmissions, CooperativeAttempt, ReplyRun,
         CommitRecords, ExportLaw, DecidedByReplies, RowOffers, TrueRowOutputs, Offered, TapeOf, EmittedFromTape,
         OffersFromTape, PollsAnswered, TerminalTells, HasTerminal;
    lines, offered, commits, tape, positions, asked := [], [], [], [], [], 0;
    if CoveredIndex(index, rows) {
      CoveringRows(rows, |index.entries|);
    }
    if |rows| == 0 {
      NoPolls(polls);
      return Err(ExportGroups("no_groups")), [], [], [], [], [], 0;
    }
    var start := ExportState(Book([Header(|rows|)], |rows|, 0, 0, false), [], []);
    var visit := OutputVisit(format, sink, FromRepresentative, start);
    var outcome, emitted;
    outcome, emitted, tape, positions, asked :=
      ExtractGroupRepresentatives(index, rows, attempts, polls, visit, truth);
    var st := FoldOutputs(format, sink, FromRepresentative, start, emitted);
    r := GroupOutcome(outcome, st.book.bytes);
    lines, offered, commits := EndExport(st, r), st.offered, st.commits;
    if CoveredIndex(index, rows) {
      if emitted != [] {
        RowsFromTape(tape, emitted, positions);
      }
      RepresentativeOutputsAreSound(index, rows, emitted);
      OffersOfRows(index, rows, emitted);
      ExportedLaw(format, sink, FromRepresentative, start, emitted, r, |rows|);
      LawTells(format, sink, r, lines, offered, commits, |rows|);
      if CooperativeRun(index, truth, attempts, polls) {
        TrueOffersOfRows(index, rows, emitted, truth);
        RepliesDecide(format, sink, r, lines, offered, commits, TrueRowOutputs(index, rows, truth));
      }
    }
  }

  // ---------------------------------------------------------------- an export without a terminal

  /** A sink that commits the largest possible artifact first and one more byte with every later frame. */
  function OverflowingSink(format: ImageFormat): Sink<()> {
    (history: seq<Output>, o: Output) => Committed(format, if history == [] then U64_MAX else 1)
  }

  /** With this sink any two outputs overflow the byte total at the second. */
  lemma SecondFrameOverflows(format: ImageFormat, all: seq<Output>)
    requires |all| >= 2
    ensures OverflowsFirst(format, OverflowingSink(format), all)
  {
    hide RecordOf, CommitRecords, SumBytes;
    var sink := OverflowingSink(format);
    FirstCommit(format, all[0]);
    assert all[..0] == [] && all[..1] == [all[0]] && all[..2][..1] == [all[0]];
    assert CommitRecords(format, sink, []) == [] by { NothingCommitted(format, sink); }
    assert VerdictAt(format, sink, all, 0) == None;
    assert EndsOnOverflow(format, sink, all[..1 + 1]) && Clean(format, sink, all, 1);
  }

  lemma NothingCommitted<E>(format: ImageFormat, sink: Sink<E>)
    ensures CommitRecords(format, sink, []) == [] && SumBytes([]) == 0
  {
  }

  lemma FirstCommit(format: ImageFormat, o: Output)
    ensures SumBytes([]) == 0
    ensures SumBytes(CommitRecords(format, OverflowingSink(format), [o])) == U64_MAX
  {
    var sink := OverflowingSink(format);
    NothingCommitted(format, sink);
    CommitRecordsStep(format, sink, [], o);
    assert [] + [o] == [o];
    var record := RecordOf(format, o, U64_MAX);
    hide FrameFileName, CommitRecords;
    assert [] + [record] == [record] && [record][..0] == [];
    assert SumBytes([record]) == SumBytes([record][..0]) + record.bytes;
  }

  /** The failing run itself: any such export of two or more frames ends without a terminal line. */
  method ExportWithoutTerminal(
    index: FrameIndex, request: Request, format: ImageFormat, attempts: seq<Attempt>, polls: seq<bool>,
    ghost truth: seq<DecodedFrame>)
    returns (r: Result<nat, ExportError<()>>, lines: seq<Line>)
    requires request.stride > 0 && PlanExtraction(index, request).Ok? && LookupsInIndex(index, request)
    requires PlanExtraction(index, request).value.count >= 2 && CooperativeRun(index, truth, attempts, polls)
    ensures r.Err? && !HasTerminal(lines)
  {
    hide PlanExtraction, ExportLaw, TrueOutputs, CooperativeRun, TrueTimeline, OverflowsFirst, Clean, HasTerminal;
    var sink := OverflowingSink(format);
    var offered, commits;
    ghost var tape, positions, asked;
    r, lines, offered, commits, tape, positions, asked :=
      ExportRequest(index, request, format, attempts, polls, sink, truth);
    ghost var all := TrueOutputs(index, PlanExtraction(index, request).value, truth);
    SecondFrameOverflows(format, all);
    OverflowIsNotClean(format, sink, all);
  }
}
