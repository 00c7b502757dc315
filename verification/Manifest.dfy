/** Append-only export manifest: one header, frame lines, one terminal. The writer is a working one. */
module Manifest {
  import opened Common
  import opened Frames
  import opened Grouping
  import opened GroupNavigation

  datatype Status = Complete | Aborted | FailedWith(code: string)

  datatype Record = Record(
    frameId: u64, ordinal: nat, total: nat, entry: Entry, fileName: string, bytes: u64, group: Option<Target>)

  datatype Line =
    | Header(expected: nat)
    | FrameLine(record: Record)
    | Terminal(status: Status, emitted: nat, expected: nat, bytes: nat)

  datatype ManifestError =
    | ZeroExpected
    | AlreadyFinished
    | WrongOrdinal
    | WrongTotal
    | WrongEntry
    | BadFileName
    | ZeroBytes
    | BadGroup
    | ByteTotalOverflow
    | IncompleteCount

  datatype Book = Book(lines: seq<Line>, expected: nat, emitted: nat, bytes: nat, finished: bool)

  function NewBook(expected: nat): Result<Book, ManifestError> {
    if expected == 0 then Err(ZeroExpected) else Ok(Book([Header(expected)], expected, 0, 0, false))
  }

  // ---------------------------------------------------------------- file names

  function Digit(d: nat): char
    requires d < 10
  {
    ('0' as int + d) as char
  }

  function Digits(n: nat, width: nat): (r: string)
    ensures |r| == width
    ensures forall c :: c in r ==> '0' <= c <= '9'
  {
    if width == 0 then "" else Digits(n / 10, width - 1) + [Digit(n % 10)]
  }

  function Pow10(n: nat): nat {
    if n == 0 then 1 else 10 * Pow10(n - 1)
  }

  /** Byte order of equal-length strings, as a directory listing sorts them. */
  ghost predicate SortsBefore(a: string, b: string) {
    exists k :: 0 <= k < |a| && k < |b| && a[..k] == b[..k] && a[k] < b[k]
  }

  function FrameFileName(frameId: u64, extension: string): string {
    "frame_" + Digits(frameId, 20) + "." + extension
  }

  lemma {:induction false} DigitsSort(a: nat, b: nat, width: nat)
    requires a < b < Pow10(width)
    ensures exists k :: 0 <= k < width && Digits(a, width)[..k] == Digits(b, width)[..k]
                        && Digits(a, width)[k] < Digits(b, width)[k]
  {
    var p, q := Digits(a / 10, width - 1), Digits(b / 10, width - 1);
    if a / 10 == b / 10 {
      assert Digits(a, width)[..width - 1] == p == q == Digits(b, width)[..width - 1];
    } else {
      DigitsSort(a / 10, b / 10, width - 1);
      var k :| 0 <= k < width - 1 && p[..k] == q[..k] && p[k] < q[k];
      assert Digits(a, width)[..k] == p[..k] && Digits(b, width)[..k] == q[..k];
    }
  }

  lemma TwentyDigitsSuffice()
    ensures Pow10(20) == 100_000_000_000_000_000_000
  {
    assert Pow10(5) == 100_000;
    assert Pow10(10) == 10_000_000_000;
    assert Pow10(15) == 1_000_000_000_000_000;
  }

  /** Exported file names sort in frame order, so they are also distinct. */
  lemma FileNamesSortByFrame(a: u64, b: u64, extension: string)
    requires a < b
    ensures SortsBefore(FrameFileName(a, extension), FrameFileName(b, extension))
  {
    TwentyDigitsSuffice();
    hide Digits, Pow10;
    DigitsSort(a, b, 20);
    var x, y := Digits(a, 20), Digits(b, 20);
    var k :| 0 <= k < 20 && x[..k] == y[..k] && x[k] < y[k];
    var s, t := FrameFileName(a, extension), FrameFileName(b, extension);
    assert s[..6 + k] == "frame_" + x[..k] && t[..6 + k] == "frame_" + y[..k];
    assert s[6 + k] == x[k] && t[6 + k] == y[k];
  }

  /** The number a string of decimal digits spells. */
  function Value(digits: string): int {
    if digits == "" then 0 else 10 * Value(digits[..|digits| - 1]) + (digits[|digits| - 1] as int - '0' as int)
  }

  lemma {:induction false} DigitsSpell(n: nat, width: nat)
    requires n < Pow10(width)
    ensures Value(Digits(n, width)) == n
  {
    if width > 0 {
      DigitsSpell(n / 10, width - 1);
      assert Digits(n, width)[..width - 1] == Digits(n / 10, width - 1);
    }
  }

  /** A file name spells its frame id in twenty digits between a fixed prefix and the extension. */
  lemma FileNameSpellsFrame(id: u64, extension: string)
    ensures var name := FrameFileName(id, extension);
      && |name| == 27 + |extension| && name[..6] == "frame_" && name[26] == '.' && name[27..] == extension
      && (forall c | c in name[6..26] :: '0' <= c <= '9') && Value(name[6..26]) == id
  {
    TwentyDigitsSuffice();
    hide Digits, Pow10, Value;
    DigitsSpell(id, 20);
    assert FrameFileName(id, extension)[6..26] == Digits(id, 20);
  }

  predicate ValidLeaf(name: string) {
    && (exists c :: c in name && c !in " \t\r\n")
    && '/' !in name && '\\' !in name
  }

  predicate ValidGroup(frameId: u64, t: Target) {
    && 0 < t.groupCount && t.ordinal < t.groupCount
    && t.group.first <= t.group.representative <= t.group.last
    && t.group.representative == frameId
    && t.group.count == t.group.last - t.group.first + 1
  }

  /** The first check that refuses a record, if any. */
  function Refusal(b: Book, r: Record): Option<ManifestError> {
    if b.finished then Some(AlreadyFinished)
    else if r.ordinal != b.emitted + 1 then Some(WrongOrdinal)
    else if r.total != b.expected then Some(WrongTotal)
    else if r.frameId != r.entry.frameId then Some(WrongEntry)
    else if !ValidLeaf(r.fileName) then Some(BadFileName)
    else if r.bytes == 0 then Some(ZeroBytes)
    else if r.group.Some? && !ValidGroup(r.frameId, r.group.value) then Some(BadGroup)
    else if b.bytes + r.bytes > U64_MAX then Some(ByteTotalOverflow)
    else None
  }

  function Append(b: Book, r: Record): Book {
    b.(lines := b.lines + [FrameLine(r)], emitted := b.emitted + 1, bytes := b.bytes + r.bytes)
  }

  function Close(b: Book, status: Status): Book {
    b.(lines := b.lines + [Terminal(status, b.emitted, b.expected, b.bytes)], finished := true)
  }

  /** The check that refuses a terminal, if any. */
  function FinishRefusal(b: Book, status: Status): Option<ManifestError> {
    if status == Complete && b.emitted != b.expected then Some(IncompleteCount)
    else if b.finished then Some(AlreadyFinished)
    else None
  }

  /** A record is taken exactly when it is the next one of an open manifest and sound in itself. */
  lemma RecordTakenIff(b: Book, r: Record)
    ensures Refusal(b, r) == None <==>
      && !b.finished && r.ordinal == b.emitted + 1 && r.total == b.expected
      && r.frameId == r.entry.frameId && r.bytes > 0 && b.bytes + r.bytes <= 0xFFFF_FFFF_FFFF_FFFF
      && '/' !in r.fileName && '\\' !in r.fileName
      && (exists c :: c in r.fileName && c != ' ' && c != '\t' && c != '\r' && c != '\n')
      && (r.group.Some? ==>
            var t := r.group.value;
            && t.ordinal < t.groupCount && t.group.representative == r.frameId
            && t.group.first <= r.frameId <= t.group.last
            && t.group.count == t.group.last - t.group.first + 1)
  {
    LeafHasText(r.fileName);
  }

  lemma LeafHasText(name: string)
    ensures (exists c :: c in name && c !in " \t\r\n") <==>
      (exists c :: c in name && c != ' ' && c != '\t' && c != '\r' && c != '\n')
  {
    if c :| c in name && c !in " \t\r\n" {
      assert ' ' in " \t\r\n" && '\t' in " \t\r\n" && '\r' in " \t\r\n" && '\n' in " \t\r\n";
    }
    if c :| c in name && c != ' ' && c != '\t' && c != '\r' && c != '\n' {
      assert c !in " \t\r\n";
    }
  }

  /** What a refusal says is what is wrong. */
  lemma RefusalNamesDefect(b: Book, r: Record)
    ensures Refusal(b, r) == Some(AlreadyFinished) <==> b.finished
    ensures Refusal(b, r) == Some(WrongOrdinal) ==> r.ordinal != b.emitted + 1
    ensures Refusal(b, r) == Some(WrongTotal) ==> r.total != b.expected
    ensures Refusal(b, r) == Some(WrongEntry) ==> r.frameId != r.entry.frameId
    ensures Refusal(b, r) == Some(BadFileName) ==> !ValidLeaf(r.fileName)
    ensures Refusal(b, r) == Some(ZeroBytes) ==> r.bytes == 0
    ensures Refusal(b, r) == Some(BadGroup) ==> r.group.Some? && !ValidGroup(r.frameId, r.group.value)
    ensures Refusal(b, r) == Some(ByteTotalOverflow) ==> b.bytes + r.bytes > U64_MAX
    ensures Refusal(b, r) != Some(ZeroExpected) && Refusal(b, r) != Some(IncompleteCount)
  {
  }

  /** A manifest ends once, and says complete only with every expected frame. */
  lemma EndedIff(b: Book, status: Status)
    ensures FinishRefusal(b, status) == None <==> !b.finished && (status == Complete ==> b.emitted == b.expected)
    ensures FinishRefusal(b, status) == Some(IncompleteCount) <==> status == Complete && b.emitted != b.expected
    ensures NewBook(b.expected).Err? <==> b.expected == 0
  {
  }

  /** The writer object. A refused record or terminal leaves the manifest as it was. */
  class ExtractionManifestWriter {
    var lines: seq<Line>
    const expected: nat
    var emitted: nat
    var bytes: nat
    var finished: bool

    function Contents(): Book
      reads this
    {
      Book(lines, expected, emitted, bytes, finished)
    }

    constructor (expected: nat)
      requires expected > 0
      ensures NewBook(expected) == Ok(Contents())
    {
      this.expected := expected;
      lines, emitted, bytes, finished := [Header(expected)], 0, 0, false;
    }

    method WriteFrame(r: Record) returns (error: Option<ManifestError>)
      modifies this
      ensures error == Refusal(old(Contents()), r)
      ensures Contents() == if error.None? then Append(old(Contents()), r) else old(Contents())
    {
      if finished {
        return Some(AlreadyFinished);
      }
      var ordinal := emitted + 1;
      if r.ordinal != ordinal {
        return Some(WrongOrdinal);
      }
      if r.total != expected {
        return Some(WrongTotal);
      }
      if r.frameId != r.entry.frameId {
        return Some(WrongEntry);
      }
      if !ValidLeaf(r.fileName) {
        return Some(BadFileName);
      }
      if r.bytes == 0 {
        return Some(ZeroBytes);
      }
      if r.group.Some? && !ValidGroup(r.frameId, r.group.value) {
        return Some(BadGroup);
      }
      var next := bytes + r.bytes;
      if next > U64_MAX {
        return Some(ByteTotalOverflow);
      }
      lines := lines + [FrameLine(r)];
      emitted := ordinal;
      bytes := next;
      return None;
    }

    method Finish(status: Status) returns (error: Option<ManifestError>)
      modifies this
      ensures error == FinishRefusal(old(Contents()), status)
      ensures Contents() == if error.None? then Close(old(Contents()), status) else old(Contents())
    {
      if status == Complete && emitted != expected {
        return Some(IncompleteCount);
      }
      if finished {
        return Some(AlreadyFinished);
      }
      lines := lines + [Terminal(status, emitted, expected, bytes)];
      finished := true;
      return None;
    }
  }

  // ---------------------------------------------------------------- what a manifest looks like

  function SumBytes(records: seq<Record>): nat {
    if records == [] then 0 else SumBytes(records[..|records| - 1]) + records[|records| - 1].bytes
  }

  /** An open manifest holds the header and exactly these records, numbered from one, with exact totals. */
  predicate Holds(b: Book, records: seq<Record>) {
    && !b.finished
    && b.emitted == |records| == |b.lines| - 1
    && b.lines[0] == Header(b.expected)
    && (forall i :: 0 <= i < |records| ==> b.lines[i + 1] == FrameLine(records[i]) && records[i].ordinal == i + 1)
    && b.bytes == SumBytes(records) <= U64_MAX
  }

  lemma AppendHolds(b: Book, records: seq<Record>, r: Record)
    requires Holds(b, records) && Refusal(b, r) == None
    ensures Holds(Append(b, r), records + [r])
  {
    var all := records + [r];
    assert all[..|records|] == records;
  }
}
