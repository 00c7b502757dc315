/**
 * Source identity: the tagged, length-prefixed byte stream whose digest keys every store, and the
 * whole-source stream whose digest is the content tag. Digests are parameters; what is proved is
 * that the streams fed to them determine, and are determined by, what they stand for.
 */
module SourceIdentity {
  import opened Common

  // ASCII "framescope-source-v3", "framescope-source-full-v2" (each closed by a zero byte), "blake3-full-v2:"
  const KEY_DOMAIN: seq<byte> := [
    102, 114, 97, 109, 101, 115, 99, 111, 112, 101, 45, 115, 111, 117, 114, 99, 101, 45, 118, 51, 0]
  const FULL_HASH_DOMAIN: seq<byte> := [
    102, 114, 97, 109, 101, 115, 99, 111, 112, 101, 45, 115, 111, 117, 114, 99, 101, 45, 102, 117, 108, 108, 45,
    118, 50, 0]
  const FULL_HASH_TAG_PREFIX: seq<byte> := [98, 108, 97, 107, 101, 51, 45, 102, 117, 108, 108, 45, 118, 50, 58]
  const FULL_HASH_BUFFER_BYTES: int := 256 * 1024

  /** Texts are their UTF-8 bytes; a length fits 64 bits. */
  type Text = t: seq<byte> | |t| <= 0xFFFF_FFFF_FFFF_FFFF

  datatype Identity = Identity(
    sizeBytes: Option<u64>,
    modifiedTimeMs: Option<u64>,
    providerDocumentId: Option<Text>,
    contentTag: Option<Text>)

  // ---- Little-endian words ----

  function Power256(n: nat): nat {
    if n == 0 then 1 else 256 * Power256(n - 1)
  }

  function LittleEndian(value: nat, n: nat): (bytes: seq<byte>)
    ensures |bytes| == n
  {
    if n == 0 then [] else [value % 256] + LittleEndian(value / 256, n - 1)
  }

  function FromLittleEndian(bytes: seq<byte>): nat {
    if bytes == [] then 0 else bytes[0] + 256 * FromLittleEndian(bytes[1..])
  }

  lemma {:induction false} LittleEndianRoundTrip(value: nat, n: nat)
    requires value < Power256(n)
    ensures FromLittleEndian(LittleEndian(value, n)) == value
  {
    if n > 0 {
      LittleEndianRoundTrip(value / 256, n - 1);
      assert LittleEndian(value, n)[1..] == LittleEndian(value / 256, n - 1);
    }
  }

  function Word(value: u64): (bytes: seq<byte>)
    ensures |bytes| == 8
  {
    LittleEndian(value, 8)
  }

  lemma WordRoundTrip(value: u64)
    ensures FromLittleEndian(Word(value)) == value
  {
    assert Power256(8) == 0x1_0000_0000_0000_0000 by {
      assert Power256(4) == 0x1_0000_0000;
      assert Power256(6) == 256 * 256 * Power256(4);
    }
    LittleEndianRoundTrip(value, 8);
  }

  // ---- Encoding ----

  function EncodeNumber(value: Option<u64>): seq<byte> {
    match value
    case None => [0]
    case Some(v) => [1] + Word(v)
  }

  function EncodeText(value: Option<Text>): seq<byte> {
    match value
    case None => [0]
    case Some(t) => [1] + Word(|t|) + t
  }

  /** What `stable_key` feeds to the hash. */
  function Encode(id: Identity): seq<byte> {
    KEY_DOMAIN + (EncodeNumber(id.sizeBytes) + (EncodeNumber(id.modifiedTimeMs)
      + (EncodeText(id.providerDocumentId) + EncodeText(id.contentTag))))
  }

  lemma LowByteFirst(low: byte, rest: nat, n: nat)
    ensures LittleEndian(low + 256 * rest, n + 1) == [low] + LittleEndian(rest, n)
  {
    assert (low + 256 * rest) % 256 == low && (low + 256 * rest) / 256 == rest;
  }

  /** Words are written with their least significant byte first. */
  lemma WordBytes(low: byte, second: byte, rest: nat)
    requires low + 256 * (second + 256 * rest) <= U64_MAX
    ensures var v := low + 256 * (second + 256 * rest);
      Word(v) == [low, second] + LittleEndian(rest, 6)
    ensures LittleEndian(0, 6) == [0, 0, 0, 0, 0, 0]
  {
    LowByteFirst(low, second + 256 * rest, 7);
    LowByteFirst(second, rest, 6);
  }

  /** Fields stand in the order size, modification time, provider id, content tag; an absent one is a single zero. */
  lemma FieldsInOrder(v: u64, t: Text)
    ensures Encode(Identity(None, None, None, None)) == KEY_DOMAIN + [0, 0, 0, 0]
    ensures Encode(Identity(Some(v), None, None, None)) == KEY_DOMAIN + [1] + Word(v) + [0, 0, 0]
    ensures Encode(Identity(None, Some(v), None, None)) == KEY_DOMAIN + [0, 1] + Word(v) + [0, 0]
    ensures Encode(Identity(None, None, Some(t), None)) == KEY_DOMAIN + [0, 0, 1] + Word(|t|) + t + [0]
    ensures Encode(Identity(None, None, None, Some(t))) == KEY_DOMAIN + [0, 0, 0, 1] + Word(|t|) + t
  {
    hide Word;
  }

  // ---- A reader for the encoding ----

  function DecodeNumber(s: seq<byte>): Option<(Option<u64>, seq<byte>)> {
    if s == [] then None
    else if s[0] == 0 then Some((None, s[1..]))
    else if |s| < 9 || FromLittleEndian(s[1..9]) > U64_MAX then None
    else Some((Some(FromLittleEndian(s[1..9])), s[9..]))
  }

  function DecodeText(s: seq<byte>): Option<(Option<Text>, seq<byte>)> {
    if s == [] then None
    else if s[0] == 0 then Some((None, s[1..]))
    else if |s| < 9 then None
    else
      var length := FromLittleEndian(s[1..9]);
      if length > U64_MAX || |s| < 9 + length then None else Some((Some(s[9..9 + length]), s[9 + length..]))
  }

  function DecodeTexts(s: seq<byte>): Option<(Option<Text>, Option<Text>, seq<byte>)> {
    match DecodeText(s)
    case None => None
    case Some((first, rest)) =>
      match DecodeText(rest)
      case None => None
      case Some((second, end)) => Some((first, second, end))
  }

  function DecodeNumbers(s: seq<byte>): Option<(Option<u64>, Option<u64>, seq<byte>)> {
    match DecodeNumber(s)
    case None => None
    case Some((first, rest)) =>
      match DecodeNumber(rest)
      case None => None
      case Some((second, end)) => Some((first, second, end))
  }

  function Decode(s: seq<byte>): Option<(Identity, seq<byte>)> {
    if |s| < |KEY_DOMAIN| || s[..|KEY_DOMAIN|] != KEY_DOMAIN then None
    else
      match DecodeNumbers(s[|KEY_DOMAIN|..])
      case None => None
      case Some((size, modified, rest)) =>
        match DecodeTexts(rest)
        case None => None
        case Some((provider, tag, end)) => Some((Identity(size, modified, provider, tag), end))
  }

  lemma NumberRoundTrip(value: Option<u64>, rest: seq<byte>)
    ensures DecodeNumber(EncodeNumber(value) + rest) == Some((value, rest))
  {
    hide FromLittleEndian;
    var s := EncodeNumber(value) + rest;
    if value.None? {
      assert s[1..] == rest;
    } else {
      WordRoundTrip(value.value);
      assert s[1..9] == Word(value.value) && s[9..] == rest;
    }
  }

  lemma TextRoundTrip(value: Option<Text>, rest: seq<byte>)
    ensures DecodeText(EncodeText(value) + rest) == Some((value, rest))
  {
    hide FromLittleEndian;
    var s := EncodeText(value) + rest;
    if value.None? {
      assert s[1..] == rest;
    } else {
      var n := |value.value|;
      WordRoundTrip(n);
      assert s[1..9] == Word(n) && s[9..9 + n] == value.value && s[9 + n..] == rest;
    }
  }

  lemma NumbersRoundTrip(a: Option<u64>, b: Option<u64>, rest: seq<byte>)
    ensures DecodeNumbers(EncodeNumber(a) + (EncodeNumber(b) + rest)) == Some((a, b, rest))
  {
    hide DecodeNumber, EncodeNumber;
    NumberRoundTrip(a, EncodeNumber(b) + rest);
    NumberRoundTrip(b, rest);
  }

  lemma TextsRoundTrip(a: Option<Text>, b: Option<Text>, rest: seq<byte>)
    ensures DecodeTexts(EncodeText(a) + (EncodeText(b) + rest)) == Some((a, b, rest))
  {
    hide DecodeText, EncodeText;
    TextRoundTrip(a, EncodeText(b) + rest);
    TextRoundTrip(b, rest);
  }

  /** Every identity can be read back from its stream, whatever follows it. */
  lemma IdentityRoundTrip(id: Identity, rest: seq<byte>)
    ensures Decode(Encode(id) + rest) == Some((id, rest))
  {
    hide DecodeNumbers, DecodeTexts, EncodeNumber, EncodeText;
    var texts := EncodeText(id.providerDocumentId) + EncodeText(id.contentTag);
    var tail := EncodeNumber(id.sizeBytes) + (EncodeNumber(id.modifiedTimeMs) + texts);
    var s := Encode(id) + rest;
    assert s == KEY_DOMAIN + (tail + rest);
    assert s[..|KEY_DOMAIN|] == KEY_DOMAIN && s[|KEY_DOMAIN|..] == tail + rest;
    assert tail + rest
        == EncodeNumber(id.sizeBytes) + (EncodeNumber(id.modifiedTimeMs) + (texts + rest));
    NumbersRoundTrip(id.sizeBytes, id.modifiedTimeMs, texts + rest);
    assert texts + rest == EncodeText(id.providerDocumentId) + (EncodeText(id.contentTag) + rest);
    TextsRoundTrip(id.providerDocumentId, id.contentTag, rest);
  }

  /** Different identities give different streams, and no stream is a proper prefix of another. */
  lemma EncodingIsInjective(a: Identity, b: Identity)
    requires Encode(a) <= Encode(b)
    ensures a == b
  {
    hide Encode, Decode;
    var rest := Encode(b)[|Encode(a)|..];
    assert Encode(a) + rest == Encode(b) == Encode(b) + [];
    IdentityRoundTrip(a, rest);
    IdentityRoundTrip(b, []);
  }

  // ---- The whole-source stream ----

  /** What the content tag is a digest of, as a function of the source bytes alone. */
  function WholeStream(data: seq<byte>): seq<byte>
    requires |data| <= U64_MAX
  {
    FULL_HASH_DOMAIN + Word(|data|) + data
  }

  lemma WholeStreamIsInjective(a: seq<byte>, b: seq<byte>)
    requires |a| <= U64_MAX && |b| <= U64_MAX && WholeStream(a) == WholeStream(b)
    ensures a == b
  {
    var start := |FULL_HASH_DOMAIN| + 8;
    assert WholeStream(a)[start..] == a && WholeStream(b)[start..] == b;
  }

  /** Key streams and content streams never coincide: their domains differ within both prefixes. */
  lemma DomainsAreSeparate(id: Identity, data: seq<byte>)
    requires |data| <= U64_MAX
    ensures Encode(id) != WholeStream(data)
  {
    assert Encode(id)[18] == KEY_DOMAIN[18] == 118;
    assert WholeStream(data)[18] == FULL_HASH_DOMAIN[18] == 102;
  }

  datatype ReadStep = ReadFails | ReadAtMost(limit: nat)

  datatype IoError = SeekFailed | ReadFailed | UnexpectedEof | Cancelled

  /**
   * A seekable source. How much each read returns, and which calls fail, is decided by the
   * environment: one answer per call, in call order.
   */
  class Reader {
    const data: seq<byte>
    const readScript: nat -> ReadStep
    const seekFails: nat -> bool
    var position: nat
    var readCalls: nat
    var seekCalls: nat

    constructor (data: seq<byte>, readScript: nat -> ReadStep, seekFails: nat -> bool, position: nat)
      ensures this.data == data && this.readScript == readScript && this.seekFails == seekFails
      ensures this.position == position && readCalls == 0 && seekCalls == 0
    {
      this.data, this.readScript, this.seekFails, this.position := data, readScript, seekFails, position;
      readCalls, seekCalls := 0, 0;
    }

    method Seek(target: nat) returns (ok: bool)
      modifies this`position, this`seekCalls
      ensures ok <==> !seekFails(old(seekCalls))
      ensures position == if ok then target else old(position)
      ensures seekCalls == old(seekCalls) + 1
    {
      ok := !seekFails(seekCalls);
      seekCalls := seekCalls + 1;
      if ok {
        position := target;
      }
    }

    method Read(wanted: nat) returns (r: Result<seq<byte>, IoError>)
      modifies this`position, this`readCalls
      ensures readCalls == old(readCalls) + 1
      ensures readScript(old(readCalls)).ReadFails? <==> r.Err?
      ensures r.Err? ==> position == old(position) && r.error == ReadFailed
      ensures r.Ok? ==>
        && position == old(position) + |r.value| && |r.value| <= wanted
        && (r.value != [] ==> position <= |data| && r.value == data[old(position)..position])
        && (old(position) < |data| && wanted > 0 && readScript(old(readCalls)).limit > 0 ==> r.value != [])
    {
      var step := readScript(readCalls);
      readCalls := readCalls + 1;
      if step.ReadFails? {
        return Err(ReadFailed);
      }
      var available := if position < |data| then |data| - position else 0;
      var n := Min(step.limit, Min(wanted, available));
      if n == 0 {
        return Ok([]);
      }
      position := position + n;
      return Ok(data[position - n..position]);
    }
  }

  /** The environment lets the whole source be read: no call fails and every read makes progress. */
  ghost predicate Cooperative(reader: Reader, checks: nat -> bool) {
    && (forall k :: checks(k))
    && (forall k :: !reader.seekFails(k))
    && (forall k :: reader.readScript(k).ReadAtMost? && reader.readScript(k).limit > 0)
  }

  /** `asked` checks were made: all but the last let the work go on, the last stopped it exactly if it was cancelled. */
  ghost predicate ChecksHeard(checks: nat -> bool, asked: nat, cancelled: bool) {
    && (forall k: nat | k + 1 < asked :: checks(k))
    && (cancelled <==> asked > 0 && !checks(asked - 1))
  }

  /** The reads from call `from` on succeeded, except that the last one failed exactly if that ended the work. */
  ghost predicate ReadsHeard(script: nat -> ReadStep, from: nat, upto: nat, failed: bool) {
    && from <= upto
    && (forall k | from <= k < upto - 1 :: script(k).ReadAtMost?)
    && (failed <==> from < upto && script(upto - 1).ReadFails?)
  }

  /** Appends the rest of the source to the hashed stream, chunk by chunk, with a check before every read. */
  method HashChunks(reader: Reader, checks: nat -> bool, size: u64, start: seq<byte>)
    returns (r: Result<seq<byte>, IoError>, ghost asked: nat)
    requires size == |reader.data| && reader.position == 0 && checks(0)
    modifies reader`position, reader`readCalls
    ensures r.Ok? ==> r.value == start + reader.data
    ensures ChecksHeard(checks, asked, r.Err? && r.error == Cancelled)
    ensures ReadsHeard(reader.readScript, old(reader.readCalls), reader.readCalls, r.Err? && r.error == ReadFailed)
    ensures reader.readCalls - old(reader.readCalls) < asked
    ensures r.Err? ==> r.error != SeekFailed
    ensures r.Err? && r.error == UnexpectedEof ==>
      reader.readCalls > old(reader.readCalls) && reader.readScript(reader.readCalls - 1) == ReadAtMost(0)
    ensures Cooperative(reader, checks) ==> r.Ok?
  {
    var stream := start;
    var total := 0;
    var checked := 1;
    asked := 1;
    while total < size
      invariant 0 <= total <= size && reader.position == total
      invariant stream == start + reader.data[..total]
      invariant asked == checked && ChecksHeard(checks, asked, false)
      invariant ReadsHeard(reader.readScript, old(reader.readCalls), reader.readCalls, false)
      invariant reader.readCalls - old(reader.readCalls) < asked
      decreases size - total
    {
      asked := asked + 1;
      if !checks(checked) {
        return Err(Cancelled), asked;
      }
      checked := checked + 1;
      var wanted := Min(FULL_HASH_BUFFER_BYTES, size - total);
      var chunk := reader.Read(wanted);
      if chunk.Err? {
        return Err(chunk.error), asked;
      }
      if chunk.value == [] {
        return Err(UnexpectedEof), asked;
      }
      assert reader.data[..total] + chunk.value == reader.data[..total + |chunk.value|];
      stream := stream + chunk.value;
      total := total + |chunk.value|;
    }
    assert reader.data[..total] == reader.data;
    return Ok(stream), asked;
  }

  /** Size and content tag of the complete source, whatever chunks it is read in. */
  method HashCompleteSeekable(reader: Reader, checks: nat -> bool, digest: seq<byte> -> seq<byte>)
    returns (r: Result<(u64, seq<byte>), IoError>, ghost asked: nat)
    requires |reader.data| <= U64_MAX
    modifies reader
    ensures r.Ok? ==> r.value == (|reader.data|, FULL_HASH_TAG_PREFIX + digest(WholeStream(reader.data)))
    ensures ChecksHeard(checks, asked, r.Err? && r.error == Cancelled) && asked > 0
    ensures ReadsHeard(reader.readScript, old(reader.readCalls), reader.readCalls, r.Err? && r.error == ReadFailed)
    ensures reader.readCalls - old(reader.readCalls) < asked
    ensures r.Err? && r.error == SeekFailed <==>
      reader.seekCalls > old(reader.seekCalls) && reader.seekFails(reader.seekCalls - 1)
    ensures Cooperative(reader, checks) ==> r.Ok?
    ensures reader.seekCalls >= old(reader.seekCalls)
  {
    asked := 1;
    if !checks(0) {
      return Err(Cancelled), asked;
    }
    var found := reader.Seek(|reader.data|);
    if !found {
      return Err(SeekFailed), asked;
    }
    var size: u64 := reader.position;
    var rewound := reader.Seek(0);
    if !rewound {
      return Err(SeekFailed), asked;
    }
    var stream;
    stream, asked := HashChunks(reader, checks, size, FULL_HASH_DOMAIN + Word(size));
    if stream.Err? {
      return Err(stream.error), asked;
    }
    return Ok((size, FULL_HASH_TAG_PREFIX + digest(stream.value))), asked;
  }

  /**
   * A reusable identity. The identity is a function of the source bytes, independent of chunking;
   * on every outcome the reader is back where it was, unless the restoring seek itself failed, and
   * then no identity is returned.
   */
  method FromSeekableCancellable(
    reader: Reader, modifiedTimeMs: Option<u64>, providerDocumentId: Option<Text>,
    checks: nat -> bool, digest: seq<byte> -> seq<byte>)
    returns (r: Result<Identity, IoError>, ghost asked: nat)
    requires |reader.data| <= U64_MAX && (forall s :: |digest(s)| <= 1024)
    modifies reader
    ensures r.Ok? ==> r.value == Identity(Some(|reader.data|), modifiedTimeMs, providerDocumentId,
                                          Some(FULL_HASH_TAG_PREFIX + digest(WholeStream(reader.data))))
    ensures r.Ok? ==> reader.position == old(reader.position)
    ensures reader.position == old(reader.position)
         || (reader.seekCalls > old(reader.seekCalls) && reader.seekFails(reader.seekCalls - 1))
    ensures ChecksHeard(checks, asked, r.Err? && r.error == Cancelled)
    ensures ReadsHeard(reader.readScript, old(reader.readCalls), reader.readCalls, r.Err? && r.error == ReadFailed)
    ensures reader.readCalls - old(reader.readCalls) <= asked
    ensures r.Err? && r.error == SeekFailed ==>
      exists k | old(reader.seekCalls) <= k < reader.seekCalls :: reader.seekFails(k)
    ensures Cooperative(reader, checks) ==> r.Ok?
  {
    asked := 0;
    var known := reader.Seek(reader.position);
    if !known {
      assert reader.seekFails(old(reader.seekCalls));
      return Err(SeekFailed), asked;
    }
    var original := reader.position;
    var hashed;
    hashed, asked := HashCompleteSeekable(reader, checks, digest);
    ghost var seeks := reader.seekCalls;
    var restored := reader.Seek(original);
    if hashed.Err? {
      assert hashed.error == SeekFailed ==> reader.seekFails(seeks - 1);
      return Err(hashed.error), asked;
    }
    if !restored {
      assert reader.seekFails(seeks);
      return Err(SeekFailed), asked;
    }
    return Ok(Identity(Some(hashed.value.0), modifiedTimeMs, providerDocumentId, Some(hashed.value.1))), asked;
  }
}
