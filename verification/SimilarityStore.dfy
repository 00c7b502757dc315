/**
 * The persisted similar-frame store: build beside the final path, mark complete, rename, and later
 * accept the file only if its row counts prove it dense. SQLite is represented by what it holds: a
 * descriptor table keyed by frame id and a set of index rows that refer to it.
 */
module SimilarityStore {
  import opened Common
  import opened Confirmation
  import opened SimilarityKeys

  const SCHEMA_VERSION: int := 3
  const WRITE_BATCH: int := 128
  const KEYS_PER_DESCRIPTOR: int := 9

  datatype FrameKey = FrameKey(id: int)

  datatype Row = Row(average: Hash, difference: Hash, rgb: seq<byte>)

  datatype BandRow = BandRow(key: Key, frame: FrameKey)

  datatype Tables = Tables(descriptors: map<FrameKey, Row>, bands: set<BandRow>)

  /** What the table definitions guarantee: no negative id, and every index row names a descriptor. */
  ghost predicate SchemaHolds(t: Tables) {
    && (forall f | f in t.descriptors :: f.id >= 0)
    && (forall b | b in t.bands :: b.frame in t.descriptors)
  }

  function RowsOf(bands: set<BandRow>, frame: FrameKey): set<BandRow> {
    set b | b in bands && b.frame == frame
  }

  // ---- Cardinality checks ----

  predicate CountsMatch(t: Tables, count: nat) {
    && |t.descriptors| == count
    && (count > 0 ==>
          && FrameKey(0) in t.descriptors
          && FrameKey(count - 1) in t.descriptors
          && forall f | f in t.descriptors :: 0 <= f.id <= count - 1)
    && (forall f | f in t.descriptors :: |t.descriptors[f].rgb| == DESCRIPTOR_BYTES)
  }

  predicate BandsMatch(t: Tables, count: nat) {
    && |t.bands| == KEYS_PER_DESCRIPTOR * count
    && forall b | b in t.bands :: |RowsOf(t.bands, b.frame)| == KEYS_PER_DESCRIPTOR
  }

  /** Count, minimum and maximum id, payload lengths, index row count, and rows per frame. */
  predicate ValidateRows(t: Tables, count: nat) {
    CountsMatch(t, count) && BandsMatch(t, count)
  }

  /** What a query relies on: exactly the frames 0..count-1, each with a whole payload and nine keys. */
  ghost predicate Dense(t: Tables, count: nat) {
    && (forall f :: f in t.descriptors <==> 0 <= f.id < count)
    && (forall f | f in t.descriptors ::
          |t.descriptors[f].rgb| == DESCRIPTOR_BYTES && |RowsOf(t.bands, f)| == KEYS_PER_DESCRIPTOR)
  }

  function Range(count: nat): set<FrameKey> {
    set i | 0 <= i < count :: FrameKey(i)
  }

  lemma {:induction false} RangeCount(count: nat)
    ensures |Range(count)| == count
  {
    if count > 0 {
      RangeCount(count - 1);
      assert Range(count) == Range(count - 1) + {FrameKey(count - 1)};
    } else {
      assert Range(count) == {};
    }
  }

  lemma EqualBySize<T>(a: set<T>, b: set<T>)
    requires a <= b && |a| == |b|
    ensures a == b
  {
    assert |b - a| == |b| - |a|;
  }

  /** Index rows, grouped by frame with nine in every group, number nine times the groups. */
  lemma {:induction false} NineEach(bands: set<BandRow>, frames: set<FrameKey>)
    requires forall b | b in bands :: b.frame in frames
    requires forall f | f in frames :: |RowsOf(bands, f)| == KEYS_PER_DESCRIPTOR
    ensures |bands| == KEYS_PER_DESCRIPTOR * |frames|
    decreases |frames|
  {
    if |frames| == 0 {
      assert bands == {};
    } else {
      var f :| f in frames;
      var mine := RowsOf(bands, f);
      var others := bands - mine;
      forall g | g in frames - {f} ensures |RowsOf(others, g)| == KEYS_PER_DESCRIPTOR {
        assert RowsOf(others, g) == RowsOf(bands, g);
      }
      NineEach(others, frames - {f});
      assert |bands| == |mine| + |others| by { assert bands == mine + others && mine !! others; }
    }
  }

  /** The distinct frames that own index rows. */
  function Owners(bands: set<BandRow>): set<FrameKey> {
    set b | b in bands :: b.frame
  }

  lemma DenseIds(t: Tables, count: nat)
    requires CountsMatch(t, count)
    ensures t.descriptors.Keys == Range(count)
  {
    RangeCount(count);
    assert |t.descriptors.Keys| == count;
    if count == 0 {
      assert t.descriptors.Keys == {};
    } else {
      EqualBySize(t.descriptors.Keys, Range(count));
    }
  }

  lemma AllOwn(t: Tables, count: nat)
    requires SchemaHolds(t) && ValidateRows(t, count)
    ensures Owners(t.bands) == t.descriptors.Keys
  {
    NineEach(t.bands, Owners(t.bands));
    assert |Owners(t.bands)| == count == |t.descriptors.Keys|;
    EqualBySize(Owners(t.bands), t.descriptors.Keys);
  }

  /** The cheap counting checks hold exactly when the tables are dense. */
  lemma ValidationIsExact(t: Tables, count: nat)
    requires SchemaHolds(t)
    ensures ValidateRows(t, count) <==> Dense(t, count)
  {
    if ValidateRows(t, count) {
      DenseIds(t, count);
      AllOwn(t, count);
      forall f | f in t.descriptors ensures |RowsOf(t.bands, f)| == KEYS_PER_DESCRIPTOR {
        assert f in Owners(t.bands);
      }
    }
    if Dense(t, count) {
      RangeCount(count);
      assert t.descriptors.Keys == Range(count);
      assert |t.descriptors| == |t.descriptors.Keys|;
      NineEach(t.bands, t.descriptors.Keys);
    }
  }

  lemma CountsOfDense(t: Tables, count: nat)
    requires SchemaHolds(t)
    ensures ValidateRows(t, count) ==> |t.descriptors| == count && |t.bands| == KEYS_PER_DESCRIPTOR * count
  {
  }

  // ---- The tables a writer produces ----

  const EMPTY_TABLES := Tables(map[], {})

  function RowFor(d: GlobalDescriptor): Row {
    Row(d.average, d.difference, d.rgb)
  }

  function BandRowsFor(d: GlobalDescriptor): set<BandRow> {
    set key | key in KeysOf(d) :: BandRow(key, FrameKey(d.frame))
  }

  function Insert(t: Tables, d: GlobalDescriptor): Tables {
    Tables(t.descriptors[FrameKey(d.frame) := RowFor(d)], t.bands + BandRowsFor(d))
  }

  function IndexOf(descriptors: seq<GlobalDescriptor>): Tables {
    if descriptors == [] then EMPTY_TABLES
    else Insert(IndexOf(descriptors[..|descriptors| - 1]), descriptors[|descriptors| - 1])
  }

  ghost predicate Contiguous(descriptors: seq<GlobalDescriptor>) {
    forall i | 0 <= i < |descriptors| :: descriptors[i].frame == i
  }

  /** The tables of a run of appends hold exactly each descriptor and its own keys. */
  lemma {:induction false} IndexHolds(descriptors: seq<GlobalDescriptor>, f: FrameKey, key: Key)
    requires Contiguous(descriptors)
    ensures var t := IndexOf(descriptors);
      && (f in t.descriptors <==> 0 <= f.id < |descriptors|)
      && (f in t.descriptors ==> t.descriptors[f] == RowFor(descriptors[f.id]))
      && (BandRow(key, f) in t.bands <==> 0 <= f.id < |descriptors| && key in KeysOf(descriptors[f.id]))
  {
    hide KeysOf;
    if descriptors != [] {
      var n := |descriptors| - 1;
      IndexHolds(descriptors[..n], f, key);
      assert descriptors[n].frame == n;
    }
  }

  lemma NineRows(d: GlobalDescriptor)
    ensures |BandRowsFor(d)| == KEYS_PER_DESCRIPTOR
  {
    KeysCount(d);
    RowsPerKey(KeysOf(d), FrameKey(d.frame));
  }

  lemma {:induction false} RowsPerKey(keys: set<Key>, f: FrameKey)
    ensures |set key | key in keys :: BandRow(key, f)| == |keys|
    decreases |keys|
  {
    var rows := set key | key in keys :: BandRow(key, f);
    if |keys| == 0 {
      assert rows == {};
    } else {
      var key :| key in keys;
      var fewer := set other | other in keys - {key} :: BandRow(other, f);
      RowsPerKey(keys - {key}, f);
      assert rows == fewer + {BandRow(key, f)};
    }
  }

  lemma IndexIsDense(descriptors: seq<GlobalDescriptor>)
    requires Contiguous(descriptors)
    ensures SchemaHolds(IndexOf(descriptors)) && Dense(IndexOf(descriptors), |descriptors|)
  {
    hide KeysOf, IndexOf;
    var t := IndexOf(descriptors);
    forall f
      ensures f in t.descriptors <==> 0 <= f.id < |descriptors|
      ensures f in t.descriptors ==> t.descriptors[f] == RowFor(descriptors[f.id])
    {
      IndexHolds(descriptors, f, ColorKey(0));
    }
    forall f, key
      ensures BandRow(key, f) in t.bands <==> 0 <= f.id < |descriptors| && key in KeysOf(descriptors[f.id])
    {
      IndexHolds(descriptors, f, key);
    }
    forall b | b in t.bands ensures b.frame in t.descriptors {
      assert BandRow(b.key, b.frame) in t.bands;
    }
    forall f | f in t.descriptors
      ensures |t.descriptors[f].rgb| == DESCRIPTOR_BYTES && |RowsOf(t.bands, f)| == KEYS_PER_DESCRIPTOR
    {
      var d := descriptors[f.id];
      NineRows(d);
      forall b ensures b in RowsOf(t.bands, f) <==> b in BandRowsFor(d) {
        assert b == BandRow(b.key, b.frame);
      }
      assert RowsOf(t.bands, f) == BandRowsFor(d);
    }
  }

  // ---- Files ----

  datatype StoreKey = StoreKey(source: nat, stream: nat, timelineContract: nat, algorithm: nat)

  datatype Lifecycle = Building | Complete

  datatype Meta = Meta(lifecycle: Lifecycle, key: Option<StoreKey>, count: int)  // no key: unreadable text

  datatype Database = Database(version: int, meta: Option<Meta>, tables: Tables)

  datatype File = NotSqlite | Sqlite(database: Database, sound: bool)  // `sound`: SQLite's own quick check

  datatype Disk = Disk(final: Option<File>, building: Option<File>)

  datatype Load = Missing | Reused(count: nat) | InvalidatedStale | InvalidatedIncomplete | InvalidatedCorrupt

  datatype Failure =
    | NumericRange
    | NonContiguousFrameIds(expected: u64, actual: u64)
    | InvalidDescriptorLength(length: nat)

  function Judge(file: File, expected: StoreKey, count: u64): Result<Load, Failure> {
    if file.NotSqlite? then Ok(InvalidatedCorrupt)
    else
      var db := file.database;
      if db.version != SCHEMA_VERSION then Ok(InvalidatedStale)
      else if db.meta.None? then Ok(InvalidatedCorrupt)
      else
        var meta := db.meta.value;
        if meta.lifecycle != Complete then Ok(InvalidatedIncomplete)
        else if meta.key.None? then Ok(InvalidatedCorrupt)
        else if meta.key.value != expected then Ok(InvalidatedStale)
        else if meta.count < 0 then Err(NumericRange)
        else if meta.count != count || !file.sound then Ok(InvalidatedCorrupt)
        else if |db.tables.descriptors| > I64_MAX then Err(NumericRange)
        else if !CountsMatch(db.tables, count) then Ok(InvalidatedCorrupt)
        else if KEYS_PER_DESCRIPTOR * count > U64_MAX || |db.tables.bands| > I64_MAX then Err(NumericRange)
        else if !BandsMatch(db.tables, count) then Ok(InvalidatedCorrupt)
        else Ok(Reused(meta.count))
  }

  /** Loading purges every file it rejects, so a rejected store is simply missing next time. */
  function LoadStore(disk: Disk, expected: StoreKey, count: u64): (Disk, Result<Load, Failure>) {
    if disk.final.None? then (disk, Ok(Missing))
    else
      var verdict := Judge(disk.final.value, expected, count);
      if verdict.Err? || verdict.value.Reused? then (disk, verdict) else (disk.(final := None), verdict)
  }

  /** A store is reused exactly when it is complete, under the expected key, and dense. */
  lemma ReusedIff(disk: Disk, expected: StoreKey, count: u64)
    requires disk.final.Some? && disk.final.value.Sqlite? ==> SchemaHolds(disk.final.value.database.tables)
    ensures var (after, verdict) := LoadStore(disk, expected, count);
      && (verdict == Ok(Reused(count)) <==>
            && disk.final.Some? && disk.final.value.Sqlite? && disk.final.value.sound
            && var db := disk.final.value.database;
            && db.version == 3 && db.meta == Some(Meta(Complete, Some(expected), count))
            && Dense(db.tables, count) && 9 * count <= I64_MAX)
      && (verdict.Ok? && verdict.value.Reused? ==> after == disk && verdict.value.count == count)
      && (verdict.Ok? && !verdict.value.Reused? ==> LoadStore(after, expected, count) == (after, Ok(Missing)))
  {
    if disk.final.Some? && disk.final.value.Sqlite? {
      ValidationIsExact(disk.final.value.database.tables, count);
      CountsOfDense(disk.final.value.database.tables, count);
      hide SchemaHolds, Dense, CountsMatch, BandsMatch;
    }
  }

  /** What a rejection says: unreadable or inconsistent, of another version or key, or never finished. */
  lemma RejectedAs(file: File, expected: StoreKey, count: u64)
    ensures Judge(file, expected, count) == Ok(InvalidatedIncomplete) <==>
      file.Sqlite? && file.database.version == 3 && file.database.meta.Some?
      && file.database.meta.value.lifecycle == Building
    ensures Judge(file, expected, count) == Ok(InvalidatedStale) <==>
      && file.Sqlite?
      && (|| file.database.version != 3
          || (file.database.meta.Some? && file.database.meta.value.lifecycle == Complete
              && file.database.meta.value.key.Some? && file.database.meta.value.key.value != expected))
    ensures file.NotSqlite? ==> Judge(file, expected, count) == Ok(InvalidatedCorrupt)
    ensures Judge(file, expected, count) != Ok(Missing)
  {
    hide CountsMatch, BandsMatch;
  }

  /** Dense tables, spelled out: frames 0 to count - 1, each with 768 bytes and nine index rows. */
  lemma DenseMeaning(t: Tables, count: nat, f: FrameKey)
    requires Dense(t, count)
    ensures f in t.descriptors <==> 0 <= f.id < count
    ensures f in t.descriptors ==>
      |t.descriptors[f].rgb| == 768 && |set b | b in t.bands && b.frame == f| == 9
  {
    assert RowsOf(t.bands, f) == set b | b in t.bands && b.frame == f;
  }

  function CompleteStore(key: StoreKey, descriptors: seq<GlobalDescriptor>): File {
    Sqlite(Database(SCHEMA_VERSION, Some(Meta(Complete, Some(key), |descriptors|)), IndexOf(descriptors)), true)
  }

  function BuildingStore(key: StoreKey, descriptors: seq<GlobalDescriptor>): File {
    Sqlite(Database(SCHEMA_VERSION, Some(Meta(Building, Some(key), 0)), IndexOf(descriptors)), true)
  }

  /**
   * A finished store is reused for its own frame count, whatever that count is relative to the
   * batch size, exactly as long as SQLite can count nine keys per frame in its signed 64 bits.
   */
  lemma FinishedStoreIsReused(disk: Disk, key: StoreKey, descriptors: seq<GlobalDescriptor>)
    requires Contiguous(descriptors) && |descriptors| <= U64_MAX
    requires disk.final == Some(CompleteStore(key, descriptors))
    ensures LoadStore(disk, key, |descriptors|) == (disk, Ok(Reused(|descriptors|)))
        <==> KEYS_PER_DESCRIPTOR * |descriptors| <= I64_MAX
  {
    hide IndexOf, Dense, SchemaHolds;
    IndexIsDense(descriptors);
    ReusedIff(disk, key, |descriptors|);
    hide LoadStore;
  }

  // ---- What reaches the disk ----

  datatype DiskStep =
    | Create(key: StoreKey)
    | Commit(batch: seq<GlobalDescriptor>)
    | MarkComplete(count: nat)
    | Rename

  function InsertAll(t: Tables, batch: seq<GlobalDescriptor>): Tables {
    if batch == [] then t else Insert(InsertAll(t, batch[..|batch| - 1]), batch[|batch| - 1])
  }

  function Apply(disk: Disk, step: DiskStep): Disk {
    match step
    case Create(key) => disk.(building := Some(BuildingStore(key, [])))
    case Commit(batch) =>
      if disk.building.Some? && disk.building.value.Sqlite? then
        var file := disk.building.value;
        disk.(building := Some(file.(database := file.database.(tables := InsertAll(file.database.tables, batch)))))
      else disk
    case MarkComplete(count) =>
      if disk.building.Some? && disk.building.value.Sqlite? && disk.building.value.database.meta.Some? then
        var file := disk.building.value;
        var meta := file.database.meta.value.(lifecycle := Complete, count := count);
        disk.(building := Some(file.(database := file.database.(meta := Some(meta)))))
      else disk
    case Rename => if disk.building.Some? then Disk(disk.building, None) else disk
  }

  function Play(disk: Disk, log: seq<DiskStep>): Disk {
    if log == [] then disk else Apply(Play(disk, log[..|log| - 1]), log[|log| - 1])
  }

  ghost predicate NeverRenames(log: seq<DiskStep>) {
    forall i | 0 <= i < |log| :: !log[i].Rename?
  }

  /** Whatever happens to a build before its rename, and wherever it stops, the final path keeps its file. */
  lemma {:induction false} FinalPathUntouched(disk: Disk, log: seq<DiskStep>, k: nat)
    requires NeverRenames(log) && k <= |log|
    ensures Play(disk, log[..k]).final == disk.final
    decreases k
  {
    if k > 0 {
      hide Play, Apply;
      FinalPathUntouched(disk, log, k - 1);
      assert log[..k] == log[..k - 1] + [log[k - 1]];
      PlayStep(disk, log[..k - 1], log[k - 1]);
      OnlyRenamePublishes(Play(disk, log[..k - 1]), log[k - 1]);
    } else {
      assert log[..0] == [];
    }
  }

  lemma OnlyRenamePublishes(disk: Disk, step: DiskStep)
    requires !step.Rename?
    ensures Apply(disk, step).final == disk.final
  {
    hide InsertAll, BuildingStore;
  }

  lemma {:induction false} InsertAllExtends(a: seq<GlobalDescriptor>, b: seq<GlobalDescriptor>)
    ensures InsertAll(IndexOf(a), b) == IndexOf(a + b)
    decreases |b|
  {
    hide Insert;
    if b == [] {
      assert a + b == a;
    } else {
      var n := |b| - 1;
      InsertAllExtends(a, b[..n]);
      assert (a + b)[..|a + b| - 1] == a + b[..n];
    }
  }

  lemma CommitExtends(disk: Disk, key: StoreKey, a: seq<GlobalDescriptor>, b: seq<GlobalDescriptor>)
    requires disk.building == Some(BuildingStore(key, a))
    ensures Apply(disk, Commit(b)) == disk.(building := Some(BuildingStore(key, a + b)))
  {
    hide IndexOf, InsertAll;
    InsertAllExtends(a, b);
  }

  /** The inserts of one transaction; an id beyond the signed 64-bit range abandons them all. */
  method InsertPending(tables: Tables, pending: seq<GlobalDescriptor>) returns (r: Result<Tables, Failure>)
    ensures r.Ok? ==> r.value == InsertAll(tables, pending)
    ensures r.Err? <==> exists i | 0 <= i < |pending| :: pending[i].frame > I64_MAX
  {
    hide Insert;
    var inserted := tables;
    for i := 0 to |pending|
      invariant inserted == InsertAll(tables, pending[..i])
      invariant forall j | 0 <= j < i :: pending[j].frame <= I64_MAX
    {
      if pending[i].frame > I64_MAX {
        return Err(NumericRange);
      }
      assert pending[..i + 1][..i] == pending[..i];
      inserted := Insert(inserted, pending[i]);
    }
    assert pending[..|pending|] == pending;
    return Ok(inserted);
  }

  lemma LastIsLargest(appended: seq<GlobalDescriptor>, pending: seq<GlobalDescriptor>)
    requires Contiguous(appended) && |pending| <= |appended| && pending == appended[|appended| - |pending|..]
    requires exists i | 0 <= i < |pending| :: pending[i].frame > I64_MAX
    ensures |appended| > I64_MAX + 1
  {
    var i :| 0 <= i < |pending| && pending[i].frame > I64_MAX;
    assert pending[i] == appended[|appended| - |pending| + i];
  }

  lemma PlayStep(disk: Disk, log: seq<DiskStep>, step: DiskStep)
    ensures Play(disk, log + [step]) == Apply(Play(disk, log), step)
  {
    hide Apply;
    assert (log + [step])[..|log|] == log;
  }

  lemma MarkedIsComplete(disk: Disk, key: StoreKey, descriptors: seq<GlobalDescriptor>)
    requires disk.building == Some(BuildingStore(key, descriptors))
    ensures Apply(Apply(disk, MarkComplete(|descriptors|)), Rename) == Disk(Some(CompleteStore(key, descriptors)), None)
  {
    hide IndexOf;
  }

  /** Marking complete and renaming publishes the whole store, and nothing is published before. */
  lemma Publishes(initial: Disk, log: seq<DiskStep>, key: StoreKey, descriptors: seq<GlobalDescriptor>)
    requires NeverRenames(log) && Play(initial, log).building == Some(BuildingStore(key, descriptors))
    ensures var steps := log + [MarkComplete(|descriptors|), Rename];
      && Play(initial, steps) == Disk(Some(CompleteStore(key, descriptors)), None)
      && Play(initial, steps) == Apply(Apply(Play(initial, log), MarkComplete(|descriptors|)), Rename)
      && forall k | 0 <= k < |steps| :: Play(initial, steps[..k]).final == initial.final
  {
    hide IndexOf, Play, Apply;
    var marked := log + [MarkComplete(|descriptors|)];
    var steps := log + [MarkComplete(|descriptors|), Rename];
    assert steps == marked + [Rename];
    PlayStep(initial, log, MarkComplete(|descriptors|));
    PlayStep(initial, marked, Rename);
    MarkedIsComplete(Play(initial, log), key, descriptors);
    forall k | 0 <= k < |steps| ensures Play(initial, steps[..k]).final == initial.final {
      assert steps[..k] == marked[..k];
      FinalPathUntouched(initial, marked, k);
    }
  }

  /** The building file holds all that was appended except the batch still in memory. */
  ghost predicate Consistent(
    initial: Disk, log: seq<DiskStep>, disk: Disk, key: StoreKey,
    appended: seq<GlobalDescriptor>, pending: seq<GlobalDescriptor>)
  {
    && |pending| <= |appended|
    && pending == appended[|appended| - |pending|..]
    && disk == Play(initial, log)
    && NeverRenames(log)
    && disk.building == Some(BuildingStore(key, appended[..|appended| - |pending|]))
  }

  lemma CommitKeeps(
    initial: Disk, log: seq<DiskStep>, disk: Disk, key: StoreKey,
    appended: seq<GlobalDescriptor>, pending: seq<GlobalDescriptor>)
    requires Consistent(initial, log, disk, key, appended, pending)
    ensures Consistent(initial, log + [Commit(pending)], Apply(disk, Commit(pending)), key, appended, [])
  {
    hide IndexOf, Play, Apply;
    var committed := appended[..|appended| - |pending|];
    CommitExtends(disk, key, committed, pending);
    assert committed + pending == appended == appended[..|appended|];
    PlayStep(initial, log, Commit(pending));
  }

  lemma BuildingIsOpen(
    initial: Disk, log: seq<DiskStep>, disk: Disk, key: StoreKey,
    appended: seq<GlobalDescriptor>, pending: seq<GlobalDescriptor>)
    requires Consistent(initial, log, disk, key, appended, pending)
    ensures disk.building.Some? && disk.building.value.Sqlite?
  {
  }

  lemma PendingIsTail(
    initial: Disk, log: seq<DiskStep>, disk: Disk, key: StoreKey,
    appended: seq<GlobalDescriptor>, pending: seq<GlobalDescriptor>)
    requires Consistent(initial, log, disk, key, appended, pending)
    ensures |pending| <= |appended| && pending == appended[|appended| - |pending|..]
  {
  }

  // ---- The writer in place ----

  class GlobalSimilarityStoreWriter {
    const key: StoreKey
    var disk: Disk
    var nextFrameId: u64
    var pending: seq<GlobalDescriptor>
    ghost const initial: Disk
    ghost var log: seq<DiskStep>
    ghost var appended: seq<GlobalDescriptor>

    ghost predicate Valid()
      reads this
    {
      && Contiguous(appended)
      && nextFrameId == |appended|
      && Consistent(initial, log, disk, key, appended, pending)
    }

    constructor Begin(disk: Disk, key: StoreKey)
      ensures Valid() && this.key == key && initial == disk && appended == []
    {
      this.key, this.initial := key, disk;
      this.disk := Apply(disk, Create(key));
      nextFrameId, pending := 0, [];
      log, appended := [Create(key)], [];
    }

    /** One transaction: either every pending descriptor and its nine rows are committed, or none. */
    method FlushBatch() returns (r: Result<(), Failure>)
      requires Valid()
      modifies this
      ensures Valid() && appended == old(appended) && nextFrameId == old(nextFrameId)
      ensures r.Ok? ==> pending == []
      ensures r.Err? ==> log == old(log) && pending == old(pending) && nextFrameId > I64_MAX + 1
    {
      if pending == [] {
        return Ok(());
      }
      BuildingIsOpen(initial, log, disk, key, appended, pending);
      hide IndexOf, Consistent, Contiguous;
      var file := disk.building.value;
      var inserted := InsertPending(file.database.tables, pending);
      if inserted.Err? {
        PendingIsTail(initial, log, disk, key, appended, pending);
        LastIsLargest(appended, pending);
        return Err(NumericRange);
      }
      CommitKeeps(initial, log, disk, key, appended, pending);
      log := log + [Commit(pending)];
      disk := disk.(building := Some(file.(database := file.database.(tables := inserted.value))));
      pending := [];
      return Ok(());
    }

    method Append(frame: u64, average: Hash, difference: Hash, rgb: seq<byte>) returns (r: Result<(), Failure>)
      requires Valid()
      modifies this
      ensures disk.final == old(disk.final)
      ensures frame != old(nextFrameId) ==> r == Err(NonContiguousFrameIds(old(nextFrameId), frame))
      ensures frame == old(nextFrameId) && |rgb| != DESCRIPTOR_BYTES ==>
        r == Err(Failure.InvalidDescriptorLength(|rgb|))
      ensures frame != old(nextFrameId) || |rgb| != DESCRIPTOR_BYTES ==>
        Valid() && appended == old(appended) && log == old(log)
      ensures r.Ok? ==>
        && Valid()
        && |rgb| == DESCRIPTOR_BYTES
        && appended == old(appended) + [GlobalDescriptor(frame, average, difference, rgb)]
        && |pending| == if old(|pending|) + 1 >= 128 then 0 else old(|pending|) + 1
      ensures r == Err(NumericRange) ==> old(nextFrameId) > I64_MAX
    {
      FinalIsInitial();
      if frame != nextFrameId {
        return Err(NonContiguousFrameIds(nextFrameId, frame));
      }
      if |rgb| != DESCRIPTOR_BYTES {
        return Err(Failure.InvalidDescriptorLength(|rgb|));
      }
      pending := pending + [GlobalDescriptor(frame, average, difference, rgb)];
      if nextFrameId == U64_MAX {
        return Err(NumericRange);
      }
      nextFrameId := nextFrameId + 1;
      appended := appended + [GlobalDescriptor(frame, average, difference, rgb)];
      assert appended[..|appended| - |pending|] == old(appended)[..|old(appended)| - |old(pending)|];
      assert Valid();
      if |pending| >= WRITE_BATCH {
        r := FlushBatch();
        FinalIsInitial();
        return;
      }
      return Ok(());
    }

    lemma FinalIsInitial()
      requires Valid()
      ensures disk.final == initial.final
    {
      FinalPathUntouched(initial, log, |log|);
      assert log[..|log|] == log;
    }

    /**
     * On success the final path holds the complete store of everything appended; at every earlier
     * point of the build's life on disk it held what it held before.
     */
    method Finish() returns (r: Result<u64, Failure>)
      requires Valid()
      modifies this
      ensures disk == Play(initial, log)
      ensures forall k | 0 <= k < |log| :: Play(initial, log[..k]).final == initial.final
      ensures r.Ok? ==>
        r.value == |old(appended)| && disk == Disk(Some(CompleteStore(key, old(appended))), None)
      ensures r.Err? ==> disk.final == initial.final && old(nextFrameId) > I64_MAX
    {
      hide IndexOf, Play, Apply;
      var flushed := FlushBatch();
      FinalIsInitial();
      StoppedEarlier(initial, log);
      if flushed.Err? {
        return Err(NumericRange);
      }
      var count := nextFrameId;
      if count > I64_MAX {
        return Err(NumericRange);
      }
      assert appended[..|appended|] == appended;
      Publishes(initial, log, key, appended);
      log := log + [MarkComplete(count), Rename];
      disk := Apply(disk, MarkComplete(count));
      disk := Apply(disk, Rename);
      return Ok(count);
    }
  }

  lemma StoppedEarlier(disk: Disk, log: seq<DiskStep>)
    requires NeverRenames(log)
    ensures forall k | 0 <= k <= |log| :: Play(disk, log[..k]).final == disk.final
  {
    forall k | 0 <= k <= |log| ensures Play(disk, log[..k]).final == disk.final {
      FinalPathUntouched(disk, log, k);
    }
  }
}
