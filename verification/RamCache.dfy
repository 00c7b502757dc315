/**
 * The byte-weighted RAM frame cache. The implementation keeps a map with access times and evicts
 * the smallest time; it is proved to behave as a list ordered from least to most recently used.
 */
module RamCache {
  import opened Common

  const USIZE_MAX: int := 0xFFFF_FFFF_FFFF_FFFF

  datatype CacheKey = CacheKey(source: nat, frame: u64)

  datatype CachedFrame = CachedFrame(key: CacheKey, pixels: seq<byte>)

  // ---- The simple form: a recency list ----

  datatype Cache = Cache(budget: nat, frames: seq<CachedFrame>)

  function Bytes(frames: seq<CachedFrame>): nat {
    if frames == [] then 0 else |frames[0].pixels| + Bytes(frames[1..])
  }

  function Drop(frames: seq<CachedFrame>, key: CacheKey): seq<CachedFrame> {
    if frames == [] then []
    else if frames[0].key == key then frames[1..]
    else [frames[0]] + Drop(frames[1..], key)
  }

  function Lookup(frames: seq<CachedFrame>, key: CacheKey): Option<CachedFrame> {
    if frames == [] then None else if frames[0].key == key then Some(frames[0]) else Lookup(frames[1..], key)
  }

  /** Drops from the least recent end until the rest fits. */
  function Fit(frames: seq<CachedFrame>, budget: nat): seq<CachedFrame> {
    if Bytes(frames) <= budget then frames else Fit(frames[1..], budget)
  }

  function Keep(frames: seq<CachedFrame>, source: nat): seq<CachedFrame> {
    if frames == [] then []
    else if frames[0].key.source == source then Keep(frames[1..], source)
    else [frames[0]] + Keep(frames[1..], source)
  }

  datatype Op =
    | Get(key: CacheKey)
    | Insert(frame: CachedFrame)
    | SetBudget(budget: nat)
    | InvalidateSource(source: nat)
    | Clear

  predicate Accepted(c: Cache, frame: CachedFrame) {
    |frame.pixels| <= c.budget
  }

  function Step(c: Cache, op: Op): Cache {
    match op
    case Get(key) =>
      (match Lookup(c.frames, key)
       case None => c
       case Some(frame) => c.(frames := Drop(c.frames, key) + [frame]))
    case Insert(frame) =>
      if Accepted(c, frame) then c.(frames := Fit(Drop(c.frames, frame.key) + [frame], c.budget)) else c
    case SetBudget(budget) => Cache(budget, Fit(c.frames, budget))
    case InvalidateSource(source) => c.(frames := Keep(c.frames, source))
    case Clear => c.(frames := [])
  }

  function Run(budget: nat, ops: seq<Op>): Cache {
    if ops == [] then Cache(budget, []) else Step(Run(budget, ops[..|ops| - 1]), ops[|ops| - 1])
  }

  lemma {:induction false} BytesAppend(a: seq<CachedFrame>, b: seq<CachedFrame>)
    ensures Bytes(a + b) == Bytes(a) + Bytes(b)
  {
    if a == [] {
      assert a + b == b;
    } else {
      assert (a + b)[1..] == a[1..] + b;
      BytesAppend(a[1..], b);
    }
  }

  /** Eviction removes exactly the shortest least-recent run that makes the rest fit. */
  lemma {:induction false} FitDropsShortestRun(frames: seq<CachedFrame>, budget: nat)
    ensures Bytes(Fit(frames, budget)) <= budget
    ensures |Fit(frames, budget)| <= |frames|
    ensures var k := |frames| - |Fit(frames, budget)|;
      && Fit(frames, budget) == frames[k..]
      && forall j | 0 <= j < k :: Bytes(frames[j..]) > budget
  {
    if Bytes(frames) > budget {
      FitDropsShortestRun(frames[1..], budget);
      var k := |frames| - |Fit(frames, budget)|;
      forall j | 0 <= j < k ensures Bytes(frames[j..]) > budget {
        if j == 0 {
          assert frames[0..] == frames;
        } else {
          assert frames[1..][j - 1..] == frames[j..];
        }
      }
      assert frames[1..][k - 1..] == frames[k..];
    }
  }

  /** An accepted frame is the most recent one, and its own eviction pass never reaches it. */
  lemma {:induction false} AcceptedSurvives(frames: seq<CachedFrame>, frame: CachedFrame, budget: nat)
    requires |frame.pixels| <= budget
    ensures var kept := Fit(frames + [frame], budget); |kept| > 0 && kept[|kept| - 1] == frame
    decreases |frames|
  {
    assert frames == [] ==> frames + [frame] == [frame] && Bytes(frames + [frame]) == |frame.pixels|;
    if Bytes(frames + [frame]) > budget {
      assert (frames + [frame])[1..] == frames[1..] + [frame];
      AcceptedSurvives(frames[1..], frame, budget);
    }
  }

  ghost predicate DistinctKeys(frames: seq<CachedFrame>) {
    forall i, j | 0 <= i < j < |frames| :: frames[i].key != frames[j].key
  }

  lemma {:induction false} DropHolds(frames: seq<CachedFrame>, key: CacheKey)
    requires DistinctKeys(frames)
    ensures DistinctKeys(Drop(frames, key))
    ensures forall x :: x in Drop(frames, key) <==> x in frames && x.key != key
  {
    if frames != [] {
      assert frames == [frames[0]] + frames[1..];
      DropHolds(frames[1..], key);
      var rest := Drop(frames[1..], key);
      forall i | 0 <= i < |rest| ensures rest[i].key != frames[0].key {
        assert rest[i] in frames[1..];
      }
    }
  }

  lemma {:induction false} KeepHolds(frames: seq<CachedFrame>, source: nat)
    requires DistinctKeys(frames)
    ensures DistinctKeys(Keep(frames, source))
    ensures forall x :: x in Keep(frames, source) <==> x in frames && x.key.source != source
    ensures Bytes(Keep(frames, source)) <= Bytes(frames)
  {
    if frames != [] {
      assert frames == [frames[0]] + frames[1..];
      KeepHolds(frames[1..], source);
      var rest := Keep(frames[1..], source);
      forall i | 0 <= i < |rest| ensures rest[i].key != frames[0].key {
        assert rest[i] in frames[1..];
      }
      BytesAppend([frames[0]], rest);
    }
  }

  lemma {:induction false} LookupHolds(frames: seq<CachedFrame>, key: CacheKey)
    requires DistinctKeys(frames)
    ensures forall x :: Lookup(frames, key) == Some(x) <==> x in frames && x.key == key
  {
    if frames != [] {
      assert frames == [frames[0]] + frames[1..];
      LookupHolds(frames[1..], key);
      forall x | x in frames[1..] ensures x.key != frames[0].key {
        var i :| 0 <= i < |frames| - 1 && frames[1..][i] == x;
        assert frames[i + 1] == x;
      }
    }
  }

  /** The frame of the last insert of `key` that the cache accepted. */
  function LastAccepted(budget: nat, ops: seq<Op>, key: CacheKey): Option<CachedFrame> {
    if ops == [] then None
    else
      var earlier, last := ops[..|ops| - 1], ops[|ops| - 1];
      if last.Insert? && last.frame.key == key && Accepted(Run(budget, earlier), last.frame) then Some(last.frame)
      else LastAccepted(budget, earlier, key)
  }

  ghost predicate Sound(budget: nat, ops: seq<Op>) {
    var c := Run(budget, ops);
    && DistinctKeys(c.frames)
    && (forall x | x in c.frames :: LastAccepted(budget, ops, x.key) == Some(x))
  }

  lemma FitHolds(frames: seq<CachedFrame>, budget: nat)
    requires DistinctKeys(frames)
    ensures DistinctKeys(Fit(frames, budget)) && forall x | x in Fit(frames, budget) :: x in frames
  {
    FitDropsShortestRun(frames, budget);
  }

  lemma {:induction false} ReachableIsSound(budget: nat, ops: seq<Op>)
    ensures Sound(budget, ops)
  {
    if ops != [] {
      var earlier, last := ops[..|ops| - 1], ops[|ops| - 1];
      ReachableIsSound(budget, earlier);
      var c := Run(budget, earlier);
      match last {
        case Get(key) =>
          DropHolds(c.frames, key);
          LookupHolds(c.frames, key);
        case Insert(frame) =>
          if Accepted(c, frame) {
            DropHolds(c.frames, frame.key);
            FitHolds(Drop(c.frames, frame.key) + [frame], c.budget);
          }
        case SetBudget(b) => FitHolds(c.frames, b);
        case InvalidateSource(source) => KeepHolds(c.frames, source);
        case Clear =>
      }
    }
  }

  /** A hit returns the frame last accepted under that key, whatever happened since. */
  lemma HitIsLastAccepted(budget: nat, ops: seq<Op>, key: CacheKey)
    ensures var hit := Lookup(Run(budget, ops).frames, key); hit.Some? ==> hit == LastAccepted(budget, ops, key)
  {
    ReachableIsSound(budget, ops);
    LookupHolds(Run(budget, ops).frames, key);
    var hit := Lookup(Run(budget, ops).frames, key);
    if hit.Some? {
      assert hit.value in Run(budget, ops).frames && hit.value.key == key;
    }
  }

  /** After every operation of every run the resident frames are within the budget. */
  lemma {:induction false} ReachableIsWithinBudget(budget: nat, ops: seq<Op>)
    ensures var c := Run(budget, ops); Bytes(c.frames) <= c.budget
  {
    if ops != [] {
      var earlier, last := ops[..|ops| - 1], ops[|ops| - 1];
      ReachableIsWithinBudget(budget, earlier);
      ReachableIsSound(budget, earlier);
      var c := Run(budget, earlier);
      match last {
        case Get(key) => MoveKeepsBytes(c.frames, key);
        case Insert(frame) =>
          if Accepted(c, frame) { FitDropsShortestRun(Drop(c.frames, frame.key) + [frame], c.budget); }
        case SetBudget(b) => FitDropsShortestRun(c.frames, b);
        case InvalidateSource(source) => KeepHolds(c.frames, source);
        case Clear =>
      }
    }
  }

  lemma {:induction false} DropBytes(frames: seq<CachedFrame>, key: CacheKey)
    ensures Bytes(frames) == Bytes(Drop(frames, key))
              + (match Lookup(frames, key) case None => 0 case Some(x) => |x.pixels|)
  {
    if frames != [] && frames[0].key != key {
      DropBytes(frames[1..], key);
      BytesAppend([frames[0]], Drop(frames[1..], key));
    }
  }

  lemma MoveKeepsBytes(frames: seq<CachedFrame>, key: CacheKey)
    ensures var found := Lookup(frames, key); found.Some? ==> Bytes(Drop(frames, key) + [found.value]) == Bytes(frames)
  {
    DropBytes(frames, key);
    var found := Lookup(frames, key);
    if found.Some? {
      BytesAppend(Drop(frames, key), [found.value]);
    }
  }

  // ---- Least recently used ----

  /** The operation uses `key` in cache `c`: an insert it accepts, or a lookup that hits. */
  predicate Uses(c: Cache, op: Op, key: CacheKey) {
    || (op.Insert? && op.frame.key == key && |op.frame.pixels| <= c.budget)
    || (op.Get? && op.key == key && exists x :: x in c.frames && x.key == key)
  }

  /** The number of the last operation that used `key`, or -1. */
  function LastUse(budget: nat, ops: seq<Op>, key: CacheKey): (r: int)
    ensures -1 <= r < |ops|
  {
    if ops == [] then -1
    else
      var earlier, last := ops[..|ops| - 1], ops[|ops| - 1];
      if Uses(Run(budget, earlier), last, key) then |ops| - 1 else LastUse(budget, earlier, key)
  }

  /** The frames were all used, and stand in the order of their last use. */
  ghost predicate Ordered(frames: seq<CachedFrame>, use: CacheKey -> int) {
    && (forall i | 0 <= i < |frames| :: use(frames[i].key) >= 0)
    && (forall i, j | 0 <= i < j < |frames| :: use(frames[i].key) < use(frames[j].key))
  }

  lemma {:induction false} DropOrdered(frames: seq<CachedFrame>, use: CacheKey -> int, key: CacheKey)
    requires Ordered(frames, use)
    ensures Ordered(Drop(frames, key), use) && forall x | x in Drop(frames, key) :: x in frames
  {
    hide Ordered;
    if frames != [] {
      assert frames == [frames[0]] + frames[1..];
      FirstIsEarliest(frames, use);
      DropOrdered(frames[1..], use, key);
      if frames[0].key != key {
        PrependOrdered(frames[0], Drop(frames[1..], key), use);
      }
    }
  }

  lemma {:induction false} KeepOrdered(frames: seq<CachedFrame>, use: CacheKey -> int, source: nat)
    requires Ordered(frames, use)
    ensures Ordered(Keep(frames, source), use) && forall x | x in Keep(frames, source) :: x in frames
  {
    hide Ordered;
    if frames != [] {
      assert frames == [frames[0]] + frames[1..];
      FirstIsEarliest(frames, use);
      KeepOrdered(frames[1..], use, source);
      if frames[0].key.source != source {
        PrependOrdered(frames[0], Keep(frames[1..], source), use);
      }
    }
  }

  lemma PrependOrdered(first: CachedFrame, rest: seq<CachedFrame>, use: CacheKey -> int)
    requires Ordered(rest, use) && use(first.key) >= 0 && forall x | x in rest :: use(first.key) < use(x.key)
    ensures Ordered([first] + rest, use)
  {
    forall i | 0 <= i < |rest| ensures use(first.key) < use(rest[i].key) {
      assert rest[i] in rest;
    }
  }

  lemma FirstIsEarliest(frames: seq<CachedFrame>, use: CacheKey -> int)
    requires Ordered(frames, use) && frames != []
    ensures Ordered(frames[1..], use) && use(frames[0].key) >= 0
    ensures forall x | x in frames[1..] :: use(frames[0].key) < use(x.key)
  {
  }

  lemma FitOrdered(frames: seq<CachedFrame>, use: CacheKey -> int, budget: nat)
    requires Ordered(frames, use)
    ensures Ordered(Fit(frames, budget), use)
  {
    FitDropsShortestRun(frames, budget);
  }

  /** Using one key leaves the order of the others, and puts that one last. */
  lemma UseOrdered(frames: seq<CachedFrame>, frame: CachedFrame, before: CacheKey -> int, after: CacheKey -> int)
    requires DistinctKeys(frames) && Ordered(frames, before)
    requires forall x | x in frames && x.key != frame.key :: after(x.key) == before(x.key) < after(frame.key)
    requires after(frame.key) >= 0
    ensures Ordered(Drop(frames, frame.key) + [frame], after)
  {
    DropHolds(frames, frame.key);
    DropOrdered(frames, before, frame.key);
    var rest := Drop(frames, frame.key);
    forall i | 0 <= i < |rest|
      ensures after(rest[i].key) == before(rest[i].key) < after(frame.key)
    {
      assert rest[i] in rest;
    }
  }

  lemma SameOrder(frames: seq<CachedFrame>, before: CacheKey -> int, after: CacheKey -> int)
    requires Ordered(frames, before) && forall x | x in frames :: after(x.key) == before(x.key)
    ensures Ordered(frames, after)
  {
    forall i | 0 <= i < |frames|
      ensures after(frames[i].key) == before(frames[i].key)
    {
      assert frames[i] in frames;
    }
  }

  function UseTimes(budget: nat, ops: seq<Op>): CacheKey -> int {
    key => LastUse(budget, ops, key)
  }

  /** Over every run the resident frames stand in rising order of their last use: eviction drops the least recent. */
  lemma {:induction false} RecencyIsLastUse(budget: nat, ops: seq<Op>)
    ensures var frames := Run(budget, ops).frames;
      && (forall i | 0 <= i < |frames| :: LastUse(budget, ops, frames[i].key) >= 0)
      && (forall i, j | 0 <= i < j < |frames| ::
            LastUse(budget, ops, frames[i].key) < LastUse(budget, ops, frames[j].key))
  {
    RecencyOrder(budget, ops);
  }

  lemma {:induction false} RecencyOrder(budget: nat, ops: seq<Op>)
    ensures Ordered(Run(budget, ops).frames, UseTimes(budget, ops))
  {
    if ops != [] {
      var earlier, last := ops[..|ops| - 1], ops[|ops| - 1];
      RecencyOrder(budget, earlier);
      ReachableIsSound(budget, earlier);
      StepOrder(budget, ops, earlier, last);
    }
  }

  lemma StepOrder(budget: nat, ops: seq<Op>, earlier: seq<Op>, last: Op)
    requires ops != [] && earlier == ops[..|ops| - 1] && last == ops[|ops| - 1]
    requires DistinctKeys(Run(budget, earlier).frames)
    requires Ordered(Run(budget, earlier).frames, UseTimes(budget, earlier))
    ensures Ordered(Step(Run(budget, earlier), last).frames, UseTimes(budget, ops))
  {
    hide Ordered, DistinctKeys, Run;
    var c, before, after := Run(budget, earlier), UseTimes(budget, earlier), UseTimes(budget, ops);
    forall key | !Uses(c, last, key) ensures after(key) == before(key) {}
    match last {
      case Get(key) =>
        LookupHolds(c.frames, key);
        var hit := Lookup(c.frames, key);
        if hit.Some? {
          assert hit.value in c.frames && hit.value.key == key;
          UseOrdered(c.frames, hit.value, before, after);
        } else {
          SameOrder(c.frames, before, after);
        }
      case Insert(frame) =>
        if Accepted(c, frame) {
          UseOrdered(c.frames, frame, before, after);
          FitOrdered(Drop(c.frames, frame.key) + [frame], after, c.budget);
        } else {
          SameOrder(c.frames, before, after);
        }
      case SetBudget(b) =>
        SameOrder(c.frames, before, after);
        FitOrdered(c.frames, after, b);
      case InvalidateSource(source) =>
        SameOrder(c.frames, before, after);
        KeepOrdered(c.frames, after, source);
      case Clear =>
        NothingOrdered(after);
    }
  }

  lemma NothingOrdered(use: CacheKey -> int)
    ensures Ordered([], use)
  {
  }

  /** A hit makes its frame the most recent one; the others keep their order. */
  lemma HitIsMostRecent(c: Cache, i: nat)
    requires DistinctKeys(c.frames) && i < |c.frames|
    ensures Step(c, Get(c.frames[i].key)).frames == c.frames[..i] + c.frames[i + 1..] + [c.frames[i]]
  {
    LookupHolds(c.frames, c.frames[i].key);
    assert c.frames[i] in c.frames;
    DropAt(c.frames, i);
  }

  /** An accepted insert puts its frame last and evicts from the front, no more than it has to. */
  lemma InsertEvictsLeastRecent(c: Cache, frame: CachedFrame)
    requires |frame.pixels| <= c.budget
    ensures var all, after := Drop(c.frames, frame.key) + [frame], Step(c, Insert(frame)).frames;
      && 0 < |after| <= |all| && after == all[|all| - |after|..] && Bytes(after) <= c.budget
      && (|after| < |all| ==> Bytes(all[|all| - |after| - 1..]) > c.budget)
  {
    FitDropsShortestRun(Drop(c.frames, frame.key) + [frame], c.budget);
    AcceptedSurvives(Drop(c.frames, frame.key), frame, c.budget);
  }

  /** A smaller budget evicts the same way, a larger one nothing. */
  lemma BudgetEvictsLeastRecent(c: Cache, budget: nat)
    ensures var after := Step(c, SetBudget(budget)).frames;
      && |after| <= |c.frames| && after == c.frames[|c.frames| - |after|..] && Bytes(after) <= budget
      && (|after| < |c.frames| ==> Bytes(c.frames[|c.frames| - |after| - 1..]) > budget)
  {
    FitDropsShortestRun(c.frames, budget);
  }

  /** What each operation does to the frames, without regard to their order. */
  lemma StepMeaning(c: Cache, op: Op, x: CachedFrame)
    requires DistinctKeys(c.frames)
    ensures op.Get? ==> (x in Step(c, op).frames <==> x in c.frames) && Step(c, op).budget == c.budget
    ensures op.Insert? && |op.frame.pixels| > c.budget ==> Step(c, op) == c
    ensures op.Insert? && |op.frame.pixels| <= c.budget && x in Step(c, op).frames ==>
      x == op.frame || (x in c.frames && x.key != op.frame.key)
    ensures op.Insert? && |op.frame.pixels| <= c.budget ==> op.frame in Step(c, op).frames
    ensures op.Insert? ==> Step(c, op).budget == c.budget
    ensures op.SetBudget? ==> Step(c, op).budget == op.budget && (x in Step(c, op).frames ==> x in c.frames)
    ensures op.InvalidateSource? ==>
      Step(c, op).budget == c.budget && (x in Step(c, op).frames <==> x in c.frames && x.key.source != op.source)
    ensures op.Clear? ==> Step(c, op) == Cache(c.budget, [])
  {
    match op {
      case Get(key) =>
        DropHolds(c.frames, key);
        LookupHolds(c.frames, key);
      case Insert(frame) =>
        if Accepted(c, frame) {
          DropHolds(c.frames, frame.key);
          FitDropsShortestRun(Drop(c.frames, frame.key) + [frame], c.budget);
          AcceptedSurvives(Drop(c.frames, frame.key), frame, c.budget);
        }
      case SetBudget(b) => FitDropsShortestRun(c.frames, b);
      case InvalidateSource(source) => KeepHolds(c.frames, source);
      case Clear =>
    }
  }

  // ---- The fast form: a map with access times ----

  datatype Entry = Entry(frame: CachedFrame, lastAccess: u64)

  /** The map holds exactly the frames of the list, each under its own key. */
  ghost predicate Tracks(entries: map<CacheKey, Entry>, frames: seq<CachedFrame>) {
    && DistinctKeys(frames)
    && (forall f | f in frames :: f.key in entries && entries[f.key].frame == f)
    && (forall k | k in entries :: entries[k].frame.key == k && entries[k].frame in frames)
  }

  /** Access times rise along the list, so the smallest time is at its least recent end. */
  ghost predicate InOrder(entries: map<CacheKey, Entry>, frames: seq<CachedFrame>, clock: u64) {
    && (forall f | f in frames :: f.key in entries && entries[f.key].lastAccess <= clock)
    && Rising(entries, frames)
  }

  ghost predicate Rising(entries: map<CacheKey, Entry>, frames: seq<CachedFrame>) {
    forall i, j | 0 <= i < j < |frames| :: TimeOf(entries, frames[i]) < TimeOf(entries, frames[j])
  }

  ghost function TimeOf(entries: map<CacheKey, Entry>, frame: CachedFrame): int {
    if frame.key in entries then entries[frame.key].lastAccess else 0
  }

  lemma Found(entries: map<CacheKey, Entry>, frames: seq<CachedFrame>, key: CacheKey)
    requires Tracks(entries, frames)
    ensures Lookup(frames, key) == if key in entries then Some(entries[key].frame) else None
  {
    LookupHolds(frames, key);
    var found := Lookup(frames, key);
    assert found.Some? ==> found.value in frames && found.value.key == key;
    if key in entries {
      assert entries[key].frame in frames && entries[key].frame.key == key;
      assert found == Some(entries[key].frame);
    }
  }

  lemma RemoveTracks(entries: map<CacheKey, Entry>, frames: seq<CachedFrame>, key: CacheKey)
    requires Tracks(entries, frames)
    ensures Tracks(entries - {key}, Drop(frames, key))
  {
    DropHolds(frames, key);
  }

  lemma TailIsDistinct(frames: seq<CachedFrame>)
    requires DistinctKeys(frames) && frames != []
    ensures DistinctKeys(frames[1..])
  {
  }

  lemma {:induction false} DropAt(frames: seq<CachedFrame>, i: nat)
    requires DistinctKeys(frames) && i < |frames|
    ensures Drop(frames, frames[i].key) == frames[..i] + frames[i + 1..]
  {
    if i > 0 {
      assert frames[0].key != frames[i].key;
      TailIsDistinct(frames);
      DropAt(frames[1..], i - 1);
      hide DistinctKeys;
      assert frames[1..][i - 1] == frames[i];
      assert [frames[0]] + frames[1..][..i - 1] == frames[..i] && frames[1..][i..] == frames[i + 1..];
    }
  }

  lemma Position(entries: map<CacheKey, Entry>, frames: seq<CachedFrame>, key: CacheKey) returns (i: nat)
    requires Tracks(entries, frames) && key in entries
    ensures i < |frames| && frames[i].key == key && Drop(frames, key) == frames[..i] + frames[i + 1..]
  {
    i :| 0 <= i < |frames| && frames[i] == entries[key].frame;
    DropAt(frames, i);
  }

  lemma CutIsRising(entries: map<CacheKey, Entry>, frames: seq<CachedFrame>, p: nat)
    requires Rising(entries, frames) && p < |frames|
    ensures Rising(entries, frames[..p] + frames[p + 1..])
  {
    hide TimeOf;
    var kept := frames[..p] + frames[p + 1..];
    forall i, j | 0 <= i < j < |kept| ensures TimeOf(entries, kept[i]) < TimeOf(entries, kept[j]) {
      var a, b := if i < p then i else i + 1, if j < p then j else j + 1;
      assert kept[i] == frames[a] && kept[j] == frames[b];
    }
  }

  lemma OthersKeepTimes(entries: map<CacheKey, Entry>, frames: seq<CachedFrame>, key: CacheKey)
    requires Rising(entries, frames) && forall f | f in frames :: f.key != key
    ensures Rising(entries - {key}, frames)
  {
    forall i, j | 0 <= i < j < |frames|
      ensures TimeOf(entries - {key}, frames[i]) < TimeOf(entries - {key}, frames[j])
    {
      assert frames[i] in frames && frames[j] in frames;
      assert TimeOf(entries, frames[i]) < TimeOf(entries, frames[j]);
    }
  }

  lemma RemoveInOrder(entries: map<CacheKey, Entry>, frames: seq<CachedFrame>, clock: u64, key: CacheKey)
    requires Tracks(entries, frames) && InOrder(entries, frames, clock) && key in entries
    ensures InOrder(entries - {key}, Drop(frames, key), clock)
  {
    hide Rising, Drop;
    var p := Position(entries, frames, key);
    DropHolds(frames, key);
    CutIsRising(entries, frames, p);
    OthersKeepTimes(entries, Drop(frames, key), key);
  }

  /** Filing a frame under the newest time puts it at the most recent end. */
  lemma FileTracks(entries: map<CacheKey, Entry>, frames: seq<CachedFrame>, frame: CachedFrame, now: u64)
    requires Tracks(entries, frames) && frame.key !in entries
    ensures Tracks(entries[frame.key := Entry(frame, now)], frames + [frame])
  {
    forall i | 0 <= i < |frames| ensures frames[i].key != frame.key {
      assert frames[i] in frames;
    }
  }

  lemma FileInOrder(entries: map<CacheKey, Entry>, frames: seq<CachedFrame>, frame: CachedFrame, clock: u64, now: u64)
    requires Tracks(entries, frames) && frame.key !in entries && InOrder(entries, frames, clock) && clock < now
    ensures InOrder(entries[frame.key := Entry(frame, now)], frames + [frame], now)
  {
    var filed := entries[frame.key := Entry(frame, now)];
    var longer := frames + [frame];
    forall f | f in frames ensures TimeOf(filed, f) == TimeOf(entries, f) <= clock {
    }
    forall i, j | 0 <= i < j < |longer| ensures TimeOf(filed, longer[i]) < TimeOf(filed, longer[j]) {
      assert longer[i] == frames[i] && frames[i] in frames;
      if j < |frames| {
        assert frames[j] in frames;
        assert TimeOf(entries, frames[i]) < TimeOf(entries, frames[j]);
      }
    }
  }

  ghost predicate IsOldest(entries: map<CacheKey, Entry>, key: CacheKey) {
    key in entries && forall k | k in entries :: entries[key].lastAccess <= entries[k].lastAccess
  }

  lemma OldestIsFirst(entries: map<CacheKey, Entry>, frames: seq<CachedFrame>, clock: u64, key: CacheKey)
    requires Tracks(entries, frames) && InOrder(entries, frames, clock) && IsOldest(entries, key)
    ensures |frames| > 0 && frames[0].key == key && Drop(frames, key) == frames[1..]
  {
    var frame := entries[key].frame;
    var i :| 0 <= i < |frames| && frames[i] == frame;
    assert frames[0] in frames;
    assert i > 0 ==> TimeOf(entries, frames[0]) < TimeOf(entries, frames[i]);
  }

  method FindOldest(entries: map<CacheKey, Entry>) returns (oldest: CacheKey)
    requires |entries| > 0
    ensures IsOldest(entries, oldest)
  {
    oldest :| oldest in entries;
    var rest := entries.Keys - {oldest};
    while rest != {}
      invariant oldest in entries && rest <= entries.Keys
      invariant forall k | k in entries && k !in rest :: entries[oldest].lastAccess <= entries[k].lastAccess
    {
      var k :| k in rest;
      if entries[k].lastAccess < entries[oldest].lastAccess {
        oldest := k;
      }
      rest := rest - {k};
    }
  }

  lemma RemoveBytes(entries: map<CacheKey, Entry>, frames: seq<CachedFrame>, key: CacheKey)
    requires Tracks(entries, frames) && key in entries
    ensures Bytes(frames) == Bytes(Drop(frames, key)) + |entries[key].frame.pixels|
  {
    Found(entries, frames, key);
    DropBytes(frames, key);
  }

  /** The 64-bit access clock wraps. */
  function NextTick(clock: u64): u64 {
    if clock == U64_MAX then 0 else clock + 1
  }

  datatype InsertResult = Inserted | TooLarge

  /** Before eviction, everything together can still be counted in a machine word. */
  ghost predicate Countable(frames: seq<CachedFrame>, frame: CachedFrame) {
    Bytes(Drop(frames, frame.key)) + |frame.pixels| <= USIZE_MAX
  }

  /** What a machine word cannot count of it. */
  ghost function Excess(frames: seq<CachedFrame>, frame: CachedFrame): nat {
    Max(Bytes(Drop(frames, frame.key)) + |frame.pixels| - USIZE_MAX, 0)
  }

  /** With a budget of at most half the address range every accepted frame is countable. */
  lemma HalfRangeIsCountable(c: Cache, frame: CachedFrame)
    requires Bytes(c.frames) <= c.budget && 2 * c.budget <= USIZE_MAX && Accepted(c, frame)
    ensures Countable(c.frames, frame)
  {
    DropBytes(c.frames, frame.key);
  }

  lemma LastHasBytes(frames: seq<CachedFrame>)
    requires frames != []
    ensures Bytes(frames) >= |frames[|frames| - 1].pixels|
  {
    var n := |frames| - 1;
    assert frames == frames[..n] + [frames[n]];
    BytesAppend(frames[..n], [frames[n]]);
  }

  class RamFrameCache {
    var budget: nat
    var resident: nat
    var clock: u64
    var entries: map<CacheKey, Entry>
    ghost var frames: seq<CachedFrame>

    ghost function State(): Cache
      reads this
    {
      Cache(budget, frames)
    }

    /** The accounting is exact and within budget; it does not depend on the clock. */
    ghost predicate Valid()
      reads this
    {
      Tracks(entries, frames) && resident == Bytes(frames) && resident <= budget <= USIZE_MAX
    }

    /** The accounts are short by `excess`, never below zero; exact when nothing is missing. */
    ghost predicate ShortBy(excess: nat)
      reads this
    {
      Tracks(entries, frames) && resident == Max(Bytes(frames) - excess, 0)
    }

    /** The clock has not wrapped since the oldest entry was last used. */
    ghost predicate Recent()
      reads this
    {
      InOrder(entries, frames, clock)
    }

    constructor (budget: nat)
      requires budget <= USIZE_MAX
      ensures Valid() && Recent() && State() == Cache(budget, []) && clock == 0
    {
      this.budget, resident, clock, entries, frames := budget, 0, 0, map[], [];
    }

    /** Removes an entry, if there is one, and its bytes from the accounts. */
    method Remove(key: CacheKey, ghost time: u64, ghost excess: nat)
      requires ShortBy(excess)
      modifies this`entries, this`resident, this`frames
      ensures ShortBy(excess)
      ensures frames == Drop(old(frames), key) && entries == old(entries) - {key}
      ensures old(InOrder(entries, frames, time)) ==> InOrder(entries, frames, time)
    {
      hide Tracks, InOrder;
      if key !in entries {
        NothingToDrop(entries, frames, key);
        assert entries == entries - {key};
        return;
      }
      RemoveTracks(entries, frames, key);
      RemoveBytes(entries, frames, key);
      if InOrder(entries, frames, time) {
        RemoveInOrder(entries, frames, time, key);
      }
      resident := Max(resident - |entries[key].frame.pixels|, 0);
      entries := entries - {key};
      frames := Drop(frames, key);
    }

    /** Files a frame under the current time, as the most recent one. */
    method File(frame: CachedFrame, ghost time: u64)
      requires ShortBy(0) && frame.key !in entries
      modifies this`entries, this`resident, this`frames
      ensures ShortBy(Max(Bytes(frames) - USIZE_MAX, 0))
      ensures frames == old(frames) + [frame] && Bytes(frames) == Bytes(old(frames)) + |frame.pixels|
      ensures old(InOrder(entries, frames, time)) && time < clock ==> InOrder(entries, frames, clock)
    {
      hide Tracks, InOrder;
      FileTracks(entries, frames, frame, clock);
      if InOrder(entries, frames, time) && time < clock {
        FileInOrder(entries, frames, frame, time, clock);
      }
      BytesAppend(frames, [frame]);
      resident := Min(resident + |frame.pixels|, USIZE_MAX);
      entries := entries[frame.key := Entry(frame, clock)];
      frames := frames + [frame];
    }

    method EvictToBudget(ghost excess: nat)
      requires ShortBy(excess)
      modifies this`entries, this`resident, this`frames
      ensures ShortBy(excess) && resident <= budget
      ensures old(Recent()) ==> Recent() && frames == Fit(old(frames), budget + excess)
    {
      hide Tracks, InOrder;
      ghost var recent := Recent();
      while resident > budget
        invariant ShortBy(excess)
        invariant recent ==>
          InOrder(entries, frames, clock) && Fit(frames, budget + excess) == Fit(old(frames), budget + excess)
        decreases |frames|
      {
        HasEntries(entries, frames);
        var oldest := FindOldest(entries);
        if recent {
          OldestIsFirst(entries, frames, clock, oldest);
        }
        DropShortens(entries, frames, oldest);
        Remove(oldest, clock, excess);
      }
    }

    method Get(key: CacheKey) returns (hit: Option<CachedFrame>)
      requires Valid()
      modifies this
      ensures Valid()
      ensures hit == Lookup(old(frames), key)
      ensures State() == Step(old(State()), Op.Get(key))
      ensures old(Recent()) && old(clock) < U64_MAX ==> Recent()
    {
      hide Tracks, InOrder;
      Found(entries, frames, key);
      ghost var wasRecent, before := Recent(), clock;
      clock := NextTick(clock);
      if key !in entries {
        if wasRecent && before < U64_MAX { LaterClock(entries, frames, before, clock); }
        return None;
      }
      var frame := entries[key].frame;
      MoveKeepsBytes(frames, key);
      RemoveTracks(entries, frames, key);
      KeyOf(entries, frames, key);
      FileTracks(entries - {key}, Drop(frames, key), frame, clock);
      if wasRecent && before < U64_MAX {
        RemoveInOrder(entries, frames, before, key);
        FileInOrder(entries - {key}, Drop(frames, key), frame, before, clock);
      }
      assert (entries - {key})[key := Entry(frame, clock)] == entries[key := Entry(frame, clock)];
      entries := entries[key := Entry(frame, clock)];
      frames := Drop(frames, key) + [frame];
      return Some(frame);
    }

    method InsertFrame(frame: CachedFrame) returns (r: InsertResult)
      requires Valid()
      modifies this
      ensures r == TooLarge <==> |frame.pixels| > budget
      ensures r == TooLarge ==> Valid() && State() == old(State())
      ensures Countable(old(frames), frame) ==> Valid()
      ensures old(Recent()) && old(clock) < U64_MAX ==>
        Recent() && (r == Inserted ==> |frames| > 0 && frames[|frames| - 1] == frame)
      ensures old(Recent()) && old(clock) < U64_MAX && Countable(old(frames), frame) ==>
        State() == Step(old(State()), Insert(frame))
      ensures old(Recent()) && old(clock) < U64_MAX && r == Inserted && !Countable(old(frames), frame) ==>
        resident < Bytes(frames)
      ensures old(Recent()) && old(clock) < U64_MAX && r == Inserted ==>
        && frames == Fit(Drop(old(frames), frame.key) + [frame], budget + Excess(old(frames), frame))
        && resident == Max(Bytes(frames) - Excess(old(frames), frame), 0)
      ensures budget == old(budget) && clock == if r == TooLarge then old(clock) else NextTick(old(clock))
    {
      hide Tracks, InOrder, Fit, Drop, Bytes;
      if |frame.pixels| > budget {
        return TooLarge;
      }
      DropBytes(frames, frame.key);
      AcceptedSurvives(Drop(frames, frame.key), frame, budget + Excess(frames, frame));
      Accept(frame);
      if frames != [] {
        LastHasBytes(frames);
      }
      return Inserted;
    }

    /** Replaces, files and evicts; the accounts end short by what the word could not count. */
    method Accept(frame: CachedFrame)
      requires Valid()
      modifies this`clock, this`entries, this`resident, this`frames
      ensures clock == NextTick(old(clock))
      ensures ShortBy(Excess(old(frames), frame)) && resident <= budget
      ensures old(Recent()) && old(clock) < U64_MAX ==>
        && Recent()
        && frames == Fit(Drop(old(frames), frame.key) + [frame], budget + Excess(old(frames), frame))
    {
      hide Tracks, InOrder, Fit, Drop;
      ghost var before, list := clock, frames;
      clock := NextTick(clock);
      Remove(frame.key, before, 0);
      File(frame, before);
      EvictToBudget(Excess(list, frame));
    }

    method SetBudgetBytes(budget: nat)
      requires Valid() && budget <= USIZE_MAX
      modifies this
      ensures Valid()
      ensures this.budget == budget
      ensures old(Recent()) ==> Recent() && State() == Step(old(State()), SetBudget(budget))
    {
      this.budget := budget;
      EvictToBudget(0);
    }

    /** Removes the given entries one by one, in whatever order the set gives them. */
    method RemoveAll(keys: set<CacheKey>)
      requires Tracks(entries, frames) && resident == Bytes(frames)
      modifies this`entries, this`resident, this`frames
      ensures Tracks(entries, frames) && resident == Bytes(frames) <= Bytes(old(frames))
      ensures frames == Without(old(frames), keys)
      ensures old(Recent()) ==> Recent()
    {
      DistinctFrames(entries, frames);
      WithoutNone(frames);
      hide Tracks, InOrder, Without, Drop, DistinctKeys;
      ghost var list, recent := frames, Recent();
      var rest := keys;
      ghost var gone: set<CacheKey> := {};
      while rest != {}
        invariant gone + rest == keys && gone !! rest
        invariant Tracks(entries, frames) && resident == Bytes(frames) <= Bytes(list)
        invariant frames == Without(list, gone)
        invariant recent ==> InOrder(entries, frames, clock)
      {
        var key :| key in rest;
        WithoutOneMore(list, gone, key);
        DropBytes(frames, key);
        Remove(key, clock, 0);
        rest := rest - {key};
        gone := gone + {key};
      }
      assert gone == keys;
    }

    method InvalidateSourceFrames(source: nat)
      requires Valid()
      modifies this
      ensures Valid()
      ensures State() == Step(old(State()), InvalidateSource(source))
      ensures old(Recent()) ==> Recent()
    {
      hide Tracks, InOrder, Without, Keep;
      var keys := set key | key in entries && key.source == source;
      WithoutSource(entries, frames, keys, source);
      RemoveAll(keys);
    }

    method ClearAll()
      requires Valid()
      modifies this
      ensures Valid() && Recent() && State() == Step(old(State()), Clear)
    {
      entries, resident, frames := map[], 0, [];
    }
  }

  lemma HasEntries(entries: map<CacheKey, Entry>, frames: seq<CachedFrame>)
    requires Tracks(entries, frames) && Bytes(frames) > 0
    ensures |entries| > 0
  {
    assert frames[0] in frames && frames[0].key in entries;
  }

  lemma DropShortens(entries: map<CacheKey, Entry>, frames: seq<CachedFrame>, key: CacheKey)
    requires Tracks(entries, frames) && key in entries
    ensures |Drop(frames, key)| < |frames|
  {
    var i := Position(entries, frames, key);
  }

  lemma LaterClock(entries: map<CacheKey, Entry>, frames: seq<CachedFrame>, before: u64, after: u64)
    requires InOrder(entries, frames, before) && before <= after
    ensures InOrder(entries, frames, after)
  {
  }

  lemma KeyOf(entries: map<CacheKey, Entry>, frames: seq<CachedFrame>, key: CacheKey)
    requires Tracks(entries, frames) && key in entries
    ensures entries[key].frame.key == key
  {
  }

  lemma {:induction false} DropMissing(frames: seq<CachedFrame>, key: CacheKey)
    requires forall i | 0 <= i < |frames| :: frames[i].key != key
    ensures Drop(frames, key) == frames
  {
    if frames != [] {
      DropMissing(frames[1..], key);
    }
  }

  lemma NothingToDrop(entries: map<CacheKey, Entry>, frames: seq<CachedFrame>, key: CacheKey)
    requires Tracks(entries, frames) && key !in entries
    ensures Drop(frames, key) == frames
  {
    forall i | 0 <= i < |frames| ensures frames[i].key != key {
      assert frames[i] in frames;
    }
    DropMissing(frames, key);
  }

  function Without(frames: seq<CachedFrame>, keys: set<CacheKey>): seq<CachedFrame> {
    if frames == [] then []
    else if frames[0].key in keys then Without(frames[1..], keys)
    else [frames[0]] + Without(frames[1..], keys)
  }

  lemma DistinctFrames(entries: map<CacheKey, Entry>, frames: seq<CachedFrame>)
    requires Tracks(entries, frames)
    ensures DistinctKeys(frames)
  {
  }

  lemma {:induction false} WithoutNone(frames: seq<CachedFrame>)
    ensures Without(frames, {}) == frames
  {
    if frames != [] {
      WithoutNone(frames[1..]);
    }
  }

  lemma {:induction false} WithoutMissing(frames: seq<CachedFrame>, keys: set<CacheKey>, key: CacheKey)
    requires forall i | 0 <= i < |frames| :: frames[i].key != key
    ensures Without(frames, keys + {key}) == Without(frames, keys)
  {
    if frames != [] {
      WithoutMissing(frames[1..], keys, key);
    }
  }

  lemma {:induction false} WithoutOneMore(frames: seq<CachedFrame>, keys: set<CacheKey>, key: CacheKey)
    requires DistinctKeys(frames) && key !in keys
    ensures Drop(Without(frames, keys), key) == Without(frames, keys + {key})
  {
    if frames != [] {
      var rest := Without(frames[1..], keys);
      WithoutOneMore(frames[1..], keys, key);
      if frames[0].key == key {
        WithoutMissing(frames[1..], keys, key);
        assert ([frames[0]] + rest)[1..] == rest;
      } else if frames[0].key !in keys {
        assert ([frames[0]] + rest)[1..] == rest;
      }
    }
  }

  lemma WithoutSource(entries: map<CacheKey, Entry>, frames: seq<CachedFrame>, keys: set<CacheKey>, source: nat)
    requires Tracks(entries, frames)
    requires forall key :: key in keys <==> key in entries && key.source == source
    ensures Without(frames, keys) == Keep(frames, source)
  {
    forall i | 0 <= i < |frames| ensures frames[i].key in keys <==> frames[i].key.source == source {
      assert frames[i] in frames;
    }
    WithoutIsKeep(frames, keys, source);
  }

  lemma {:induction false} WithoutIsKeep(frames: seq<CachedFrame>, keys: set<CacheKey>, source: nat)
    requires forall i | 0 <= i < |frames| :: frames[i].key in keys <==> frames[i].key.source == source
    ensures Without(frames, keys) == Keep(frames, source)
  {
    if frames != [] {
      WithoutIsKeep(frames[1..], keys, source);
    }
  }

  // ---- An insert that cannot be counted ----

  /** A frame that fills the whole address range and one more byte, each within the largest budget. */
  function WholeRange(): CachedFrame {
    CachedFrame(CacheKey(0, 0), seq(USIZE_MAX, _ => 0))
  }

  function OneByte(): CachedFrame {
    CachedFrame(CacheKey(0, 1), [0])
  }

  lemma FirstFills()
    ensures Drop([], WholeRange().key) + [WholeRange()] == [WholeRange()]
    ensures Bytes([WholeRange()]) == |WholeRange().pixels| == USIZE_MAX && Excess([], WholeRange()) == 0
    ensures Fit([WholeRange()], USIZE_MAX) == [WholeRange()]
  {
    assert [WholeRange()][1..] == [];
  }

  lemma SecondOverflows()
    ensures Drop([WholeRange()], OneByte().key) + [OneByte()] == [WholeRange(), OneByte()]
    ensures Bytes([WholeRange(), OneByte()]) == USIZE_MAX + 1 && Excess([WholeRange()], OneByte()) == 1
    ensures Fit([WholeRange(), OneByte()], USIZE_MAX + 1) == [WholeRange(), OneByte()] && |OneByte().pixels| == 1
  {
    FirstFills();
    BytesAppend([WholeRange()], [OneByte()]);
    assert [WholeRange()][1..] == [] && [OneByte()][1..] == [];
    assert [WholeRange()] + [OneByte()] == [WholeRange(), OneByte()];
    assert Drop([WholeRange()], OneByte().key) == [WholeRange()] + Drop([], OneByte().key);
  }

  /** Both are accepted and stay: the cache then holds more bytes than its budget and than its accounts say. */
  method UncountedInsert() returns (cache: RamFrameCache)
    ensures fresh(cache) && cache.budget == USIZE_MAX && cache.frames == [WholeRange(), OneByte()]
    ensures cache.resident == USIZE_MAX < Bytes(cache.frames)
  {
    hide Bytes, Drop, Fit, Excess, Countable, WholeRange, OneByte;
    FirstFills();
    SecondOverflows();
    cache := new RamFrameCache(USIZE_MAX);
    var first := cache.InsertFrame(WholeRange());
    var second := cache.InsertFrame(OneByte());
  }
}
