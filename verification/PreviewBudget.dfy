/**
 * The process-wide preview allowance. Every retained scrub session has its own preview cache; the
 * configured total is divided over the retained sessions, and a cache whose session was displaced
 * or forgotten is trimmed to nothing even though other code may still hold and use it.
 */
module PreviewBudget {
  import opened Common

  const MAX_RETAINED_PREVIEW_SESSIONS: int := 2
  const PREVIEW_CACHE_MAX_FRAMES: int := 1024

  datatype SessionId = SessionId(value: int)

  // ---- One preview cache: entries from least to most recently used ----

  datatype Key = Key(frame: nat, maxEdge: nat)

  datatype Entry = Entry(key: Key, bytes: nat)

  datatype Cache = Cache(budget: nat, entries: seq<Entry>)

  function Resident(entries: seq<Entry>): nat {
    if entries == [] then 0 else entries[0].bytes + Resident(entries[1..])
  }

  /** Drops least recently used entries until `extra` more bytes fit and at most `limit` entries remain. */
  function Evict(entries: seq<Entry>, extra: nat, budget: nat, limit: nat): (kept: seq<Entry>)
    ensures kept == [] || (Resident(kept) + extra <= budget && |kept| <= limit)
    ensures exists k :: 0 <= k <= |entries| && kept == entries[k..]
  {
    if entries != [] && (Resident(entries) + extra > budget || |entries| > limit) then
      var kept := Evict(entries[1..], extra, budget, limit);
      assert exists k :: 0 <= k <= |entries| - 1 && kept == entries[1..][k..];
      var k :| 0 <= k <= |entries| - 1 && kept == entries[1..][k..];
      assert entries[1..][k..] == entries[k + 1..];
      kept
    else
      assert entries == entries[0..];
      entries
  }

  function SetBudget(c: Cache, budget: nat): Cache {
    Cache(budget, Evict(c.entries, 0, budget, PREVIEW_CACHE_MAX_FRAMES))
  }

  function Without(entries: seq<Entry>, key: Key): seq<Entry> {
    if entries == [] then []
    else if entries[0].key == key then Without(entries[1..], key)
    else [entries[0]] + Without(entries[1..], key)
  }

  function Find(entries: seq<Entry>, key: Key): Option<Entry> {
    if entries == [] then None else if entries[0].key == key then Some(entries[0]) else Find(entries[1..], key)
  }

  function Insert(c: Cache, entry: Entry): Cache {
    if c.budget == 0 || entry.bytes > c.budget then c
    else
      var kept := Evict(Without(c.entries, entry.key), entry.bytes, c.budget, PREVIEW_CACHE_MAX_FRAMES - 1);
      c.(entries := kept + [entry])
  }

  function Get(c: Cache, key: Key): Cache {
    match Find(c.entries, key)
    case None => c
    case Some(entry) => c.(entries := Without(c.entries, key) + [entry])
  }

  ghost predicate WithinBudget(c: Cache) {
    Resident(c.entries) <= c.budget
  }

  lemma {:induction false} ResidentAppend(a: seq<Entry>, b: seq<Entry>)
    ensures Resident(a + b) == Resident(a) + Resident(b)
  {
    if a == [] {
      assert a + b == b;
    } else {
      assert (a + b)[1..] == a[1..] + b;
      ResidentAppend(a[1..], b);
    }
  }

  lemma {:induction false} WithoutFrees(entries: seq<Entry>, key: Key)
    ensures Resident(Without(entries, key)) + (match Find(entries, key) case None => 0 case Some(e) => e.bytes)
              <= Resident(entries)
  {
    if entries != [] {
      WithoutFrees(entries[1..], key);
      if entries[0].key != key {
        var rest := Without(entries[1..], key);
        assert ([entries[0]] + rest)[1..] == rest;
      }
    }
  }

  /** The cache contract: after any operation the resident bytes are within the cache's own budget. */
  lemma CacheStaysWithinBudget(c: Cache, entry: Entry, key: Key, budget: nat)
    requires WithinBudget(c)
    ensures WithinBudget(SetBudget(c, budget)) && SetBudget(c, budget).budget == budget
    ensures WithinBudget(Insert(c, entry)) && Insert(c, entry).budget == c.budget
    ensures WithinBudget(Get(c, key)) && Get(c, key).budget == c.budget
  {
    if !(c.budget == 0 || entry.bytes > c.budget) {
      var kept := Evict(Without(c.entries, entry.key), entry.bytes, c.budget, PREVIEW_CACHE_MAX_FRAMES - 1);
      ResidentAppend(kept, [entry]);
    }
    var found := Find(c.entries, key);
    if found.Some? {
      WithoutFrees(c.entries, key);
      ResidentAppend(Without(c.entries, key), [found.value]);
    }
  }

  ghost predicate DistinctKeys(entries: seq<Entry>) {
    forall i, j | 0 <= i < j < |entries| :: entries[i].key != entries[j].key
  }

  lemma {:induction false} WithoutAbsent(entries: seq<Entry>, key: Key)
    requires forall i | 0 <= i < |entries| :: entries[i].key != key
    ensures Without(entries, key) == entries
  {
    if entries != [] {
      WithoutAbsent(entries[1..], key);
      assert [entries[0]] + entries[1..] == entries;
    }
  }

  lemma {:induction false} WithoutAt(entries: seq<Entry>, i: nat)
    requires DistinctKeys(entries) && i < |entries|
    ensures Without(entries, entries[i].key) == entries[..i] + entries[i + 1..]
    ensures Find(entries, entries[i].key) == Some(entries[i])
  {
    if i == 0 {
      WithoutAbsent(entries[1..], entries[0].key);
      assert entries[..0] + entries[1..] == entries[1..];
    } else {
      WithoutAt(entries[1..], i - 1);
      assert entries[1..][i - 1] == entries[i];
      assert [entries[0]] + (entries[1..][..i - 1] + entries[1..][i..]) == entries[..i] + entries[i + 1..];
    }
  }

  /** A hit makes its entry the most recent one; the others keep their order. A miss changes nothing. */
  lemma HitIsMostRecent(c: Cache, i: nat, key: Key)
    requires DistinctKeys(c.entries)
    ensures i < |c.entries| ==>
      Get(c, c.entries[i].key) == c.(entries := c.entries[..i] + c.entries[i + 1..] + [c.entries[i]])
    ensures (forall j | 0 <= j < |c.entries| :: c.entries[j].key != key) ==> Get(c, key) == c
  {
    if i < |c.entries| {
      WithoutAt(c.entries, i);
    }
    FindFinds(c.entries, key);
  }

  lemma {:induction false} FindFinds(entries: seq<Entry>, key: Key)
    ensures Find(entries, key).Some? <==> exists j | 0 <= j < |entries| :: entries[j].key == key
  {
    if entries != [] {
      FindFinds(entries[1..], key);
      if Find(entries[1..], key).Some? {
        var j :| 0 <= j < |entries| - 1 && entries[1..][j].key == key;
        assert entries[j + 1].key == key;
      }
      if j :| 0 < j < |entries| && entries[j].key == key {
        assert entries[1..][j - 1].key == key;
      }
    }
  }

  /** Eviction drops from the least recent end, and no more than it has to. */
  lemma {:induction false} EvictsNoMoreThanNeeded(entries: seq<Entry>, extra: nat, budget: nat, limit: nat)
    ensures var kept := Evict(entries, extra, budget, limit);
      && |kept| <= |entries| && kept == entries[|entries| - |kept|..]
      && forall j | 0 <= j < |entries| - |kept| :: Resident(entries[j..]) + extra > budget || |entries| - j > limit
  {
    var kept := Evict(entries, extra, budget, limit);
    if entries != [] && (Resident(entries) + extra > budget || |entries| > limit) {
      EvictsNoMoreThanNeeded(entries[1..], extra, budget, limit);
      forall j | 0 <= j < |entries| - |kept|
        ensures Resident(entries[j..]) + extra > budget || |entries| - j > limit
      {
        if j == 0 {
          assert entries[0..] == entries;
        } else {
          assert entries[1..][j - 1..] == entries[j..];
        }
      }
      assert entries[1..][|entries| - 1 - |kept|..] == entries[|entries| - |kept|..];
    }
  }

  /**
   * An entry that fits is kept as the most recent one, in place of any other under its key. `k` others are
   * evicted from the least recent end, no more than bytes or the limit of 1024 entries demand.
   */
  lemma InsertMeaning(c: Cache, entry: Entry) returns (k: nat)
    ensures c.budget == 0 || entry.bytes > c.budget ==> Insert(c, entry) == c
    ensures 0 < c.budget && entry.bytes <= c.budget ==>
      var others := Without(c.entries, entry.key);
      && k <= |others| && |others| - k < 1024
      && Insert(c, entry) == c.(entries := others[k..] + [entry])
      && (k > 0 ==> Resident(others[k - 1..]) + entry.bytes > c.budget || |others| - k == 1023)
  {
    k := 0;
    if 0 < c.budget && entry.bytes <= c.budget {
      var others := Without(c.entries, entry.key);
      hide Without, Evict, Resident;
      EvictsNoMoreThanNeeded(others, entry.bytes, c.budget, 1023);
      EvictedFits(others, entry.bytes, c.budget, 1023);
      k := |others| - |Evict(others, entry.bytes, c.budget, 1023)|;
    }
  }

  lemma EvictedFits(entries: seq<Entry>, extra: nat, budget: nat, limit: nat)
    ensures |Evict(entries, extra, budget, limit)| <= limit
  {
    hide Resident;
  }

  /** A new budget evicts the same way, down to nothing at zero. */
  lemma BudgetMeaning(c: Cache, budget: nat)
    requires |c.entries| <= 1024
    ensures var after := SetBudget(c, budget).entries;
      && |after| <= |c.entries| && after == c.entries[|c.entries| - |after|..]
      && (|after| < |c.entries| ==> Resident(c.entries[|c.entries| - |after| - 1..]) > budget)
  {
    EvictsNoMoreThanNeeded(c.entries, 0, budget, PREVIEW_CACHE_MAX_FRAMES);
  }

  lemma {:induction false} WithoutHolds(entries: seq<Entry>, key: Key)
    requires DistinctKeys(entries)
    ensures DistinctKeys(Without(entries, key))
    ensures forall x :: x in Without(entries, key) <==> x in entries && x.key != key
  {
    if entries != [] {
      assert entries == [entries[0]] + entries[1..];
      WithoutHolds(entries[1..], key);
      var rest := Without(entries[1..], key);
      forall i | 0 <= i < |rest| ensures rest[i].key != entries[0].key {
        assert rest[i] in entries[1..];
      }
    }
  }

  lemma AppendDistinct(entries: seq<Entry>, k: nat, entry: Entry)
    requires DistinctKeys(entries) && k <= |entries| && forall x | x in entries :: x.key != entry.key
    ensures DistinctKeys(entries[k..] + [entry])
  {
    forall i | 0 <= i < |entries| ensures entries[i].key != entry.key {
      assert entries[i] in entries;
    }
  }

  /** Every use keeps one entry per key. */
  lemma KeysStayDistinct(c: Cache, entry: Entry, key: Key, budget: nat)
    requires DistinctKeys(c.entries)
    ensures DistinctKeys(Insert(c, entry).entries) && DistinctKeys(Get(c, key).entries)
    ensures DistinctKeys(SetBudget(c, budget).entries)
  {
    hide Evict, Without, DistinctKeys, Find;
    InsertDistinct(c, entry);
    GetDistinct(c, key);
    EvictsNoMoreThanNeeded(c.entries, 0, budget, PREVIEW_CACHE_MAX_FRAMES);
    TailDistinct(c.entries, |c.entries| - |Evict(c.entries, 0, budget, PREVIEW_CACHE_MAX_FRAMES)|);
  }

  lemma TailDistinct(entries: seq<Entry>, k: nat)
    requires DistinctKeys(entries) && k <= |entries|
    ensures DistinctKeys(entries[k..])
  {
  }

  lemma InsertDistinct(c: Cache, entry: Entry)
    requires DistinctKeys(c.entries)
    ensures DistinctKeys(Insert(c, entry).entries)
  {
    hide Evict, Without, DistinctKeys;
    WithoutHolds(c.entries, entry.key);
    var others := Without(c.entries, entry.key);
    EvictsNoMoreThanNeeded(others, entry.bytes, c.budget, PREVIEW_CACHE_MAX_FRAMES - 1);
    AppendDistinct(others, |others| - |Evict(others, entry.bytes, c.budget, PREVIEW_CACHE_MAX_FRAMES - 1)|, entry);
  }

  lemma GetDistinct(c: Cache, key: Key)
    requires DistinctKeys(c.entries)
    ensures DistinctKeys(Get(c, key).entries)
  {
    hide Without, DistinctKeys, Find;
    WithoutHolds(c.entries, key);
    FoundHasKey(c.entries, key);
    var found := Find(c.entries, key);
    if found.Some? {
      AppendDistinct(Without(c.entries, key), 0, found.value);
      assert Without(c.entries, key)[0..] == Without(c.entries, key);
    }
  }

  lemma {:induction false} FoundHasKey(entries: seq<Entry>, key: Key)
    ensures Find(entries, key).Some? ==> Find(entries, key).value.key == key
  {
    if entries != [] {
      FoundHasKey(entries[1..], key);
    }
  }

  // ---- Shares ----

  function Share(total: nat, count: nat, position: nat): nat
    requires count > 0
  {
    total / count + (if position < total % count then 1 else 0)
  }

  function SumShares(total: nat, count: nat, positions: nat): nat
    requires count > 0
  {
    if positions == 0 then 0 else SumShares(total, count, positions - 1) + Share(total, count, positions - 1)
  }

  lemma {:induction false} SumSharesClosed(total: nat, count: nat, positions: nat)
    requires 0 < count
    ensures SumShares(total, count, positions) == Times(positions, total / count) + Min(positions, total % count)
  {
    if positions > 0 {
      SumSharesClosed(total, count, positions - 1);
    }
  }

  /** The shares use up the total exactly and no two of them differ by more than one byte. */
  lemma SharesAreExactAndEven(total: nat, count: nat, p: nat, q: nat)
    requires count > 0
    ensures SumShares(total, count, count) == total
    ensures AbsDiff(Share(total, count, p), Share(total, count, q)) <= 1
    ensures p <= q ==> Share(total, count, p) >= Share(total, count, q)
  {
    SumSharesClosed(total, count, count);
    TimesIsProduct(count, total / count);
  }

  // ---- The registry ----

  datatype Handle = Handle(root: nat, cache: Cache, lastAccess: u64)

  datatype World = World(
    configured: nat,
    clock: u64,
    sessions: map<SessionId, Handle>,
    removed: seq<Cache>,   // caches of displaced or forgotten sessions that others still hold
    applied: nat)          // the configured total when shares were last handed out

  datatype Op =
    | Store(total: nat)  // configure, first half: publish the new total
    | Apply              // configure, second half: rebalance under the lock
    | Open(session: SessionId, root: nat, victim: SessionId)  // `victim`: the oldest, should one have to go
    | Forget(session: SessionId)
    | InsertPreview(session: SessionId, entry: Entry)
    | GetPreview(session: SessionId, key: Key)
    | InsertRemoved(index: nat, entry: Entry)
    | GetRemoved(index: nat, key: Key)

  function Initial(total: nat): World {
    World(total, 0, map[], [], total)
  }

  /** Position of a session among the retained ones, by session id. */
  function Rank(ids: set<SessionId>, id: SessionId): nat {
    |set other | other in ids && other.value < id.value|
  }

  /** The sessions after each has been given its share of `total`. */
  function Shared(sessions: map<SessionId, Handle>, total: nat): map<SessionId, Handle> {
    map id | id in sessions ::
      sessions[id].(cache := SetBudget(sessions[id].cache, Share(total, NonZero(|sessions|), Rank(sessions.Keys, id))))
  }

  function Rebalance(w: World): World {
    w.(applied := w.configured, sessions := Shared(w.sessions, w.configured))
  }

  function NonZero(n: nat): nat {
    if n == 0 then 1 else n
  }

  predicate IsOldest(sessions: map<SessionId, Handle>, victim: SessionId) {
    victim in sessions && forall id | id in sessions :: sessions[victim].lastAccess <= sessions[id].lastAccess
  }

  function Remove(w: World, session: SessionId): World
    requires session in w.sessions
  {
    w.(sessions := w.sessions - {session}, removed := w.removed + [SetBudget(w.sessions[session].cache, 0)])
  }

  function Tick(w: World): World {
    w.(clock := Min(w.clock + 1, U64_MAX))
  }

  function Added(w: World, session: SessionId, root: nat): World {
    w.(sessions := w.sessions[session := Handle(root, Cache(0, []), w.clock)])
  }

  function Admit(w: World, session: SessionId, root: nat): World {
    Rebalance(Added(w, session, root))
  }

  function Touch(w: World, session: SessionId): World
    requires session in w.sessions
  {
    w.(sessions := w.sessions[session := w.sessions[session].(lastAccess := w.clock)])
  }

  function WithCache(w: World, session: SessionId, cache: Cache): World
    requires session in w.sessions
  {
    w.(sessions := w.sessions[session := w.sessions[session].(cache := cache)])
  }

  /** One step. An impossible victim, an unknown session or cache cannot be named: no effect. */
  function Step(w: World, op: Op): World {
    match op
    case Store(total) => w.(configured := total)
    case Apply => Rebalance(w)
    case Open(session, root, victim) =>
      if session in w.sessions then Touch(Tick(w), session)
      else if |w.sessions| < MAX_RETAINED_PREVIEW_SESSIONS then Admit(Tick(w), session, root)
      else if IsOldest(w.sessions, victim) then Admit(Remove(Tick(w), victim), session, root)
      else w
    case Forget(session) => if session in w.sessions then Rebalance(Remove(w, session)) else w
    case InsertPreview(session, entry) =>
      if session in w.sessions then WithCache(w, session, Insert(w.sessions[session].cache, entry)) else w
    case GetPreview(session, key) =>
      if session in w.sessions then WithCache(w, session, Get(w.sessions[session].cache, key)) else w
    case InsertRemoved(i, entry) =>
      if i < |w.removed| then w.(removed := w.removed[i := Insert(w.removed[i], entry)]) else w
    case GetRemoved(i, key) =>
      if i < |w.removed| then w.(removed := w.removed[i := Get(w.removed[i], key)]) else w
  }

  function Run(total: nat, ops: seq<Op>): World {
    if ops == [] then Initial(total) else Step(Run(total, ops[..|ops| - 1]), ops[|ops| - 1])
  }

  // ---- What every step keeps ----

  ghost predicate EachWithinBudget(w: World) {
    forall id | id in w.sessions :: WithinBudget(w.sessions[id].cache)
  }

  /** A cache out of the registry has no allowance, so nothing can be resident in it again. */
  ghost predicate RemovedAreEmpty(w: World) {
    forall i | 0 <= i < |w.removed| :: w.removed[i].budget == 0 && WithinBudget(w.removed[i])
  }

  ghost predicate BudgetsAreShares(w: World) {
    forall id | id in w.sessions ::
      w.sessions[id].cache.budget == Share(w.applied, NonZero(|w.sessions|), Rank(w.sessions.Keys, id))
  }

  ghost predicate Retention(w: World) {
    && |w.sessions| <= MAX_RETAINED_PREVIEW_SESSIONS
    && forall id | id in w.sessions :: w.sessions[id].lastAccess <= w.clock
  }

  ghost predicate Invariant(w: World) {
    EachWithinBudget(w) && RemovedAreEmpty(w) && BudgetsAreShares(w) && Retention(w)
  }

  lemma RebalanceEstablishes(w: World)
    requires EachWithinBudget(w) && RemovedAreEmpty(w) && Retention(w)
    ensures Invariant(Rebalance(w))
    ensures Rebalance(w).sessions.Keys == w.sessions.Keys
  {
    var after := Rebalance(w);
    assert after.sessions.Keys == w.sessions.Keys;
    assert |after.sessions| == |after.sessions.Keys| == |w.sessions|;
    forall id | id in after.sessions ensures WithinBudget(after.sessions[id].cache) {
      var budget := Share(w.configured, NonZero(|w.sessions|), Rank(w.sessions.Keys, id));
      CacheStaysWithinBudget(w.sessions[id].cache, Entry(Key(0, 0), 0), Key(0, 0), budget);
    }
  }

  lemma RemoveKeeps(w: World, session: SessionId)
    requires EachWithinBudget(w) && RemovedAreEmpty(w) && Retention(w) && session in w.sessions
    ensures var after := Remove(w, session);
      EachWithinBudget(after) && RemovedAreEmpty(after) && Retention(after) && |after.sessions| == |w.sessions| - 1
  {
    var after := Remove(w, session);
    assert after.sessions.Keys == w.sessions.Keys - {session};
    assert |after.sessions| == |after.sessions.Keys| == |w.sessions.Keys| - 1;
    CacheStaysWithinBudget(w.sessions[session].cache, Entry(Key(0, 0), 0), Key(0, 0), 0);
  }

  lemma AdmitKeeps(w: World, session: SessionId, root: nat)
    requires EachWithinBudget(w) && RemovedAreEmpty(w) && Retention(w)
    requires session !in w.sessions && |w.sessions| < MAX_RETAINED_PREVIEW_SESSIONS
    ensures Invariant(Admit(w, session, root)) && session in Admit(w, session, root).sessions
  {
    AddedKeeps(w, session, root);
    RebalanceEstablishes(Added(w, session, root));
  }

  lemma TouchKeeps(w: World, session: SessionId)
    requires Invariant(w) && session in w.sessions
    ensures Invariant(Touch(w, session))
  {
    hide WithinBudget, Share, Rank;
    var after := Touch(w, session);
    assert after.sessions.Keys == w.sessions.Keys;
    assert |after.sessions| == |after.sessions.Keys|;
  }

  lemma TickKeeps(w: World)
    requires Invariant(w)
    ensures Invariant(Tick(w))
  {
    hide WithinBudget, Share, Rank;
  }

  lemma OpenKeeps(w: World, session: SessionId, root: nat, victim: SessionId)
    requires Invariant(w)
    ensures Invariant(Step(w, Open(session, root, victim)))
  {
    hide EachWithinBudget, RemovedAreEmpty, BudgetsAreShares, Admit, Remove, Touch;
    var ticked := Tick(w);
    TickKeeps(w);
    if session in w.sessions {
      TouchKeeps(ticked, session);
    } else if |w.sessions| < MAX_RETAINED_PREVIEW_SESSIONS {
      AdmitKeeps(ticked, session, root);
    } else if IsOldest(w.sessions, victim) {
      RemoveKeeps(ticked, victim);
      RemoveShrinks(ticked, victim);
      AdmitKeeps(Remove(ticked, victim), session, root);
    }
  }

  lemma RemoveShrinks(w: World, session: SessionId)
    requires session in w.sessions
    ensures Remove(w, session).sessions.Keys == w.sessions.Keys - {session}
  {
  }

  lemma WithCacheKeeps(w: World, session: SessionId, cache: Cache)
    requires Invariant(w) && session in w.sessions
    requires WithinBudget(cache) && cache.budget == w.sessions[session].cache.budget
    ensures Invariant(WithCache(w, session, cache))
  {
    var after := WithCache(w, session, cache);
    assert after.sessions.Keys == w.sessions.Keys;
    assert |after.sessions| == |after.sessions.Keys|;
  }

  lemma RemovedKeeps(w: World, i: nat, cache: Cache)
    requires Invariant(w) && i < |w.removed|
    requires WithinBudget(cache) && cache.budget == w.removed[i].budget
    ensures Invariant(w.(removed := w.removed[i := cache]))
  {
    hide WithinBudget, Share, Rank;
  }

  lemma ForgetKeeps(w: World, session: SessionId)
    requires Invariant(w) && session in w.sessions
    ensures Invariant(Rebalance(Remove(w, session)))
  {
    hide Remove, Rebalance;
    RemoveKeeps(w, session);
    RebalanceEstablishes(Remove(w, session));
  }

  lemma StoreKeeps(w: World, total: nat)
    requires Invariant(w)
    ensures Invariant(w.(configured := total))
  {
    hide WithinBudget, Share, Rank;
  }

  lemma StepKeepsInvariant(w: World, op: Op)
    requires Invariant(w)
    ensures Invariant(Step(w, op))
  {
    hide WithinBudget, Shared, Share, Rank, Insert, Get, SetBudget, Admit, Remove, Retention, IsOldest;
    hide BudgetsAreShares;
    match op {
      case Store(total) => StoreKeeps(w, total);
      case Apply => RebalanceEstablishes(w);
      case Open(session, root, victim) => OpenKeeps(w, session, root, victim);
      case Forget(session) => if session in w.sessions { ForgetKeeps(w, session); }
      case InsertPreview(session, entry) =>
        if session in w.sessions {
          CacheStaysWithinBudget(w.sessions[session].cache, entry, entry.key, 0);
          WithCacheKeeps(w, session, Insert(w.sessions[session].cache, entry));
        }
      case GetPreview(session, key) =>
        if session in w.sessions {
          CacheStaysWithinBudget(w.sessions[session].cache, Entry(key, 0), key, 0);
          WithCacheKeeps(w, session, Get(w.sessions[session].cache, key));
        }
      case InsertRemoved(i, entry) =>
        if i < |w.removed| {
          CacheStaysWithinBudget(w.removed[i], entry, entry.key, 0);
          RemovedKeeps(w, i, Insert(w.removed[i], entry));
        }
      case GetRemoved(i, key) =>
        if i < |w.removed| {
          CacheStaysWithinBudget(w.removed[i], Entry(key, 0), key, 0);
          RemovedKeeps(w, i, Get(w.removed[i], key));
        }
    }
  }

  lemma {:induction false} ReachableInvariant(total: nat, ops: seq<Op>)
    ensures Invariant(Run(total, ops))
  {
    if ops != [] {
      ReachableInvariant(total, ops[..|ops| - 1]);
      StepKeepsInvariant(Run(total, ops[..|ops| - 1]), ops[|ops| - 1]);
    }
  }

  /** Opening a known session makes it the most recently used one and nothing else. */
  lemma OpenAgain(w: World, session: SessionId, root: nat, victim: SessionId)
    requires session in w.sessions
    ensures var after := Step(w, Open(session, root, victim));
      && after.clock == Min(w.clock + 1, 0xFFFF_FFFF_FFFF_FFFF)
      && after.sessions == w.sessions[session := w.sessions[session].(lastAccess := after.clock)]
      && after.removed == w.removed && after.applied == w.applied && after.configured == w.configured
  {
  }

  /** Up to two sessions are admitted without displacing any. */
  lemma OpenFree(w: World, session: SessionId, root: nat, victim: SessionId)
    requires session !in w.sessions && |w.sessions| < 2
    ensures var after := Step(w, Open(session, root, victim));
      && after.clock == Min(w.clock + 1, 0xFFFF_FFFF_FFFF_FFFF)
      && after.sessions.Keys == w.sessions.Keys + {session} && after.removed == w.removed
      && IsNew(after, session, root)
  {
    hide Admit;
    AdmitMeaning(Tick(w), session, root);
  }

  /** A third one displaces a least recently used session, whose cache is emptied. */
  lemma OpenDisplaces(w: World, session: SessionId, root: nat, victim: SessionId)
    requires session !in w.sessions && |w.sessions| >= 2 && victim in w.sessions
    requires forall id | id in w.sessions :: w.sessions[victim].lastAccess <= w.sessions[id].lastAccess
    ensures var after := Step(w, Open(session, root, victim));
      && after.clock == Min(w.clock + 1, 0xFFFF_FFFF_FFFF_FFFF)
      && after.sessions.Keys == w.sessions.Keys - {victim} + {session}
      && after.removed == w.removed + [SetBudget(w.sessions[victim].cache, 0)]
      && IsNew(after, session, root)
  {
    hide Admit, SetBudget;
    AdmitMeaning(Remove(Tick(w), victim), session, root);
    assert Remove(Tick(w), victim).sessions.Keys == w.sessions.Keys - {victim};
  }

  /** Just admitted: empty, for the given root, and used last. */
  predicate IsNew(w: World, session: SessionId, root: nat) {
    && session in w.sessions && w.sessions[session].root == root
    && w.sessions[session].cache.entries == [] && w.sessions[session].lastAccess == w.clock
  }

  lemma AdmitMeaning(w: World, session: SessionId, root: nat)
    requires session !in w.sessions
    ensures var after := Admit(w, session, root);
      && after.sessions.Keys == w.sessions.Keys + {session} && after.removed == w.removed && after.clock == w.clock
      && IsNew(after, session, root)
  {
    hide Share, Rank;
    assert Admit(w, session, root).sessions.Keys == w.sessions.Keys + {session};
  }

  /** Other sessions keep when they were last used and what they are for. */
  lemma OthersKeepTheirUse(w: World, op: Op, other: SessionId)
    requires other in w.sessions && other in Step(w, op).sessions && !(op.Open? && op.session == other)
    ensures Step(w, op).sessions[other].lastAccess == w.sessions[other].lastAccess
    ensures Step(w, op).sessions[other].root == w.sessions[other].root
  {
  }

  /** Forgetting takes a session out and empties its cache for whoever still holds it. */
  lemma ForgetMeaning(w: World, session: SessionId)
    requires session in w.sessions
    ensures var after := Step(w, Forget(session));
      && after.sessions.Keys == w.sessions.Keys - {session}
      && after.removed == w.removed + [SetBudget(w.sessions[session].cache, 0)] && after.applied == w.configured
  {
    assert Rebalance(Remove(w, session)).sessions.Keys == w.sessions.Keys - {session};
  }

  /** Publishing a total touches no cache; applying it hands out the published total. */
  lemma ConfigureMeaning(w: World, total: nat)
    ensures Step(w, Store(total)) == w.(configured := total)
    ensures var after := Step(w, Apply);
      after.applied == w.configured == after.configured && after.sessions.Keys == w.sessions.Keys
      && after.removed == w.removed
  {
    assert Rebalance(w).sessions.Keys == w.sessions.Keys;
  }

  // ---- The total over every cache, registered or not ----

  ghost predicate Ascending(ids: seq<SessionId>) {
    forall i, j | 0 <= i < j < |ids| :: ids[i].value < ids[j].value
  }

  ghost predicate Enumerates(ids: seq<SessionId>, members: set<SessionId>) {
    Ascending(ids) && (forall id :: id in ids <==> id in members)
  }

  function SumSessions(w: World, ids: seq<SessionId>): nat
    requires forall id | id in ids :: id in w.sessions
  {
    if ids == [] then 0
    else
      assert ids[|ids| - 1] in ids;
      SumSessions(w, ids[..|ids| - 1]) + Resident(w.sessions[ids[|ids| - 1]].cache.entries)
  }

  function SumRemoved(removed: seq<Cache>): nat {
    if removed == [] then 0 else SumRemoved(removed[..|removed| - 1]) + Resident(removed[|removed| - 1].entries)
  }

  /** In ascending order the session at index `i` has rank `i`. */
  lemma RankIsIndex(ids: seq<SessionId>, members: set<SessionId>, i: nat)
    requires Enumerates(ids, members) && i < |ids|
    ensures Rank(members, ids[i]) == i && |members| == |ids|
  {
    var smaller := set other | other in members && other.value < ids[i].value;
    forall x ensures x in smaller <==> x in ids[..i] {
      if x in smaller {
        var j :| 0 <= j < |ids| && ids[j] == x;
        assert j < i;
        assert ids[..i][j] == x;
      }
    }
    DistinctCount(ids[..i], smaller);
    DistinctCount(ids, members);
  }

  lemma {:induction false} DistinctCount(ids: seq<SessionId>, members: set<SessionId>)
    requires Enumerates(ids, members)
    ensures |members| == |ids|
  {
    if ids == [] {
      assert forall id | id in members :: id in ids;
    } else {
      var n := |ids| - 1;
      var rest := members - {ids[n]};
      forall id ensures id in ids[..n] <==> id in rest {
        if id in rest {
          var j :| 0 <= j < |ids| && ids[j] == id;
          assert ids[..n][j] == id;
        }
      }
      DistinctCount(ids[..n], rest);
    }
  }

  lemma {:induction false} ResidentWithinShares(w: World, ids: seq<SessionId>, k: nat)
    requires Invariant(w) && Enumerates(ids, w.sessions.Keys) && k <= |ids| && |ids| > 0
    ensures SumSessions(w, ids[..k]) <= SumShares(w.applied, |ids|, k)
  {
    hide Share, Rank, Resident, SumSessions, RemovedAreEmpty;
    assert forall id | id in ids :: id in w.sessions;
    if k == 0 {
      NothingResident(w, ids);
    } else {
      ResidentWithinShares(w, ids, k - 1);
      OneMoreResident(w, ids, k);
      RankIsIndex(ids, w.sessions.Keys, k - 1);
      assert |w.sessions| == |w.sessions.Keys| && WithinBudget(w.sessions[ids[k - 1]].cache);
    }
  }

  lemma {:induction false} RemovedHoldNothing(removed: seq<Cache>)
    requires forall i | 0 <= i < |removed| :: removed[i].budget == 0 && WithinBudget(removed[i])
    ensures SumRemoved(removed) == 0
  {
    if removed != [] {
      RemovedHoldNothing(removed[..|removed| - 1]);
    }
  }

  /**
   * After any run, the bytes resident in all preview caches together, including those of displaced
   * and forgotten sessions still in use, are within the total that was last handed out.
   */
  lemma ResidentWithinApplied(total: nat, ops: seq<Op>, ids: seq<SessionId>)
    requires Enumerates(ids, Run(total, ops).sessions.Keys)
    ensures var w := Run(total, ops); SumSessions(w, ids) + SumRemoved(w.removed) <= w.applied
  {
    var w := Run(total, ops);
    ReachableInvariant(total, ops);
    RemovedHoldNothing(w.removed);
    if |ids| > 0 {
      ResidentWithinShares(w, ids, |ids|);
      assert ids[..|ids|] == ids;
      SharesAreExactAndEven(w.applied, |ids|, 0, 0);
    }
  }

  /** No published total is still waiting for its rebalance. */
  ghost predicate Settled(ops: seq<Op>) {
    forall i | 0 <= i < |ops| && ops[i].Store? :: exists j :: i < j < |ops| && ops[j].Apply?
  }

  lemma StepKeepsApplied(w: World, op: Op)
    requires op.Apply? || (!op.Store? && w.applied == w.configured)
    ensures Step(w, op).applied == Step(w, op).configured
  {
    hide Shared, SetBudget, Insert, Get, IsOldest;
  }

  lemma {:induction false} AppliedIsConfigured(total: nat, ops: seq<Op>, i: nat)
    requires i < |ops| && ops[i].Apply?
    requires forall j | i < j < |ops| :: !ops[j].Store?
    ensures Run(total, ops).applied == Run(total, ops).configured
  {
    hide Step;
    var n := |ops| - 1;
    if i < n {
      AppliedIsConfigured(total, ops[..n], i);
    }
    StepKeepsApplied(Run(total, ops[..n]), ops[n]);
  }

  lemma {:induction false} NeverStored(total: nat, ops: seq<Op>)
    requires forall j | 0 <= j < |ops| :: !ops[j].Store?
    ensures Run(total, ops).applied == Run(total, ops).configured == total
  {
    if ops != [] {
      NeverStored(total, ops[..|ops| - 1]);
    }
  }

  lemma {:induction false} SettledIsApplied(total: nat, ops: seq<Op>)
    requires Settled(ops)
    ensures Run(total, ops).applied == Run(total, ops).configured
  {
    if i :| 0 <= i < |ops| && ops[i].Store? && (forall j | i < j < |ops| :: !ops[j].Store?) {
      var j :| i < j < |ops| && ops[j].Apply?;
      AppliedIsConfigured(total, ops, j);
    } else {
      LastStore(ops, |ops|);
      NeverStored(total, ops);
    }
  }

  lemma {:induction false} LastStore(ops: seq<Op>, k: nat)
    requires k <= |ops| && forall j | k <= j < |ops| :: !ops[j].Store?
    requires !exists i :: 0 <= i < |ops| && ops[i].Store? && (forall j | i < j < |ops| :: !ops[j].Store?)
    ensures forall j | 0 <= j < |ops| :: !ops[j].Store?
  {
    if k > 0 {
      LastStore(ops, k - 1);
    }
  }

  /** Whenever every reconfiguration has completed, the whole process is within the configured total. */
  lemma ResidentWithinConfigured(total: nat, ops: seq<Op>, ids: seq<SessionId>)
    requires Settled(ops) && Enumerates(ids, Run(total, ops).sessions.Keys)
    ensures var w := Run(total, ops); SumSessions(w, ids) + SumRemoved(w.removed) <= w.configured
  {
    ResidentWithinApplied(total, ops, ids);
    SettledIsApplied(total, ops);
  }

  function SumBudgets(w: World, ids: seq<SessionId>): nat
    requires forall id | id in ids :: id in w.sessions
  {
    if ids == [] then 0
    else
      assert ids[|ids| - 1] in ids;
      SumBudgets(w, ids[..|ids| - 1]) + w.sessions[ids[|ids| - 1]].cache.budget
  }

  lemma {:induction false} BudgetsAreFirstShares(w: World, ids: seq<SessionId>, k: nat)
    requires Invariant(w) && Enumerates(ids, w.sessions.Keys) && 0 < |ids| && k <= |ids|
    ensures SumBudgets(w, ids[..k]) == SumShares(w.applied, |ids|, k)
  {
    hide Share, Rank, EachWithinBudget, RemovedAreEmpty;
    if k > 0 {
      BudgetsAreFirstShares(w, ids, k - 1);
      assert ids[..k][..k - 1] == ids[..k - 1] && ids[..k][k - 1] == ids[k - 1];
      RankIsIndex(ids, w.sessions.Keys, k - 1);
      assert ids[k - 1] in ids && |w.sessions| == |w.sessions.Keys|;
    }
  }

  /** The budgets of the retained sessions add up to the whole allowance: none of it is lost. */
  lemma BudgetsUseTheWholeTotal(w: World, ids: seq<SessionId>)
    requires Invariant(w) && Enumerates(ids, w.sessions.Keys) && ids != []
    ensures SumBudgets(w, ids) == w.applied
  {
    BudgetsAreFirstShares(w, ids, |ids|);
    assert ids[..|ids|] == ids;
    SharesAreExactAndEven(w.applied, |ids|, 0, 0);
  }

  // ---- While shares are being handed out ----

  /** One iteration of the hand-out: the session at `k` gets its share. */
  function GiveShare(sessions: map<SessionId, Handle>, ids: seq<SessionId>, k: nat, total: nat)
    : map<SessionId, Handle>
    requires k < |ids| && ids[k] in sessions
  {
    var handle := sessions[ids[k]];
    sessions[ids[k] := handle.(cache := SetBudget(handle.cache, Share(total, |ids|, k)))]
  }

  /** A rebalance under way: the sessions before `k` have their share of `total`. */
  datatype Handing = Handing(
    world: World, total: nat, ids: seq<SessionId>, k: nat,
    newcomer: Option<SessionId>)  // a session just admitted, which nobody else can reach yet

  datatype HandingStep = HandNext | Meanwhile(op: Op)

  /** The operations that do not wait for the registry: publishing a total and using a cache one already holds. */
  predicate Unlocked(op: Op, newcomer: Option<SessionId>) {
    match op
    case Store(_) => true
    case InsertPreview(session, _) => Some(session) != newcomer
    case GetPreview(session, _) => Some(session) != newcomer
    case InsertRemoved(_, _) => true
    case GetRemoved(_, _) => true
    case _ => false
  }

  function HandStep(h: Handing, step: HandingStep): Handing {
    match step
    case HandNext =>
      if h.k < |h.ids| && h.ids[h.k] in h.world.sessions then
        h.(world := h.world.(sessions := GiveShare(h.world.sessions, h.ids, h.k, h.total)), k := h.k + 1)
      else h
    case Meanwhile(op) => if Unlocked(op, h.newcomer) then h.(world := Step(h.world, op)) else h
  }

  function HandRun(h: Handing, steps: seq<HandingStep>): Handing {
    if steps == [] then h else HandStep(HandRun(h, steps[..|steps| - 1]), steps[|steps| - 1])
  }

  /** The world a registry operation leaves to the rebalance, and the session it has just admitted. */
  datatype Prepared = Prepared(world: World, newcomer: Option<SessionId>)

  function BeforeRebalance(w: World, op: Op): Option<Prepared> {
    match op
    case Apply => Some(Prepared(w, None))
    case Forget(session) => if session in w.sessions then Some(Prepared(Remove(w, session), None)) else None
    case Open(session, root, victim) =>
      if session in w.sessions then None
      else if |w.sessions| < MAX_RETAINED_PREVIEW_SESSIONS then
        Some(Prepared(Added(Tick(w), session, root), Some(session)))
      else if IsOldest(w.sessions, victim) then
        Some(Prepared(Added(Remove(Tick(w), victim), session, root), Some(session)))
      else None
    case _ => None
  }

  /** The atomic step of a run is this preparation followed by the whole hand-out. */
  lemma StepIsPreparedAndRebalanced(w: World, op: Op)
    requires BeforeRebalance(w, op).Some?
    ensures Step(w, op) == Rebalance(BeforeRebalance(w, op).value.world)
  {
    hide Shared;
  }

  /** Budgets before the hand-out, by position. */
  function BudgetsBefore(w: World, ids: seq<SessionId>): (r: seq<nat>)
    requires forall id | id in ids :: id in w.sessions
    ensures |r| == |ids|
  {
    seq(|ids|, i requires 0 <= i < |ids| => assert ids[i] in ids; w.sessions[ids[i]].cache.budget)
  }

  ghost predicate BudgetsAt(h: Handing, before: seq<nat>)
    requires |before| == |h.ids|
  {
    forall i | 0 <= i < |h.ids| ::
      && h.ids[i] in h.world.sessions
      && h.world.sessions[h.ids[i]].cache.budget == if i < h.k then Share(h.total, |h.ids|, i) else before[i]
  }

  /** Mixed budgets, every cache within its budget of the moment, a newcomer still empty. */
  ghost predicate PartlyHandedOut(h: Handing, before: seq<nat>) {
    && Enumerates(h.ids, h.world.sessions.Keys) && |before| == |h.ids| && h.k <= |h.ids|
    && EachWithinBudget(h.world) && RemovedAreEmpty(h.world) && Retention(h.world)
    && BudgetsAt(h, before)
    && (h.newcomer.Some? ==>
          h.newcomer.value in h.world.sessions && h.world.sessions[h.newcomer.value].cache.entries == [])
  }

  /** A session's cache replaced by one within its budget: sessions, retention and cache bounds are kept. */
  lemma ReplacedKeepsWorld(w: World, id: SessionId, cache: Cache)
    requires EachWithinBudget(w) && RemovedAreEmpty(w) && Retention(w) && id in w.sessions && WithinBudget(cache)
    ensures var after := WithCache(w, id, cache);
      EachWithinBudget(after) && RemovedAreEmpty(after) && Retention(after) && after.sessions.Keys == w.sessions.Keys
  {
    hide WithinBudget, RemovedAreEmpty;
    var after := WithCache(w, id, cache);
    assert after.sessions.Keys == w.sessions.Keys;
    assert |after.sessions| == |after.sessions.Keys|;
    RemovedUntouched(w, after);
  }

  lemma GivenBudgets(h: Handing, before: seq<nat>)
    requires |before| == |h.ids| && Ascending(h.ids) && BudgetsAt(h, before) && h.k < |h.ids|
    requires SetBudget(h.world.sessions[h.ids[h.k]].cache, Share(h.total, |h.ids|, h.k)).budget
          == Share(h.total, |h.ids|, h.k)
    ensures BudgetsAt(HandStep(h, HandNext), before)
  {
    hide Share, SetBudget;
  }

  lemma HandNextKeeps(h: Handing, before: seq<nat>)
    requires PartlyHandedOut(h, before) && h.k < |h.ids|
    ensures PartlyHandedOut(HandStep(h, HandNext), before)
  {
    hide Share, WithinBudget, SetBudget, RemovedAreEmpty, EachWithinBudget, Retention, BudgetsAt, Ascending;
    var id, share := h.ids[h.k], Share(h.total, |h.ids|, h.k);
    assert id in h.ids && id in h.world.sessions.Keys;
    var cache := h.world.sessions[id].cache;
    OneWithin(h.world, id);
    CacheStaysWithinBudget(cache, Entry(Key(0, 0), 0), Key(0, 0), share);
    EmptyStaysEmpty(cache, share);
    ReplacedKeepsWorld(h.world, id, SetBudget(cache, share));
    GivenBudgets(h, before);
  }

  lemma OneWithin(w: World, id: SessionId)
    requires EachWithinBudget(w) && id in w.sessions
    ensures WithinBudget(w.sessions[id].cache)
  {
  }

  lemma EmptyStaysEmpty(c: Cache, budget: nat)
    ensures c.entries == [] ==> SetBudget(c, budget).entries == []
  {
  }

  lemma RemovedUntouched(w: World, after: World)
    requires RemovedAreEmpty(w) && after.removed == w.removed
    ensures RemovedAreEmpty(after)
  {
  }

  lemma ReplacedCacheKeeps(h: Handing, before: seq<nat>, session: SessionId, cache: Cache)
    requires PartlyHandedOut(h, before) && session in h.world.sessions && Some(session) != h.newcomer
    requires WithinBudget(cache) && cache.budget == h.world.sessions[session].cache.budget
    ensures PartlyHandedOut(h.(world := WithCache(h.world, session, cache)), before)
  {
    hide Share, WithinBudget, RemovedAreEmpty, EachWithinBudget, Retention, Ascending;
    ReplacedKeepsWorld(h.world, session, cache);
  }

  lemma PublishKeeps(h: Handing, before: seq<nat>, total: nat)
    requires PartlyHandedOut(h, before)
    ensures PartlyHandedOut(h.(world := h.world.(configured := total)), before)
  {
    hide Share, WithinBudget;
  }

  lemma ReplacedRemovedKeeps(h: Handing, before: seq<nat>, i: nat, cache: Cache)
    requires PartlyHandedOut(h, before) && i < |h.world.removed|
    requires WithinBudget(cache) && cache.budget == h.world.removed[i].budget
    ensures PartlyHandedOut(h.(world := h.world.(removed := h.world.removed[i := cache])), before)
  {
    hide Share, WithinBudget;
  }

  lemma PartlyWithin(h: Handing, before: seq<nat>)
    requires PartlyHandedOut(h, before)
    ensures EachWithinBudget(h.world) && RemovedAreEmpty(h.world)
  {
  }

  lemma MeanwhileKeeps(h: Handing, before: seq<nat>, op: Op)
    requires PartlyHandedOut(h, before) && Unlocked(op, h.newcomer)
    ensures PartlyHandedOut(h.(world := Step(h.world, op)), before)
  {
    hide PartlyHandedOut, WithinBudget, Insert, Get;
    PartlyWithin(h, before);
    match op {
      case Store(total) => PublishKeeps(h, before, total);
      case InsertPreview(session, entry) =>
        if session in h.world.sessions {
          CacheStaysWithinBudget(h.world.sessions[session].cache, entry, entry.key, 0);
          ReplacedCacheKeeps(h, before, session, Insert(h.world.sessions[session].cache, entry));
        }
      case GetPreview(session, key) =>
        if session in h.world.sessions {
          CacheStaysWithinBudget(h.world.sessions[session].cache, Entry(key, 0), key, 0);
          ReplacedCacheKeeps(h, before, session, Get(h.world.sessions[session].cache, key));
        }
      case InsertRemoved(i, entry) =>
        if i < |h.world.removed| {
          CacheStaysWithinBudget(h.world.removed[i], entry, entry.key, 0);
          ReplacedRemovedKeeps(h, before, i, Insert(h.world.removed[i], entry));
        }
      case GetRemoved(i, key) =>
        if i < |h.world.removed| {
          CacheStaysWithinBudget(h.world.removed[i], Entry(key, 0), key, 0);
          ReplacedRemovedKeeps(h, before, i, Get(h.world.removed[i], key));
        }
    }
  }

  lemma {:induction false} HandRunKeeps(h: Handing, before: seq<nat>, steps: seq<HandingStep>)
    requires PartlyHandedOut(h, before)
    ensures var after := HandRun(h, steps);
      PartlyHandedOut(after, before) && after.ids == h.ids && after.total == h.total && after.newcomer == h.newcomer
  {
    hide PartlyHandedOut, Step, GiveShare;
    if steps != [] {
      var n := |steps| - 1;
      HandRunKeeps(h, before, steps[..n]);
      var mid := HandRun(h, steps[..n]);
      match steps[n]
      case HandNext => if mid.k < |mid.ids| { HandNextKeeps(mid, before); }
      case Meanwhile(op) => if Unlocked(op, mid.newcomer) { MeanwhileKeeps(mid, before, op); }
    }
  }

  /** An upper bound on the first `n` sessions at every point of the hand-out. */
  function Ceiling(before: seq<nat>, total: nat, ids: seq<SessionId>, newcomer: Option<SessionId>, n: nat): nat
    requires |before| == |ids| && n <= |ids|
  {
    if n == 0 then 0
    else Ceiling(before, total, ids, newcomer, n - 1)
         + if Some(ids[n - 1]) == newcomer then 0 else Max(before[n - 1], Share(total, |ids|, n - 1))
  }

  lemma PartlyContains(h: Handing, before: seq<nat>)
    requires PartlyHandedOut(h, before)
    ensures |before| == |h.ids| && forall id | id in h.ids :: id in h.world.sessions
  {
  }

  lemma ResidentAt(h: Handing, before: seq<nat>, i: nat)
    requires PartlyHandedOut(h, before) && i < |h.ids|
    ensures h.ids[i] in h.world.sessions
    ensures Resident(h.world.sessions[h.ids[i]].cache.entries)
         <= if Some(h.ids[i]) == h.newcomer then 0 else Max(before[i], Share(h.total, |h.ids|, i))
  {
    hide Share;
    assert WithinBudget(h.world.sessions[h.ids[i]].cache);
  }

  lemma {:induction false} ResidentUnderCeiling(h: Handing, before: seq<nat>, n: nat)
    requires PartlyHandedOut(h, before) && n <= |h.ids|
    ensures |before| == |h.ids| && forall id | id in h.ids[..n] :: id in h.world.sessions
    ensures SumSessions(h.world, h.ids[..n]) <= Ceiling(before, h.total, h.ids, h.newcomer, n)
  {
    hide PartlyHandedOut, Share, Resident, SumSessions;
    PartlyContains(h, before);
    if n == 0 {
      NothingResident(h.world, h.ids);
    } else {
      ResidentUnderCeiling(h, before, n - 1);
      OneMoreResident(h.world, h.ids, n);
      ResidentAt(h, before, n - 1);
    }
  }

  lemma NothingResident(w: World, ids: seq<SessionId>)
    requires forall id | id in ids :: id in w.sessions
    ensures SumSessions(w, ids[..0]) == 0
  {
  }

  lemma OneMoreResident(w: World, ids: seq<SessionId>, n: nat)
    requires 0 < n <= |ids| && forall id | id in ids :: id in w.sessions
    ensures ids[n - 1] in w.sessions
    ensures SumSessions(w, ids[..n])
         == SumSessions(w, ids[..n - 1]) + Resident(w.sessions[ids[n - 1]].cache.entries)
  {
    hide Resident;
    assert ids[n - 1] in ids && ids[..n][..n - 1] == ids[..n - 1] && ids[..n][n - 1] == ids[n - 1];
  }

  lemma ShareMonotone(a: nat, b: nat, count: nat, p: nat)
    requires a <= b && count > 0
    ensures Share(a, count, p) <= Share(b, count, p)
  {
    DivMonotone(a, b, count);
    if a / count == b / count {
      assert a == a / count * count + a % count && b == b / count * count + b % count;
    }
  }

  lemma ShareOfTotal(total: nat, count: nat, p: nat)
    requires p < count
    ensures Share(total, count, p) <= total
  {
    if count > 1 && total > 0 {
      MulMonotone(2, count, total / count);
      assert total == total / count * count + total % count;
    } else if count == 1 {
      assert total / 1 == total && total % 1 == 0;
    }
  }

  /** Reconfiguring: old and new shares by position stay below the shares of the larger total. */
  lemma {:induction false} CeilingOfShares(before: seq<nat>, applied: nat, total: nat, ids: seq<SessionId>, n: nat)
    requires |before| == |ids| && 0 < |ids| && n <= |ids|
    requires forall i | 0 <= i < |ids| :: before[i] == Share(applied, |ids|, i)
    ensures Ceiling(before, total, ids, None, n) <= SumShares(Max(applied, total), |ids|, n)
  {
    hide Share;
    if n > 0 {
      CeilingOfShares(before, applied, total, ids, n - 1);
      ShareMonotone(applied, Max(applied, total), |ids|, n - 1);
      ShareMonotone(total, Max(applied, total), |ids|, n - 1);
    }
  }

  /** Opening or forgetting: at most one session is old, and the newcomer is still empty. */
  lemma CeilingOfOne(
    before: seq<nat>, applied: nat, total: nat, ids: seq<SessionId>, newcomer: Option<SessionId>)
    requires |before| == |ids| <= 2 && (|ids| == 2 ==> ids[0] != ids[1] && newcomer.Some? && newcomer.value in ids)
    requires forall i | 0 <= i < |ids| :: before[i] <= applied
    ensures Ceiling(before, total, ids, newcomer, |ids|) <= Max(applied, total)
  {
    hide Share;
    if |ids| == 1 {
      ShareOfTotal(total, 1, 0);
      assert Ceiling(before, total, ids, newcomer, 0) == 0;
    } else if |ids| == 2 {
      ShareOfTotal(total, 2, 0);
      ShareOfTotal(total, 2, 1);
      assert Ceiling(before, total, ids, newcomer, 0) == 0;
      assert Ceiling(before, total, ids, newcomer, 2)
          == Ceiling(before, total, ids, newcomer, 1)
             + if Some(ids[1]) == newcomer then 0 else Max(before[1], Share(total, 2, 1));
    }
  }

  /** What a registry operation hands to its rebalance: caches within budget, and an empty newcomer. */
  lemma PreparedKeeps(w: World, op: Op)
    requires Invariant(w) && BeforeRebalance(w, op).Some?
    ensures var prepared := BeforeRebalance(w, op).value;
      && EachWithinBudget(prepared.world) && RemovedAreEmpty(prepared.world) && Retention(prepared.world)
      && (prepared.newcomer.Some? ==>
            && prepared.newcomer.value in prepared.world.sessions
            && prepared.world.sessions[prepared.newcomer.value].cache.entries == [])
      && prepared.world.applied == w.applied && prepared.world.configured == w.configured
  {
    hide EachWithinBudget, RemovedAreEmpty, BudgetsAreShares, IsOldest, SetBudget;
    match op {
      case Apply =>
      case Forget(session) => RemoveKeeps(w, session);
      case Open(session, root, victim) =>
        TickKeeps(w);
        if |w.sessions| < MAX_RETAINED_PREVIEW_SESSIONS {
          AddedKeeps(Tick(w), session, root);
        } else {
          OldestIsRetained(w.sessions, victim);
          RemoveKeeps(Tick(w), victim);
          RemoveShrinks(Tick(w), victim);
          AddedKeeps(Remove(Tick(w), victim), session, root);
        }
    }
  }

  lemma StartsHandingOut(w: World, op: Op, ids: seq<SessionId>)
    requires Invariant(w) && BeforeRebalance(w, op).Some?
    requires Enumerates(ids, BeforeRebalance(w, op).value.world.sessions.Keys)
    ensures var prepared := BeforeRebalance(w, op).value;
      && (forall id | id in ids :: id in prepared.world.sessions)
      && PartlyHandedOut(Handing(prepared.world, prepared.world.configured, ids, 0, prepared.newcomer),
                         BudgetsBefore(prepared.world, ids))
      && prepared.world.applied == w.applied && prepared.world.configured == w.configured
  {
    hide Share, EachWithinBudget, RemovedAreEmpty, Retention, BeforeRebalance, Invariant;
    PreparedKeeps(w, op);
    var prepared := BeforeRebalance(w, op).value;
    forall i | 0 <= i < |ids|
      ensures ids[i] in prepared.world.sessions
      ensures BudgetsBefore(prepared.world, ids)[i] == prepared.world.sessions[ids[i]].cache.budget
    {
      assert ids[i] in ids;
    }
  }

  lemma OldestIsRetained(sessions: map<SessionId, Handle>, victim: SessionId)
    requires IsOldest(sessions, victim)
    ensures victim in sessions
  {
  }

  lemma AddedKeeps(w: World, session: SessionId, root: nat)
    requires EachWithinBudget(w) && RemovedAreEmpty(w) && Retention(w)
    requires session !in w.sessions && |w.sessions| < MAX_RETAINED_PREVIEW_SESSIONS
    ensures var added := Added(w, session, root);
      EachWithinBudget(added) && RemovedAreEmpty(added) && Retention(added) && session in added.sessions
  {
    var added := Added(w, session, root);
    assert added.sessions.Keys == w.sessions.Keys + {session};
    assert |added.sessions| == |added.sessions.Keys| == |w.sessions.Keys| + 1;
  }

  lemma CeilingOfOperation(w: World, op: Op, ids: seq<SessionId>)
    requires Invariant(w) && BeforeRebalance(w, op).Some?
    requires Enumerates(ids, BeforeRebalance(w, op).value.world.sessions.Keys)
    ensures var prepared := BeforeRebalance(w, op).value;
      && (forall id | id in ids :: id in prepared.world.sessions)
      && Ceiling(BudgetsBefore(prepared.world, ids), w.configured, ids, prepared.newcomer, |ids|)
           <= Max(w.applied, w.configured)
  {
    StartsHandingOut(w, op, ids);
    var prepared := BeforeRebalance(w, op).value;
    var before := BudgetsBefore(prepared.world, ids);
    if op.Apply? {
      CeilingOfApply(w, ids);
    } else {
      DistinctCount(ids, prepared.world.sessions.Keys);
      OldBudgetsWithinApplied(w, op, ids);
      PreparedCount(w, op);
      NewcomerIsListed(prepared, ids);
      CeilingOfOne(before, w.applied, w.configured, ids, prepared.newcomer);
    }
  }

  lemma CeilingOfApply(w: World, ids: seq<SessionId>)
    requires Invariant(w) && Enumerates(ids, w.sessions.Keys)
    ensures forall id | id in ids :: id in w.sessions
    ensures Ceiling(BudgetsBefore(w, ids), w.configured, ids, None, |ids|) <= Max(w.applied, w.configured)
  {
    hide Share;
    if ids != [] {
      var before := BudgetsBefore(w, ids);
      forall i | 0 <= i < |ids|
        ensures before[i] == Share(w.applied, |ids|, i)
      {
        RankIsIndex(ids, w.sessions.Keys, i);
        assert ids[i] in ids && |w.sessions| == |w.sessions.Keys|;
      }
      CeilingOfShares(before, w.applied, w.configured, ids, |ids|);
      SharesAreExactAndEven(Max(w.applied, w.configured), |ids|, 0, 0);
    }
  }

  lemma NewcomerIsListed(prepared: Prepared, ids: seq<SessionId>)
    requires Enumerates(ids, prepared.world.sessions.Keys)
    requires prepared.newcomer.Some? ==> prepared.newcomer.value in prepared.world.sessions
    ensures prepared.newcomer.Some? ==> prepared.newcomer.value in ids
    ensures |ids| == 2 ==> ids[0] != ids[1]
  {
  }

  lemma PreparedCount(w: World, op: Op)
    requires Invariant(w) && BeforeRebalance(w, op).Some? && !op.Apply?
    ensures var prepared := BeforeRebalance(w, op).value;
      && |prepared.world.sessions.Keys| <= 2
      && (|prepared.world.sessions.Keys| == 2 ==> prepared.newcomer.Some?)
      && (prepared.newcomer.Some? ==> prepared.newcomer.value in prepared.world.sessions)
  {
    hide Share, WithinBudget, EachWithinBudget, RemovedAreEmpty, BudgetsAreShares;
    var prepared := BeforeRebalance(w, op).value;
    if op.Forget? {
      assert prepared.world.sessions.Keys == w.sessions.Keys - {op.session};
    } else if |w.sessions| < MAX_RETAINED_PREVIEW_SESSIONS {
      assert prepared.world.sessions.Keys == w.sessions.Keys + {op.session};
    } else {
      assert prepared.world.sessions.Keys == w.sessions.Keys - {op.victim} + {op.session};
    }
  }

  lemma BudgetWithinApplied(w: World, id: SessionId)
    requires Invariant(w) && id in w.sessions
    ensures w.sessions[id].cache.budget <= w.applied
  {
    var rank := Rank(w.sessions.Keys, id);
    var smaller := set other | other in w.sessions.Keys && other.value < id.value;
    assert smaller < w.sessions.Keys by { assert id !in smaller; }
    SmallerSet(smaller, w.sessions.Keys);
    ShareOfTotal(w.applied, |w.sessions|, rank);
  }

  lemma SmallerSet<T>(a: set<T>, b: set<T>)
    requires a < b
    ensures |a| < |b|
  {
    assert |b - a| == |b| - |a|;
  }

  lemma OldBudgetsWithinApplied(w: World, op: Op, ids: seq<SessionId>)
    requires Invariant(w) && BeforeRebalance(w, op).Some? && !op.Apply?
    requires forall id | id in ids :: id in BeforeRebalance(w, op).value.world.sessions
    ensures var prepared := BeforeRebalance(w, op).value;
      forall i | 0 <= i < |ids| :: BudgetsBefore(prepared.world, ids)[i] <= w.applied
  {
    hide Share, WithinBudget, IsOldest, Invariant;
    var prepared := BeforeRebalance(w, op).value;
    forall i | 0 <= i < |ids|
      ensures BudgetsBefore(prepared.world, ids)[i] <= w.applied
    {
      var id := ids[i];
      assert id in ids;
      if id in w.sessions {
        BudgetWithinApplied(w, id);
      }
    }
  }

  /**
   * Every rebalance visits the sessions one after another while caches stay in use. From every
   * reachable state, through any interleaving of its iterations with uses of caches and with newly
   * published totals, the whole process stays within the larger of the total last handed out and
   * the total being handed out; and when the hand-out is complete the invariant of runs holds again.
   */
  lemma ResidentWhileHandingOut(total: nat, ops: seq<Op>, op: Op, ids: seq<SessionId>, steps: seq<HandingStep>)
    requires BeforeRebalance(Run(total, ops), op).Some?
    requires Enumerates(ids, BeforeRebalance(Run(total, ops), op).value.world.sessions.Keys)
    ensures var w := Run(total, ops); var prepared := BeforeRebalance(w, op).value;
      var h := HandRun(Handing(prepared.world, w.configured, ids, 0, prepared.newcomer), steps);
      && (forall id | id in ids :: id in h.world.sessions)
      && SumSessions(h.world, ids) + SumRemoved(h.world.removed) <= Max(w.applied, w.configured)
      && (h.k == |ids| ==> Invariant(h.world.(applied := w.configured)))
  {
    hide Run, BeforeRebalance, Invariant, Enumerates, HandRun, Ceiling, BudgetsBefore, PartlyHandedOut;
    ReachableInvariant(total, ops);
    var w := Run(total, ops);
    var prepared := BeforeRebalance(w, op).value;
    StartsHandingOut(w, op, ids);
    CeilingOfOperation(w, op, ids);
    var before := BudgetsBefore(prepared.world, ids);
    var start := Handing(prepared.world, w.configured, ids, 0, prepared.newcomer);
    HandRunKeeps(start, before, steps);
    var h := HandRun(start, steps);
    PartlyContains(h, before);
    ResidentUnderCeiling(h, before, |ids|);
    assert ids[..|ids|] == ids;
    RemovedOfPartly(h, before);
    if h.k == |ids| {
      HandedOutIsInvariant(h, before);
    }
  }

  lemma RemovedOfPartly(h: Handing, before: seq<nat>)
    requires PartlyHandedOut(h, before)
    ensures SumRemoved(h.world.removed) == 0
  {
    RemovedHoldNothing(h.world.removed);
  }

  lemma HandedOutIsInvariant(h: Handing, before: seq<nat>)
    requires PartlyHandedOut(h, before) && h.k == |h.ids|
    ensures Invariant(h.world.(applied := h.total))
  {
    hide Share, WithinBudget, Rank;
    var done := h.world.(applied := h.total);
    forall id | id in done.sessions
      ensures done.sessions[id].cache.budget == Share(h.total, NonZero(|done.sessions|), Rank(done.sessions.Keys, id))
    {
      assert id in h.ids;
      var i :| 0 <= i < |h.ids| && h.ids[i] == id;
      RankIsIndex(h.ids, h.world.sessions.Keys, i);
      assert |done.sessions| == |done.sessions.Keys|;
    }
  }

  // ---- The registry in place ----

  lemma {:induction false} HasLeast(ids: set<SessionId>)
    requires ids != {}
    ensures exists least :: least in ids && forall id | id in ids :: least.value <= id.value
    decreases |ids|
  {
    var some :| some in ids;
    if ids == {some} {
      assert some in ids && forall id | id in ids :: some.value <= id.value;
    } else {
      HasLeast(ids - {some});
      var least :| least in ids - {some} && forall id | id in ids - {some} :: least.value <= id.value;
      var smaller := if some.value <= least.value then some else least;
      assert smaller in ids && forall id | id in ids :: smaller.value <= id.value;
    }
  }

  method SortIds(ids: set<SessionId>) returns (sorted: seq<SessionId>)
    ensures Enumerates(sorted, ids)
  {
    sorted := [];
    var rest := ids;
    while rest != {}
      invariant Ascending(sorted)
      invariant forall id :: id in ids <==> id in sorted || id in rest
      invariant forall a, b | a in sorted && b in rest :: a.value < b.value
    {
      HasLeast(rest);
      var least :| least in rest && forall id | id in rest :: least.value <= id.value;
      sorted := sorted + [least];
      rest := rest - {least};
    }
  }

  /** The least recently used session, by a scan over all of them. */
  method FindOldest(sessions: map<SessionId, Handle>) returns (victim: SessionId)
    requires |sessions| > 0
    ensures IsOldest(sessions, victim)
  {
    victim :| victim in sessions;
    var rest := sessions.Keys - {victim};
    while rest != {}
      invariant victim in sessions && rest <= sessions.Keys
      invariant forall id | id in sessions && id !in rest :: sessions[victim].lastAccess <= sessions[id].lastAccess
    {
      var id :| id in rest;
      if sessions[id].lastAccess < sessions[victim].lastAccess {
        victim := id;
      }
      rest := rest - {id};
    }
  }

  /** The first `position` sessions have their target handle, the others the one they started with. */
  ghost predicate HandedOut(
    sessions: map<SessionId, Handle>, target: map<SessionId, Handle>, shared: map<SessionId, Handle>,
    ids: seq<SessionId>, position: nat)
    requires position <= |ids|
  {
    && sessions.Keys == target.Keys == shared.Keys
    && (forall id | id in sessions :: shared[id] == if id in ids[..position] then target[id] else sessions[id])
  }

  lemma HandOutOne(
    sessions: map<SessionId, Handle>, target: map<SessionId, Handle>, shared: map<SessionId, Handle>,
    ids: seq<SessionId>, position: nat)
    requires Enumerates(ids, sessions.Keys) && position < |ids|
    requires HandedOut(sessions, target, shared, ids, position)
    ensures ids[position] in sessions && ids[position] in shared
    ensures shared[ids[position]] == sessions[ids[position]]
    ensures HandedOut(sessions, target, shared[ids[position] := target[ids[position]]], ids, position + 1)
  {
    assert ids[..position + 1] == ids[..position] + [ids[position]];
    assert ids[position] in ids && ids[position] !in ids[..position];
  }

  /** Each session in turn, in ascending order of id, gets the base share and maybe a spare byte. */
  method HandOutShares(sessions: map<SessionId, Handle>, total: nat) returns (shared: map<SessionId, Handle>)
    requires |sessions| > 0
    ensures shared == Shared(sessions, total)
  {
    hide SetBudget, Share, Rank, HandedOut, Enumerates;
    var ids := SortIds(sessions.Keys);
    ghost var target := Shared(sessions, total);
    shared := sessions;
    assert HandedOut(sessions, target, shared, ids, 0) by { NothingHandedOut(sessions, total, ids); }
    for position := 0 to |ids|
      invariant HandedOut(sessions, target, shared, ids, position)
    {
      HandOutOne(sessions, target, shared, ids, position);
      RankIsIndex(ids, sessions.Keys, position);
      shared := GiveShare(shared, ids, position, total);
    }
    AllHandedOut(sessions, target, shared, ids);
  }

  lemma NothingHandedOut(sessions: map<SessionId, Handle>, total: nat, ids: seq<SessionId>)
    ensures HandedOut(sessions, Shared(sessions, total), sessions, ids, 0)
  {
  }

  lemma AllHandedOut(
    sessions: map<SessionId, Handle>, target: map<SessionId, Handle>, shared: map<SessionId, Handle>,
    ids: seq<SessionId>)
    requires Enumerates(ids, sessions.Keys) && HandedOut(sessions, target, shared, ids, |ids|)
    ensures shared == target
  {
    assert ids[..|ids|] == ids;
  }

  datatype OpenFailure = CacheIdentityMismatch

  class ScrubRegistry {
    var configured: nat
    var clock: u64
    var sessions: map<SessionId, Handle>
    ghost var removed: seq<Cache>
    ghost var applied: nat

    ghost function State(): World
      reads this
    {
      World(configured, clock, sessions, removed, applied)
    }

    constructor (total: nat)
      ensures State() == Initial(total) && Invariant(State())
    {
      configured, clock, sessions, removed, applied := total, 0, map[], [], total;
    }

    method RebalancePreviewCacheBudgets()
      modifies this
      ensures State() == Rebalance(old(State()))
    {
      applied := configured;
      if |sessions| == 0 {
        assert sessions == Shared(sessions, configured);
        return;
      }
      sessions := HandOutShares(sessions, configured);
    }

    method SessionState(session: SessionId, root: nat) returns (r: Result<Cache, OpenFailure>, victim: SessionId)
      requires Invariant(State())
      modifies this
      ensures Invariant(State())
      ensures |old(sessions)| >= MAX_RETAINED_PREVIEW_SESSIONS && session !in old(sessions) ==>
        IsOldest(old(sessions), victim) && victim !in sessions
      ensures State() == Step(old(State()), Open(session, root, victim))
      ensures session in sessions && sessions[session].lastAccess == clock
      ensures r == if sessions[session].root == root then Ok(sessions[session].cache) else Err(CacheIdentityMismatch)
    {
      hide Invariant, WithinBudget;
      ghost var before := State();
      victim := session;
      clock := Min(clock + 1, U64_MAX);
      if session in sessions {
        OpenKeeps(before, session, root, victim);
        sessions := sessions[session := sessions[session].(lastAccess := clock)];
        if sessions[session].root != root {
          return Err(CacheIdentityMismatch), victim;
        }
        return Ok(sessions[session].cache), victim;
      }
      if |sessions| >= MAX_RETAINED_PREVIEW_SESSIONS {
        victim := FindOldest(sessions);
        OpenKeeps(before, session, root, victim);
        RemoveSession(victim);
      } else {
        OpenKeeps(before, session, root, victim);
      }
      sessions := sessions[session := Handle(root, Cache(0, []), clock)];
      RebalancePreviewCacheBudgets();
      return Ok(sessions[session].cache), victim;
    }

    /** Takes a session out of the registry and trims its cache, which others may still hold. */
    method RemoveSession(session: SessionId)
      requires session in sessions
      modifies this
      ensures State() == Remove(old(State()), session)
    {
      removed := removed + [SetBudget(sessions[session].cache, 0)];
      sessions := sessions - {session};
    }

    method ForgetSession(session: SessionId) returns (found: bool)
      requires Invariant(State())
      modifies this
      ensures Invariant(State())
      ensures found <==> session.value > 0 && session in old(sessions)
      ensures State() == if session.value > 0 then Step(old(State()), Forget(session)) else old(State())
    {
      if session.value <= 0 || session !in sessions {
        return false;
      }
      StepKeepsInvariant(State(), Forget(session));
      RemoveSession(session);
      RebalancePreviewCacheBudgets();
      return true;
    }

    method ConfigureRamBudgets(total: nat)
      requires Invariant(State())
      modifies this
      ensures Invariant(State())
      ensures State() == Step(Step(old(State()), Store(total)), Apply)
      ensures configured == applied == total
    {
      StepKeepsInvariant(State(), Store(total));
      configured := total;
      StepKeepsInvariant(State(), Apply);
      RebalancePreviewCacheBudgets();
    }
  }
}
