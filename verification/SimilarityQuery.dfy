/**
 * Similar-frame lookup: the banded index proposes candidates, the colour-aware score confirms
 * them. The result is proved equal to a plain scan over all frames, filtered by the candidate
 * relation and the threshold.
 */
module SimilarityQuery {
  import opened Common
  import opened Confirmation
  import opened SimilarityKeys
  import opened SimilarityStore

  datatype Policy = Policy(minimum: nat, maxResults: nat)

  datatype Match = Match(frame: nat, similarity: int)

  datatype Answer = Answer(
    target: u64,
    descriptorCount: u64,
    candidateCount: nat,
    matchedCount: nat,
    truncated: bool,
    matches: seq<Match>)

  datatype QueryFailure =
    | InvalidThreshold
    | InvalidMaxResults
    | NotReusable(load: Load)
    | LoadFailed
    | MissingTarget
    | TargetOutOfRange
    | InvalidStore
    | InvalidPayload

  // ---- Ranking: higher similarity first, then lower frame id ----

  predicate Before(a: Match, b: Match) {
    a.similarity > b.similarity || (a.similarity == b.similarity && a.frame < b.frame)
  }

  ghost predicate Ranked(ms: seq<Match>) {
    forall i, j | 0 <= i < j < |ms| :: Before(ms[i], ms[j])
  }

  function InsertRanked(ms: seq<Match>, m: Match): seq<Match> {
    if ms == [] then [m]
    else if Before(m, ms[|ms| - 1]) then InsertRanked(ms[..|ms| - 1], m) + [ms[|ms| - 1]]
    else ms + [m]
  }

  function Rank(ms: seq<Match>): seq<Match> {
    if ms == [] then [] else InsertRanked(Rank(ms[..|ms| - 1]), ms[|ms| - 1])
  }

  lemma {:induction false} InsertRankedHolds(ms: seq<Match>, m: Match)
    requires Ranked(ms) && forall i | 0 <= i < |ms| :: ms[i].frame != m.frame
    ensures Ranked(InsertRanked(ms, m))
    ensures |InsertRanked(ms, m)| == |ms| + 1
    ensures forall x :: x in InsertRanked(ms, m) <==> x in ms || x == m
  {
    if ms != [] {
      var n := |ms| - 1;
      assert ms == ms[..n] + [ms[n]];
      if Before(m, ms[n]) {
        InsertRankedHolds(ms[..n], m);
        var shorter := InsertRanked(ms[..n], m);
        forall i | 0 <= i < |shorter| ensures Before(shorter[i], ms[n]) {
          assert shorter[i] in shorter;
        }
      } else {
        assert Before(ms[n], m);
        forall i | 0 <= i < |ms| ensures Before(ms[i], m) {
        }
      }
    }
  }

  ghost predicate RisingFrames(ms: seq<Match>) {
    forall i, j | 0 <= i < j < |ms| :: ms[i].frame < ms[j].frame
  }

  /** Ranking a list of distinct frames keeps every match and orders them. */
  lemma {:induction false} RankHolds(ms: seq<Match>)
    requires RisingFrames(ms)
    ensures Ranked(Rank(ms)) && |Rank(ms)| == |ms|
    ensures forall x :: x in Rank(ms) <==> x in ms
  {
    if ms != [] {
      var n := |ms| - 1;
      assert ms == ms[..n] + [ms[n]];
      RankHolds(ms[..n]);
      var ranked := Rank(ms[..n]);
      forall i | 0 <= i < |ranked| ensures ranked[i].frame != ms[n].frame {
        assert ranked[i] in ranked;
        var j :| 0 <= j < n && ms[..n][j] == ranked[i];
      }
      InsertRankedHolds(ranked, ms[n]);
    }
  }

  /** There is only one ranked list of given matches, so any sorting algorithm gives this one. */
  lemma {:induction false} RankedIsUnique(a: seq<Match>, b: seq<Match>)
    requires Ranked(a) && Ranked(b) && (forall x :: x in a <==> x in b)
    ensures a == b
    decreases |a|
  {
    assert |b| > 0 ==> b[0] in a;
    if a != [] {
      assert a[0] in b;
      var i :| 0 <= i < |b| && b[i] == a[0];
      assert b[0] in a;
      var j :| 0 <= j < |a| && a[j] == b[0];
      assert i == 0 && a[0] == b[0];
      forall x ensures x in a[1..] <==> x in b[1..] {
        assert a == [a[0]] + a[1..] && b == [b[0]] + b[1..];
        if x in a[1..] {
          var k :| 0 <= k < |a| - 1 && a[1..][k] == x;
          assert x in a && Before(a[0], a[k + 1]) && x != b[0];
        }
        if x in b[1..] {
          var k :| 0 <= k < |b| - 1 && b[1..][k] == x;
          assert x in b && Before(b[0], b[k + 1]) && x != a[0];
        }
      }
      RankedIsUnique(a[1..], b[1..]);
    }
  }

  // ---- The plain scan ----

  predicate IsCandidate(descriptors: seq<GlobalDescriptor>, target: nat, i: nat)
    requires target < |descriptors| && i < |descriptors|
  {
    i != target && Related(descriptors[target], descriptors[i])
  }

  predicate IsMatch(descriptors: seq<GlobalDescriptor>, target: nat, minimum: nat, i: nat)
    requires target < |descriptors| && i < |descriptors|
  {
    IsCandidate(descriptors, target, i) && Similarity(descriptors[target].rgb, descriptors[i].rgb) >= minimum
  }

  function CountCandidates(descriptors: seq<GlobalDescriptor>, target: nat, n: nat): nat
    requires target < |descriptors| && n <= |descriptors|
  {
    if n == 0 then 0
    else CountCandidates(descriptors, target, n - 1) + (if IsCandidate(descriptors, target, n - 1) then 1 else 0)
  }

  /** Every frame below `n`, in order, that is a candidate and scores at least the threshold. */
  function Scan(descriptors: seq<GlobalDescriptor>, target: nat, minimum: nat, n: nat): seq<Match>
    requires target < |descriptors| && n <= |descriptors|
  {
    if n == 0 then []
    else
      var earlier := Scan(descriptors, target, minimum, n - 1);
      if IsMatch(descriptors, target, minimum, n - 1) then
        earlier + [Match(n - 1, Similarity(descriptors[target].rgb, descriptors[n - 1].rgb))]
      else earlier
  }

  lemma {:induction false} ScanHolds(descriptors: seq<GlobalDescriptor>, target: nat, minimum: nat, n: nat, m: Match)
    requires target < |descriptors| && n <= |descriptors|
    ensures RisingFrames(Scan(descriptors, target, minimum, n))
    ensures var ms := Scan(descriptors, target, minimum, n); forall i | 0 <= i < |ms| :: ms[i].frame < n
    ensures m in Scan(descriptors, target, minimum, n) <==>
      m.frame < n && IsMatch(descriptors, target, minimum, m.frame)
      && m.similarity == Similarity(descriptors[target].rgb, descriptors[m.frame].rgb)
  {
    hide IsMatch, Similarity;
    if n > 0 {
      ScanHolds(descriptors, target, minimum, n - 1, m);
    }
  }

  function Expected(descriptors: seq<GlobalDescriptor>, target: u64, policy: Policy): Answer
    requires target < |descriptors| <= U64_MAX
  {
    var all := Rank(Scan(descriptors, target, policy.minimum, |descriptors|));
    Answer(target, |descriptors|, CountCandidates(descriptors, target, |descriptors|), |all|,
           |all| > policy.maxResults, all[..Min(|all|, policy.maxResults)])
  }

  /**
   * What the answer means, independently of how it is computed: its matches are the best-ranked
   * `maxResults` of exactly those other frames that are related to the target and reach the
   * threshold, and the counts are exact.
   */
  lemma AnswerMeaning(descriptors: seq<GlobalDescriptor>, target: u64, policy: Policy, m: Match)
    requires target < |descriptors| <= U64_MAX
    ensures var a := Expected(descriptors, target, policy);
      var all := Rank(Scan(descriptors, target, policy.minimum, |descriptors|));
      && Ranked(all) && a.matches <= all && a.matchedCount == |all|
      && |a.matches| == Min(|all|, policy.maxResults)
      && (a.truncated <==> a.matches != all)
      && (m in all <==>
            m.frame < |descriptors| && IsMatch(descriptors, target, policy.minimum, m.frame)
            && m.similarity == Similarity(descriptors[target].rgb, descriptors[m.frame].rgb))
  {
    hide IsMatch, Similarity, Scan, Rank, Ranked;
    ScanHolds(descriptors, target, policy.minimum, |descriptors|, m);
    RankHolds(Scan(descriptors, target, policy.minimum, |descriptors|));
  }

  /** Higher similarity first, lower frame id among equals; the target itself never matches. */
  lemma AnswerIsRanked(descriptors: seq<GlobalDescriptor>, target: u64, policy: Policy)
    requires target < |descriptors| <= U64_MAX
    ensures var a := Expected(descriptors, target, policy);
      && a.target == target && a.descriptorCount == |descriptors|
      && (forall i, j | 0 <= i < j < |a.matches| ::
            || a.matches[i].similarity > a.matches[j].similarity
            || (a.matches[i].similarity == a.matches[j].similarity && a.matches[i].frame < a.matches[j].frame))
      && (forall i | 0 <= i < |a.matches| ::
            && a.matches[i].frame < |descriptors| && a.matches[i].frame != target
            && Related(descriptors[target], descriptors[a.matches[i].frame])
            && a.matches[i].similarity
               == Similarity(descriptors[target].rgb, descriptors[a.matches[i].frame].rgb) >= policy.minimum)
  {
    hide Related, Similarity, Scan, Rank;
    var a := Expected(descriptors, target, policy);
    forall i | 0 <= i < |a.matches|
      ensures a.matches[i].frame < |descriptors| && a.matches[i].frame != target
      ensures Related(descriptors[target], descriptors[a.matches[i].frame])
      ensures a.matches[i].similarity
           == Similarity(descriptors[target].rgb, descriptors[a.matches[i].frame].rgb) >= policy.minimum
    {
      AnswerMeaning(descriptors, target, policy, a.matches[i]);
    }
    AnswerMeaning(descriptors, target, policy, Match(0, 0));
  }

  /** The counts are those of all other related frames, and of all of them that reach the threshold. */
  lemma {:induction false} CandidateCountMeaning(descriptors: seq<GlobalDescriptor>, target: nat, n: nat)
    requires target < |descriptors| && n <= |descriptors|
    ensures CountCandidates(descriptors, target, n)
         == |set i: nat | i < n && i != target && Related(descriptors[target], descriptors[i])|
  {
    hide Related;
    var all := set i: nat | i < n && i != target && Related(descriptors[target], descriptors[i]);
    if n == 0 {
      assert all == {};
    } else {
      CandidateCountMeaning(descriptors, target, n - 1);
      var before := set i: nat | i < n - 1 && i != target && Related(descriptors[target], descriptors[i]);
      assert all == if IsCandidate(descriptors, target, n - 1) then before + {n - 1} else before;
    }
  }

  /** Similarity lookup is mutual: if `b` matches `a` then `a` matches `b`, with the same score. */
  lemma MatchesAreMutual(descriptors: seq<GlobalDescriptor>, a: nat, b: nat, minimum: nat)
    requires a < |descriptors| && b < |descriptors|
    ensures IsMatch(descriptors, a, minimum, b) <==> IsMatch(descriptors, b, minimum, a)
    ensures Similarity(descriptors[a].rgb, descriptors[b].rgb) == Similarity(descriptors[b].rgb, descriptors[a].rgb)
  {
    RelatedSymmetric(descriptors[a], descriptors[b]);
    SimilaritySymmetric(descriptors[a].rgb, descriptors[b].rgb);
    hide Related, Similarity;
  }

  /** A frame within three hash bits, or within 16 on every channel mean, is never overlooked by the index. */
  lemma CloseFramesAreFound(descriptors: seq<GlobalDescriptor>, target: nat, minimum: nat, i: nat)
    requires target < |descriptors| && i < |descriptors| && i != target
    requires Similarity(descriptors[target].rgb, descriptors[i].rgb) >= minimum
    requires Perceptual.Hamming(descriptors[target].average, descriptors[i].average) <= 3
          || Perceptual.Hamming(descriptors[target].difference, descriptors[i].difference) <= 3
          || (forall c: nat | c < 3 ::
                AbsDiff(ChannelMean(descriptors[target].rgb, c), ChannelMean(descriptors[i].rgb, c)) <= 16)
    ensures Match(i, Similarity(descriptors[target].rgb, descriptors[i].rgb))
              in Rank(Scan(descriptors, target, minimum, |descriptors|))
  {
    CloseFramesAreRelated(descriptors[target], descriptors[i]);
    hide Related, Similarity, Perceptual.Hamming, ChannelMean, Scan, Rank;
    var m := Match(i, Similarity(descriptors[target].rgb, descriptors[i].rgb));
    ScanHolds(descriptors, target, minimum, |descriptors|, m);
    RankHolds(Scan(descriptors, target, minimum, |descriptors|));
  }

  // ---- Collecting candidates through the index ----

  predicate BadRow(b: BandRow, count: u64) {
    b.frame.id < 0 || b.frame.id >= count
  }

  /** A row is bad exactly when it names none of the frames 0 to count - 1. */
  lemma BadRowIff(b: BandRow, count: u64)
    ensures BadRow(b, count) <==> !(0 <= b.frame.id < count)
  {
  }

  /** All frames, other than the target, filed under one of the given keys. */
  function Candidates(bands: set<BandRow>, keys: set<Key>, target: u64): set<FrameKey> {
    set b | b in bands && b.key in keys && b.frame.id != target :: b.frame
  }

  method CollectRows(rows: set<BandRow>, target: u64, count: u64, collected: set<FrameKey>)
    returns (r: Result<set<FrameKey>, QueryFailure>)
    ensures r.Err? <==> exists b | b in rows :: BadRow(b, count)
    ensures r.Err? ==> r.error == InvalidStore
    ensures r.Ok? ==> forall f :: f in r.value <==>
      f in collected || (f.id != target && exists b | b in rows :: b.frame == f)
  {
    var rest := rows;
    var ids := collected;
    while rest != {}
      invariant rest <= rows
      invariant forall b | b in rows && b !in rest :: !BadRow(b, count)
      invariant forall f :: f in ids <==>
        f in collected || (f.id != target && exists b | b in rows && b !in rest :: b.frame == f)
    {
      var b :| b in rest;
      if b.frame.id < 0 || b.frame.id >= count {
        assert BadRow(b, count);
        return Err(InvalidStore);
      }
      if b.frame.id != target {
        ids := ids + {b.frame};
      }
      rest := rest - {b};
    }
    return Ok(ids);
  }

  function RowsUnder(bands: set<BandRow>, key: Key): set<BandRow> {
    set b | b in bands && b.key == key
  }

  method CollectCandidates(bands: set<BandRow>, keys: set<Key>, target: u64, count: u64)
    returns (r: Result<set<FrameKey>, QueryFailure>)
    ensures r.Err? <==> exists b | b in bands && b.key in keys :: BadRow(b, count)
    ensures r.Err? ==> r.error == InvalidStore
    ensures r.Ok? ==> r.value == Candidates(bands, keys, target)
  {
    hide BadRow;
    var rest := keys;
    var ids: set<FrameKey> := {};
    while rest != {}
      invariant rest <= keys
      invariant ids == Candidates(bands, keys - rest, target)
      invariant forall b | b in bands && b.key in keys - rest :: !BadRow(b, count)
    {
      var key :| key in rest;
      var more := CollectRows(RowsUnder(bands, key), target, count, ids);
      if more.Err? {
        var b :| b in RowsUnder(bands, key) && BadRow(b, count);
        assert b in bands && b.key in keys;
        return Err(InvalidStore);
      }
      CandidatesGrow(bands, keys - rest, key, target, more.value);
      ids := more.value;
      assert keys - (rest - {key}) == (keys - rest) + {key};
      rest := rest - {key};
    }
    assert keys - rest == keys;
    return Ok(ids);
  }

  lemma CandidatesGrow(bands: set<BandRow>, keys: set<Key>, key: Key, target: u64, ids: set<FrameKey>)
    requires forall f :: f in ids <==>
      || f in Candidates(bands, keys, target)
      || (f.id != target && exists b | b in RowsUnder(bands, key) :: b.frame == f)
    ensures ids == Candidates(bands, keys + {key}, target)
  {
    forall f ensures f in ids <==> f in Candidates(bands, keys + {key}, target) {
      if f in Candidates(bands, keys + {key}, target) {
        var b :| b in bands && b.key in keys + {key} && b.frame == f && b.frame.id != target;
        assert b.key == key ==> b in RowsUnder(bands, key);
      }
    }
  }

  // ---- Confirming and ranking ----

  /** On the tables a writer leaves, the candidates are exactly the frames related to the target. */
  lemma CandidatesAreRelated(descriptors: seq<GlobalDescriptor>, target: u64, f: FrameKey)
    requires Contiguous(descriptors) && target < |descriptors|
    ensures f in Candidates(IndexOf(descriptors).bands, SearchKeys(descriptors[target]), target) <==>
      0 <= f.id < |descriptors| && IsCandidate(descriptors, target, f.id)
  {
    hide IndexOf, SearchKeys, KeysOf, Related;
    var t, keys := IndexOf(descriptors), SearchKeys(descriptors[target]);
    if f in Candidates(t.bands, keys, target) {
      var b :| b in t.bands && b.key in keys && b.frame.id != target && b.frame == f;
      assert BandRow(b.key, f) == b;
      IndexHolds(descriptors, f, b.key);
      SearchFindsRelated(descriptors[target], descriptors[f.id]);
    }
    if 0 <= f.id < |descriptors| && IsCandidate(descriptors, target, f.id) {
      SearchFindsRelated(descriptors[target], descriptors[f.id]);
      var key :| key in keys && key in KeysOf(descriptors[f.id]);
      IndexHolds(descriptors, f, key);
      assert BandRow(key, f) in t.bands;
    }
  }

  /** The candidates below `n`. */
  function Below(candidates: set<FrameKey>, n: nat): set<FrameKey> {
    set f | f in candidates && f.id < n
  }

  lemma {:induction false} CandidatesCounted(
    descriptors: seq<GlobalDescriptor>, target: nat, candidates: set<FrameKey>, n: nat)
    requires target < |descriptors| && n <= |descriptors|
    requires forall f :: f in candidates <==> 0 <= f.id < |descriptors| && IsCandidate(descriptors, target, f.id)
    ensures |Below(candidates, n)| == CountCandidates(descriptors, target, n)
  {
    hide IsCandidate;
    if n == 0 {
      assert Below(candidates, n) == {};
    } else {
      CandidatesCounted(descriptors, target, candidates, n - 1);
      var last := FrameKey(n - 1);
      if last in candidates {
        assert Below(candidates, n) == Below(candidates, n - 1) + {last};
      } else {
        assert Below(candidates, n) == Below(candidates, n - 1);
      }
    }
  }

  /** Reads, scores and filters the candidates in ascending order of frame id. */
  method Confirm(t: Tables, targetRgb: Descriptor, candidates: set<FrameKey>, count: u64, minimum: nat)
    returns (r: Result<seq<Match>, QueryFailure>)
    ensures r.Err? ==> r.error == InvalidStore || r.error == InvalidPayload
    ensures r.Err? <==> exists f | f in candidates ::
      0 <= f.id < count && (f !in t.descriptors || |t.descriptors[f].rgb| != DESCRIPTOR_BYTES)
    ensures r.Ok? ==> r.value == Confirmed(t, targetRgb, candidates, count, minimum)
  {
    hide Similarity;
    var matches: seq<Match> := [];
    for id := 0 to count
      invariant forall f | f in candidates && 0 <= f.id < id ::
        f in t.descriptors && |t.descriptors[f].rgb| == DESCRIPTOR_BYTES
      invariant matches == Confirmed(t, targetRgb, candidates, id, minimum)
    {
      var f := FrameKey(id);
      if f in candidates {
        if f !in t.descriptors {
          return Err(InvalidStore);
        }
        var score := ConfirmationSimilarity(targetRgb, t.descriptors[f].rgb);
        if score.Err? {
          return Err(InvalidPayload);
        }
        if score.value >= minimum {
          matches := matches + [Match(id, score.value)];
        }
      }
    }
    return Ok(matches);
  }

  predicate Usable(t: Tables, f: FrameKey) {
    f in t.descriptors && |t.descriptors[f].rgb| == DESCRIPTOR_BYTES
  }

  function Confirmed(t: Tables, targetRgb: Descriptor, candidates: set<FrameKey>, n: nat, minimum: nat): seq<Match> {
    if n == 0 then []
    else
      var f := FrameKey(n - 1);
      var earlier := Confirmed(t, targetRgb, candidates, n - 1, minimum);
      if f in candidates && Usable(t, f) && Similarity(targetRgb, t.descriptors[f].rgb) >= minimum then
        earlier + [Match(n - 1, Similarity(targetRgb, t.descriptors[f].rgb))]
      else earlier
  }

  lemma {:induction false} ConfirmedIsScan(
    descriptors: seq<GlobalDescriptor>, target: u64, candidates: set<FrameKey>, minimum: nat, n: nat)
    requires Contiguous(descriptors) && target < |descriptors| && n <= |descriptors|
    requires forall f :: f in candidates <==> 0 <= f.id < |descriptors| && IsCandidate(descriptors, target, f.id)
    ensures Confirmed(IndexOf(descriptors), descriptors[target].rgb, candidates, n, minimum)
         == Scan(descriptors, target, minimum, n)
  {
    hide IndexOf, IsCandidate, Similarity;
    if n > 0 {
      ConfirmedIsScan(descriptors, target, candidates, minimum, n - 1);
      IndexHolds(descriptors, FrameKey(n - 1), ColorKey(0));
    }
  }

  function TargetOf(t: Tables, target: u64): GlobalDescriptor
    requires Usable(t, FrameKey(target))
  {
    var row := t.descriptors[FrameKey(target)];
    GlobalDescriptor(target, row.average, row.difference, row.rgb)
  }

  function AnswerOf(target: u64, count: u64, candidates: set<FrameKey>, matches: seq<Match>, policy: Policy): Answer {
    var all := Rank(matches);
    Answer(target, count, |candidates|, |all|, |all| > policy.maxResults, all[..Min(|all|, policy.maxResults)])
  }

  /** The answer assembled from the index is the answer of the plain scan. */
  lemma IndexedIsScanned(descriptors: seq<GlobalDescriptor>, target: u64, policy: Policy)
    requires Contiguous(descriptors) && target < |descriptors| <= U64_MAX
    ensures var t := IndexOf(descriptors);
      && Usable(t, FrameKey(target)) && TargetOf(t, target) == descriptors[target]
      && var candidates := Candidates(t.bands, SearchKeys(descriptors[target]), target);
         var matches := Confirmed(t, descriptors[target].rgb, candidates, |descriptors|, policy.minimum);
         AnswerOf(target, |descriptors|, candidates, matches, policy) == Expected(descriptors, target, policy)
  {
    hide IndexOf, SearchKeys, Candidates, Confirmed, Scan, Rank, IsCandidate;
    IndexHolds(descriptors, FrameKey(target), ColorKey(0));
    var candidates := Candidates(IndexOf(descriptors).bands, SearchKeys(descriptors[target]), target);
    forall f ensures f in candidates <==> 0 <= f.id < |descriptors| && IsCandidate(descriptors, target, f.id) {
      CandidatesAreRelated(descriptors, target, f);
    }
    CandidatesCounted(descriptors, target, candidates, |descriptors|);
    assert Below(candidates, |descriptors|) == candidates;
    ConfirmedIsScan(descriptors, target, candidates, policy.minimum, |descriptors|);
  }

  /** Over dense tables no index row is bad and every frame can be read. */
  lemma DenseHasNoDefects(t: Tables, count: u64)
    requires SchemaHolds(t) && Dense(t, count)
    ensures forall b | b in t.bands :: !BadRow(b, count)
    ensures forall f: FrameKey | 0 <= f.id < count :: Usable(t, f)
  {
  }

  /** The indexed lookup over tables that passed loading. */
  method Search(t: Tables, target: u64, count: u64, policy: Policy, ghost descriptors: seq<GlobalDescriptor>)
    returns (r: Result<Answer, QueryFailure>)
    ensures r == Err(TargetOutOfRange) <==> target > I64_MAX
    ensures r == Err(MissingTarget) <==> target <= I64_MAX && FrameKey(target) !in t.descriptors
    ensures SchemaHolds(t) && Dense(t, count) && target < count <= I64_MAX ==> r.Ok?
    ensures Contiguous(descriptors) && t == IndexOf(descriptors) && target < count == |descriptors| <= I64_MAX ==>
      r == Ok(Expected(descriptors, target, policy))
  {
    if SchemaHolds(t) && Dense(t, count) {
      DenseHasNoDefects(t, count);
    }
    if Contiguous(descriptors) && t == IndexOf(descriptors) && count == |descriptors| && target < count {
      IndexedIsScanned(descriptors, target, policy);
      IndexIsDense(descriptors);
    }
    hide SchemaHolds, Dense, BadRow, Contiguous, IndexOf, Candidates, Confirmed, Rank, Expected, SearchKeys;
    if target > I64_MAX {
      return Err(TargetOutOfRange);
    }
    if FrameKey(target) !in t.descriptors {
      return Err(MissingTarget);
    }
    if |t.descriptors[FrameKey(target)].rgb| != DESCRIPTOR_BYTES {
      return Err(InvalidPayload);
    }
    var mine := TargetOf(t, target);
    var candidates := CollectCandidates(t.bands, SearchKeys(mine), target, count);
    if candidates.Err? {
      return Err(candidates.error);
    }
    var matches := Confirm(t, mine.rgb, candidates.value, count, policy.minimum);
    if matches.Err? {
      return Err(matches.error);
    }
    return Ok(AnswerOf(target, count, candidates.value, matches.value, policy));
  }

  /** The public lookup: policy, load (which may purge the file), then the search. */
  method Query(disk: Disk, expected: StoreKey, count: u64, target: u64, policy: Policy,
               ghost descriptors: seq<GlobalDescriptor>)
    returns (after: Disk, r: Result<Answer, QueryFailure>)
    requires disk.final.Some? && disk.final.value.Sqlite? ==> SchemaHolds(disk.final.value.database.tables)
    ensures policy.minimum > SCALE ==> after == disk && r == Err(InvalidThreshold)
    ensures policy.minimum <= SCALE && policy.maxResults == 0 ==> after == disk && r == Err(InvalidMaxResults)
    ensures policy.minimum <= SCALE && policy.maxResults > 0 ==> after == LoadStore(disk, expected, count).0
    ensures policy.minimum <= SCALE && policy.maxResults > 0 ==>
      var verdict := LoadStore(disk, expected, count).1;
      && (verdict.Err? ==> r == Err(LoadFailed))
      && (verdict.Ok? && !verdict.value.Reused? ==> r == Err(NotReusable(verdict.value)))
      && (verdict.Ok? && verdict.value.Reused? ==> (r.Ok? <==> target < count))
    ensures (&& policy.minimum <= SCALE && policy.maxResults > 0
             && Contiguous(descriptors) && count == |descriptors| && KEYS_PER_DESCRIPTOR * count <= I64_MAX
             && disk.final == Some(CompleteStore(expected, descriptors))) ==>
      && after == disk
      && r == if target < count then Ok(Expected(descriptors, target, policy))
              else if target <= I64_MAX then Err(MissingTarget)
              else Err(TargetOutOfRange)
  {
    after := disk;
    if policy.minimum > SCALE {
      return after, Err(InvalidThreshold);
    }
    if policy.maxResults == 0 {
      return after, Err(InvalidMaxResults);
    }
    var loaded := LoadStore(disk, expected, count);
    after := loaded.0;
    ReusedIff(disk, expected, count);
    if Contiguous(descriptors) && count == |descriptors| && disk.final == Some(CompleteStore(expected, descriptors)) {
      FinishedStoreIsReused(disk, expected, descriptors);
    }
    hide SchemaHolds, Dense, Contiguous, IndexOf, Expected, LoadStore;
    if loaded.1.Err? {
      return after, Err(LoadFailed);
    }
    if !loaded.1.value.Reused? {
      return after, Err(NotReusable(loaded.1.value));
    }
    r := Search(after.final.value.database.tables, target, count, policy, descriptors);
  }
}
