/**
 Persisted group rows, binary search over them, and the representative cursor. The rows are those of
 a validated store: ordinal `i` is row `i`.
 */
module GroupNavigation {
  import opened Common
  import opened Frames
  import opened Perceptual
  import opened Grouping

  datatype Direction = Previous | Next

  datatype NavigationError =
    | NoGroups
    | FrameNotGrouped(frameId: u64)
    | GroupBoundary(direction: Direction)

  datatype Target = Target(ordinal: nat, groupCount: nat, group: Group)

  predicate Contains(g: Group, frameId: u64) {
    g.first <= frameId <= g.last
  }

  /** Binary search on group bounds, as the loop performs it. */
  function Search(rows: seq<Group>, frameId: u64, low: nat, high: nat): Result<nat, NavigationError>
    requires low <= high <= |rows|
    decreases high - low
  {
    if low == high then Err(FrameNotGrouped(frameId))
    else
      var mid := low + (high - low) / 2;
      if frameId < rows[mid].first then Search(rows, frameId, low, mid)
      else if frameId > rows[mid].last then Search(rows, frameId, mid + 1, high)
      else Ok(mid)
  }

  function OrdinalOf(rows: seq<Group>, frameId: u64): Result<nat, NavigationError> {
    if |rows| == 0 then Err(NoGroups) else Search(rows, frameId, 0, |rows|)
  }

  method FindGroupOrdinal(rows: seq<Group>, frameId: u64) returns (r: Result<nat, NavigationError>)
    ensures r == OrdinalOf(rows, frameId)
    ensures r.Ok? ==> r.value < |rows| && Contains(rows[r.value], frameId)
  {
    if |rows| == 0 {
      return Err(NoGroups);
    }
    var low, high := 0, |rows|;
    while low < high
      invariant 0 <= low <= high <= |rows|
      invariant Search(rows, frameId, low, high) == Search(rows, frameId, 0, |rows|)
    {
      var mid := low + (high - low) / 2;
      if frameId < rows[mid].first {
        high := mid;
      } else if frameId > rows[mid].last {
        low := mid + 1;
      } else {
        return Ok(mid);
      }
    }
    return Err(FrameNotGrouped(frameId));
  }

  /** The rows are contiguous intervals covering the frames `0..frameCount`. */
  predicate CoversTimeline(rows: seq<Group>, frameCount: nat) {
    && 0 < |rows|
    && rows[0].first == 0
    && rows[|rows| - 1].last + 1 == frameCount
    && (forall i :: 0 <= i < |rows| ==>
         rows[i].representative == rows[i].first <= rows[i].last
         && rows[i].count == rows[i].last - rows[i].first + 1)
    && (forall i :: 0 <= i < |rows| - 1 ==> Adjacent(rows, i))
  }

  /** What the grouper writes for a whole timeline is navigable. */
  lemma GreedyRowsCoverTimeline(policy: Policy, items: seq<Item>, groups: seq<Group>)
    requires GreedyPartition(policy, items, groups) && items != [] && Base(items) == 0
    ensures CoversTimeline(groups, |items|)
  {
    hide Joins, MinScore, EndsAtRejection;
    forall i | 0 <= i < |groups|
      ensures groups[i].representative == groups[i].first <= groups[i].last
      ensures groups[i].count == groups[i].last - groups[i].first + 1
    {
      assert DescribesRun(policy, items, groups[i]);
    }
  }

  lemma {:induction false} RowsAreOrdered(rows: seq<Group>, frameCount: nat, i: nat, j: nat)
    requires CoversTimeline(rows, frameCount) && i < j < |rows|
    ensures rows[i].last < rows[j].first
    decreases j
  {
    if i < j - 1 {
      RowsAreOrdered(rows, frameCount, i, j - 1);
    }
    assert Adjacent(rows, j - 1);
  }

  lemma {:induction false} RowExists(rows: seq<Group>, frameCount: nat, frameId: u64, n: nat) returns (k: nat)
    requires CoversTimeline(rows, frameCount) && n < |rows| && frameId <= rows[n].last
    ensures k <= n && Contains(rows[k], frameId)
  {
    if rows[n].first <= frameId {
      k := n;
    } else {
      assert n > 0;
      assert Adjacent(rows, n - 1);
      k := RowExists(rows, frameCount, frameId, n - 1);
    }
  }

  lemma {:induction false} SearchFinds(rows: seq<Group>, frameCount: nat, frameId: u64, low: nat, high: nat, k: nat)
    requires CoversTimeline(rows, frameCount)
    requires low <= k < high <= |rows| && Contains(rows[k], frameId)
    ensures Search(rows, frameId, low, high) == Ok(k)
    decreases high - low
  {
    var mid := low + (high - low) / 2;
    if k < mid {
      RowsAreOrdered(rows, frameCount, k, mid);
      SearchFinds(rows, frameCount, frameId, low, mid, k);
    } else if mid < k {
      RowsAreOrdered(rows, frameCount, mid, k);
      SearchFinds(rows, frameCount, frameId, mid + 1, high, k);
    }
  }

  lemma {:induction false} SearchSound(rows: seq<Group>, frameId: u64, low: nat, high: nat)
    requires low <= high <= |rows|
    ensures match Search(rows, frameId, low, high)
      case Ok(k) => low <= k < high && Contains(rows[k], frameId)
      case Err(e) => e == FrameNotGrouped(frameId)
    decreases high - low
  {
    if low < high {
      var mid := low + (high - low) / 2;
      SearchSound(rows, frameId, low, mid);
      SearchSound(rows, frameId, mid + 1, high);
    }
  }

  /** Over a covering table the search succeeds exactly on indexed frames, with the only row that
      contains them. */
  lemma SearchIsExact(rows: seq<Group>, frameCount: nat, frameId: u64)
    requires CoversTimeline(rows, frameCount)
    ensures OrdinalOf(rows, frameId).Ok? <==> frameId < frameCount
    ensures frameId >= frameCount ==> OrdinalOf(rows, frameId) == Err(FrameNotGrouped(frameId))
    ensures forall k :: 0 <= k < |rows| && Contains(rows[k], frameId) ==> OrdinalOf(rows, frameId) == Ok(k)
  {
    hide Search;
    var n := |rows| - 1;
    SearchSound(rows, frameId, 0, |rows|);
    if frameId < frameCount {
      var k := RowExists(rows, frameCount, frameId, n);
      SearchFinds(rows, frameCount, frameId, 0, |rows|, k);
    } else {
      NoRowBeyond(rows, frameCount, frameId);
    }
    forall k | 0 <= k < |rows| && Contains(rows[k], frameId)
      ensures OrdinalOf(rows, frameId) == Ok(k)
    {
      SearchFinds(rows, frameCount, frameId, 0, |rows|, k);
    }
  }

  lemma NoRowBeyond(rows: seq<Group>, frameCount: nat, frameId: u64)
    requires CoversTimeline(rows, frameCount) && frameId >= frameCount
    ensures forall k :: 0 <= k < |rows| ==> !Contains(rows[k], frameId)
  {
    var n := |rows| - 1;
    forall k | 0 <= k < |rows|
      ensures !Contains(rows[k], frameId)
    {
      if k < n {
        RowsAreOrdered(rows, frameCount, k, n);
      }
    }
  }

  function GroupContaining(rows: seq<Group>, frameId: u64): Result<Target, NavigationError> {
    match OrdinalOf(rows, frameId)
    case Err(e) => Err(e)
    case Ok(k) =>
      SearchSound(rows, frameId, 0, |rows|);
      Ok(Target(k, |rows|, rows[k]))
  }

  function AdjacentGroup(rows: seq<Group>, frameId: u64, direction: Direction): Result<Target, NavigationError> {
    match OrdinalOf(rows, frameId)
    case Err(e) => Err(e)
    case Ok(k) =>
      SearchSound(rows, frameId, 0, |rows|);
      match direction
      case Previous => if k == 0 then Err(GroupBoundary(direction)) else Ok(Target(k - 1, |rows|, rows[k - 1]))
      case Next => if k + 1 >= |rows| then Err(GroupBoundary(direction)) else Ok(Target(k + 1, |rows|, rows[k + 1]))
  }

  /** Stepping to the next group and back returns to the group left. */
  lemma AdjacentGroupsAreInverse(rows: seq<Group>, frameCount: nat, frameId: u64)
    requires CoversTimeline(rows, frameCount) && frameId < frameCount
    ensures var next := AdjacentGroup(rows, frameId, Next);
      next.Ok? ==>
        && next.value.group.first == GroupContaining(rows, frameId).value.group.last + 1
        && AdjacentGroup(rows, next.value.group.representative, Previous) == GroupContaining(rows, frameId)
  {
    SearchIsExact(rows, frameCount, frameId);
    SearchSound(rows, frameId, 0, |rows|);
    hide Search;
    var next := AdjacentGroup(rows, frameId, Next);
    if next.Ok? {
      SearchIsExact(rows, frameCount, next.value.group.representative);
      assert Adjacent(rows, next.value.ordinal - 1);
      assert Contains(rows[next.value.ordinal], next.value.group.representative);
    }
  }

  /** From any frame of group `k`: its own group, its neighbours on both sides, and an error at either end. */
  lemma NeighboursOfGroup(rows: seq<Group>, frameCount: nat, k: nat, frameId: u64)
    requires CoversTimeline(rows, frameCount) && k < |rows| && rows[k].first <= frameId <= rows[k].last
    ensures GroupContaining(rows, frameId) == Ok(Target(k, |rows|, rows[k]))
    ensures AdjacentGroup(rows, frameId, Next)
         == if k + 1 < |rows| then Ok(Target(k + 1, |rows|, rows[k + 1])) else Err(GroupBoundary(Next))
    ensures AdjacentGroup(rows, frameId, Previous)
         == if k > 0 then Ok(Target(k - 1, |rows|, rows[k - 1])) else Err(GroupBoundary(Previous))
  {
    SearchIsExact(rows, frameCount, frameId);
    assert Contains(rows[k], frameId);
  }

  // ---------------------------------------------------------------- representative cursor

  datatype CursorError = Navigation(error: NavigationError) | InvalidNavigation

  datatype CursorState = CursorState(emitted: nat, previous: Option<u64>)

  predicate ValidTarget(t: Target, ordinal: nat, count: nat) {
    && t.ordinal == ordinal
    && t.groupCount == count
    && t.group.first <= t.group.representative <= t.group.last
    && t.group.count == t.group.last - t.group.first + 1
  }

  /** The cursor after one call, with the group it returned. */
  datatype CursorStep = CursorStep(cursor: CursorState, target: Option<Target>)

  function NextGroup(rows: seq<Group>, c: CursorState): Result<CursorStep, CursorError> {
    if c.emitted >= |rows| then Ok(CursorStep(c, None))
    else
      var found :=
        match c.previous
        case None => GroupContaining(rows, 0)
        case Some(previous) => AdjacentGroup(rows, previous, Next);
      match found
      case Err(e) => Err(Navigation(e))
      case Ok(target) =>
        if !ValidTarget(target, c.emitted, |rows|) then Err(InvalidNavigation)
        else if c.previous.Some? && target.group.representative <= c.previous.value then Err(InvalidNavigation)
        else Ok(CursorStep(CursorState(c.emitted + 1, Some(target.group.representative)), Some(target)))
  }

  class GroupRepresentativeCursor {
    const rows: seq<Group>
    var emitted: nat
    var previous: Option<u64>

    constructor (rows: seq<Group>)
      ensures this.rows == rows && State() == CursorState(0, None)
    {
      this.rows := rows;
      emitted, previous := 0, None;
    }

    function State(): CursorState
      reads this
    {
      CursorState(emitted, previous)
    }

    method Next() returns (r: Result<Option<Target>, CursorError>)
      modifies this
      ensures match NextGroup(rows, old(State()))
        case Err(e) => r == Err(e) && State() == old(State())
        case Ok(step) => r == Ok(step.target) && State() == step.cursor
    {
      if emitted >= |rows| {
        return Ok(None);
      }
      var found;
      if previous.None? {
        found := GroupContaining(rows, 0);
      } else {
        found := AdjacentGroup(rows, previous.value, Direction.Next);
      }
      if found.Err? {
        return Err(Navigation(found.error));
      }
      var target := found.value;
      if !ValidTarget(target, emitted, |rows|) {
        return Err(InvalidNavigation);
      }
      if previous.Some? && target.group.representative <= previous.value {
        return Err(InvalidNavigation);
      }
      previous := Some(target.group.representative);
      emitted := emitted + 1;
      return Ok(Some(target));
    }
  }

  /** The cursor state after `k` groups of a covering table. */
  function CursorAt(rows: seq<Group>, k: nat): CursorState
    requires k <= |rows|
  {
    CursorState(k, if k == 0 then None else Some(rows[k - 1].representative))
  }

  /** Over a covering table the cursor yields row after row and its failure branches are dead. */
  lemma CursorEnumeratesRows(rows: seq<Group>, frameCount: nat, k: nat)
    requires CoversTimeline(rows, frameCount) && k <= |rows|
    ensures k < |rows| ==>
      NextGroup(rows, CursorAt(rows, k)) == Ok(CursorStep(CursorAt(rows, k + 1), Some(Target(k, |rows|, rows[k]))))
    ensures k == |rows| ==> NextGroup(rows, CursorAt(rows, k)) == Ok(CursorStep(CursorAt(rows, k), None))
  {
    hide Search;
    if k < |rows| {
      if k == 0 {
        SearchIsExact(rows, frameCount, 0);
        assert Contains(rows[0], 0);
      } else {
        SearchIsExact(rows, frameCount, rows[k - 1].representative);
        assert Contains(rows[k - 1], rows[k - 1].representative);
        assert Adjacent(rows, k - 1);
      }
    }
  }
}
