/**
 Streaming near-duplicate grouping. The grouper keeps one open group and two frames; the proof shows
 that every sequence of pushes, failing ones included, yields the unique greedy partition of the
 frames it accepted.
 */
module Grouping {
  import opened Common
  import opened Frames
  import opened Perceptual

  datatype Group = Group(
    representative: u64,
    first: u64,
    last: u64,
    count: nat,
    startTimestamp: Timestamp,
    endTimestamp: Timestamp,
    startDuration: Option<Timestamp>,
    endDuration: Option<Timestamp>,
    floor: nat)

  datatype ActiveGroup = ActiveGroup(metadata: Group, representative: Frame, previous: Frame)

  datatype GroupingError =
    | InvalidPolicy
    | MissingTimestamp(frameId: u64)
    | NonContiguousFrameIds(previous: u64, current: u64)
    | Hybrid(error: CompareError)

  /** One index entry with its decoded pixels. */
  datatype Item = Item(entry: Entry, pixels: Frame)

  function OpenGroup(entry: Entry, timestamp: Timestamp, pixels: Frame): ActiveGroup {
    ActiveGroup(
      Group(entry.frameId, entry.frameId, entry.frameId, 1, timestamp, timestamp,
            entry.duration, entry.duration, SCALE),
      pixels, pixels)
  }

  function AcceptedConfirmation(decision: Decision): Option<nat> {
    match decision
    case Accepted(_, confirmation) => Some(confirmation)
    case RejectedByHash(_) => None
    case RejectedByConfirmation(_, _) => None
  }

  /**
   * A comparison yields a confirmation exactly for a pair within both limits of the policy, namely
   * the score of that pair; and it yields the same whichever frame comes first.
   */
  lemma AcceptanceIsMutual(policy: Policy, left: Frame, right: Frame, score: nat)
    requires SameSize(left, right)
    ensures AcceptedConfirmation(Compare(policy, left, right).value) == Some(score) <==>
            && Hamming(DHash(left), DHash(right)) <= policy.maxHashDistance
            && score == Confirmation(left, right) >= policy.minimumSimilarity
    ensures AcceptedConfirmation(Compare(policy, left, right).value)
         == AcceptedConfirmation(Compare(policy, right, left).value)
  {
    hide Confirmation, Hamming, DHash;
    ConfirmationSymmetric(left, right);
    HammingMetric(DHash(left), DHash(right), DHash(left));
  }

  /** Outcome of offering one frame to the grouper: the next open group and a completed group. */
  datatype Pushed = Pushed(active: ActiveGroup, completed: Option<Group>)

  function PushStep(policy: Policy, active: Option<ActiveGroup>, item: Item): Result<Pushed, GroupingError> {
    var entry, pixels := item.entry, item.pixels;
    if entry.timestamp.None? then Err(MissingTimestamp(entry.frameId))
    else
      var timestamp := entry.timestamp.value;
      if active.None? then Ok(Pushed(OpenGroup(entry, timestamp, pixels), None))
      else
        var open := active.value;
        if open.metadata.last + 1 != entry.frameId then
          Err(NonContiguousFrameIds(open.metadata.last, entry.frameId))
        else
          match Compare(policy, open.previous, pixels)
          case Err(e) => Err(Hybrid(e))
          case Ok(previous) =>
            if AcceptedConfirmation(previous).None? then
              Ok(Pushed(OpenGroup(entry, timestamp, pixels), Some(open.metadata)))
            else
              match Compare(policy, open.representative, pixels)
              case Err(e) => Err(Hybrid(e))
              case Ok(representative) =>
                match AcceptedConfirmation(representative)
                case None => Ok(Pushed(OpenGroup(entry, timestamp, pixels), Some(open.metadata)))
                case Some(confirmation) =>
                  var grown := open.metadata.(
                    last := entry.frameId,
                    count := open.metadata.count + 1,
                    endTimestamp := timestamp,
                    endDuration := entry.duration,
                    floor := if confirmation < open.metadata.floor then confirmation else open.metadata.floor);
                  Ok(Pushed(ActiveGroup(grown, open.representative, pixels), None))
  }

  /** The bounded grouper: policy plus at most one open group. */
  class HybridFrameGrouper {
    const policy: Policy
    var active: Option<ActiveGroup>

    constructor (policy: Policy)
      requires ValidPolicy(policy)
      ensures this.policy == policy && active == None
    {
      this.policy := policy;
      active := None;
    }

    static method New(policy: Policy) returns (r: Result<HybridFrameGrouper, GroupingError>)
      ensures r.Ok? <==> ValidPolicy(policy)
      ensures r.Ok? ==> fresh(r.value) && r.value.policy == policy && r.value.active == None
    {
      if policy.maxHashDistance > HASH_BITS || policy.minimumSimilarity > SCALE {
        return Err(InvalidPolicy);
      }
      var g := new HybridFrameGrouper(policy);
      return Ok(g);
    }

    /** A failed push changes nothing; a successful one is one specification step. */
    method Push(entry: Entry, pixels: Frame) returns (r: Result<Option<Group>, GroupingError>)
      modifies this
      ensures var step := PushStep(policy, old(active), Item(entry, pixels));
        match step
        case Err(e) => r == Err(e) && active == old(active)
        case Ok(pushed) => r == Ok(pushed.completed) && active == Some(pushed.active)
    {
      hide Compare;
      if entry.timestamp.None? {
        return Err(MissingTimestamp(entry.frameId));
      }
      var timestamp := entry.timestamp.value;
      if active.None? {
        active := Some(OpenGroup(entry, timestamp, pixels));
        return Ok(None);
      }
      var open := active.value;
      if open.metadata.last + 1 != entry.frameId {
        return Err(NonContiguousFrameIds(open.metadata.last, entry.frameId));
      }
      var previous := Compare(policy, open.previous, pixels);
      if previous.Err? {
        return Err(Hybrid(previous.error));
      }
      if AcceptedConfirmation(previous.value).None? {
        active := Some(OpenGroup(entry, timestamp, pixels));
        return Ok(Some(open.metadata));
      }
      var representative := Compare(policy, open.representative, pixels);
      if representative.Err? {
        return Err(Hybrid(representative.error));
      }
      var confirmation := AcceptedConfirmation(representative.value);
      if confirmation.None? {
        active := Some(OpenGroup(entry, timestamp, pixels));
        return Ok(Some(open.metadata));
      }
      var metadata := open.metadata.(last := entry.frameId, count := open.metadata.count + 1);
      metadata := metadata.(endTimestamp := timestamp, endDuration := entry.duration);
      if confirmation.value < metadata.floor {
        metadata := metadata.(floor := confirmation.value);
      }
      active := Some(ActiveGroup(metadata, open.representative, pixels));
      return Ok(None);
    }

    method Finish() returns (r: Option<Group>)
      modifies this
      ensures active == None
      ensures r == match old(active) case None => None case Some(open) => Some(open.metadata)
    {
      r := match active case None => None case Some(open) => Some(open.metadata);
      active := None;
    }
  }

  // ---------------------------------------------------------------- greedy specification

  function PairScore(left: Frame, right: Frame): nat {
    if SameSize(left, right) then Confirmation(left, right) else 0
  }

  /** Lowest representative score over the positions `(start, end]`, `SCALE` for a singleton. */
  function MinScore(items: seq<Item>, start: nat, end: nat): int
    requires start <= end < |items|
    decreases end
  {
    if end == start then SCALE
    else Min(MinScore(items, start, end - 1), PairScore(items[start].pixels, items[end].pixels))
  }

  /** Position `k` joins a group that starts at `start`: it passes both comparisons. */
  predicate Joins(policy: Policy, items: seq<Item>, start: nat, k: nat): (r: bool)
    requires start < k < |items|
    ensures r ==> SameSize(items[start].pixels, items[k].pixels)
  {
    && Accepts(policy, items[k - 1].pixels, items[k].pixels)
    && Accepts(policy, items[start].pixels, items[k].pixels)
  }

  function Base(items: seq<Item>): u64
    requires items != []
  {
    items[0].entry.frameId
  }

  predicate ContiguousItems(items: seq<Item>) {
    && (forall k :: 0 <= k < |items| ==> items[k].entry.timestamp.Some?)
    && (forall k :: 0 <= k < |items| ==> items[k].entry.frameId == Base(items) + k)
  }

  /** `g` describes exactly a contiguous run of items, all accepted against its first frame. */
  predicate DescribesRun(policy: Policy, items: seq<Item>, g: Group)
    requires items != [] && ContiguousItems(items)
  {
    && Base(items) <= g.first <= g.last < Base(items) + |items|
    && var s, e := g.first - Base(items), g.last - Base(items);
      && g.representative == g.first
      && g.count == g.last - g.first + 1
      && g.startTimestamp == items[s].entry.timestamp.value
      && g.endTimestamp == items[e].entry.timestamp.value
      && g.startDuration == items[s].entry.duration
      && g.endDuration == items[e].entry.duration
      && (forall k :: s < k <= e ==> Joins(policy, items, s, k))
      && g.floor == MinScore(items, s, e)
  }

  /** The frame after `g` exists and could not have joined it. */
  predicate EndsAtRejection(policy: Policy, items: seq<Item>, g: Group)
    requires items != [] && ContiguousItems(items)
  {
    && Base(items) <= g.first <= g.last
    && g.last + 1 - Base(items) < |items|
    && !Joins(policy, items, g.first - Base(items), g.last + 1 - Base(items))
  }

  /** Interval `i + 1` starts right after interval `i`. */
  predicate Adjacent(groups: seq<Group>, i: nat)
    requires i + 1 < |groups|
  {
    groups[i + 1].first == groups[i].last + 1
  }

  /** Contiguous intervals covering all items, each a maximal accepted run. */
  predicate GreedyPartition(policy: Policy, items: seq<Item>, groups: seq<Group>) {
    && ContiguousItems(items)
    && (items == [] <==> groups == [])
    && (items != [] ==>
      && groups[0].first == Base(items)
      && groups[|groups| - 1].last == Base(items) + |items| - 1
      && (forall i :: 0 <= i < |groups| ==> DescribesRun(policy, items, groups[i]))
      && (forall i :: 0 <= i < |groups| - 1 ==> Adjacent(groups, i))
      && (forall i :: 0 <= i < |groups| - 1 ==> EndsAtRejection(policy, items, groups[i])))
  }

  // ---------------------------------------------------------------- runs

  /** State after a sequence of pushes: accepted frames, completed groups and the open group. */
  datatype Run = Run(accepted: seq<Item>, emitted: seq<Group>, active: Option<ActiveGroup>) {
    /** What `finish` would add to the completed groups. */
    function AllGroups(): seq<Group> {
      match active case None => emitted case Some(open) => emitted + [open.metadata]
    }
  }

  function RunAll(policy: Policy, offered: seq<Item>): Run {
    if offered == [] then Run([], [], None)
    else
      var before := RunAll(policy, offered[..|offered| - 1]);
      var item := offered[|offered| - 1];
      match PushStep(policy, before.active, item)
      case Err(_) => before
      case Ok(pushed) => Extend(before, item, pushed)
  }

  /** An accepted push extends the run by that frame. */
  lemma RunAccepts(policy: Policy, offered: seq<Item>, item: Item)
    requires PushStep(policy, RunAll(policy, offered).active, item).Ok?
    ensures RunAll(policy, offered + [item])
         == Extend(RunAll(policy, offered), item, PushStep(policy, RunAll(policy, offered).active, item).value)
  {
    hide PushStep;
    assert (offered + [item])[..|offered|] == offered;
  }

  ghost predicate RunInvariant(policy: Policy, run: Run) {
    && GreedyPartition(policy, run.accepted, run.AllGroups())
    && (run.active.None? <==> run.accepted == [])
    && (run.active.Some? ==>
      && run.active.value.metadata.last == Base(run.accepted) + |run.accepted| - 1
      && run.active.value.representative
         == run.accepted[run.active.value.metadata.first - Base(run.accepted)].pixels
      && run.active.value.previous == run.accepted[|run.accepted| - 1].pixels)
  }

  lemma {:induction false} MinScorePrefix(items: seq<Item>, x: Item, start: nat, end: nat)
    requires start <= end < |items|
    ensures MinScore(items, start, end) == MinScore(items + [x], start, end)
    decreases end
  {
    hide Compare, Confirmation;
    if start < end {
      MinScorePrefix(items, x, start, end - 1);
    }
  }

  /** A finished description keeps holding when more frames arrive. */
  lemma DescribesRunPrefix(policy: Policy, items: seq<Item>, x: Item, g: Group)
    requires items != [] && ContiguousItems(items) && ContiguousItems(items + [x])
    requires DescribesRun(policy, items, g)
    ensures DescribesRun(policy, items + [x], g)
  {
    hide Compare, Confirmation;
    var s, e := g.first - Base(items), g.last - Base(items);
    assert forall k :: s < k <= e ==> Joins(policy, items, s, k);
    forall k | s < k <= e
      ensures Joins(policy, items + [x], s, k)
    {
      assert Joins(policy, items, s, k);
    }
    MinScorePrefix(items, x, s, e);
  }

  lemma EndsAtRejectionPrefix(policy: Policy, items: seq<Item>, x: Item, g: Group)
    requires items != [] && ContiguousItems(items) && ContiguousItems(items + [x])
    requires EndsAtRejection(policy, items, g)
    ensures EndsAtRejection(policy, items + [x], g)
  {
    hide Compare, Confirmation;
  }

  function Fresh(x: Item): Group
    requires x.entry.timestamp.Some?
  {
    OpenGroup(x.entry, x.entry.timestamp.value, x.pixels).metadata
  }

  lemma FreshDescribesRun(policy: Policy, items: seq<Item>, x: Item)
    requires items != [] && ContiguousItems(items + [x])
    ensures x.entry.timestamp.Some? && DescribesRun(policy, items + [x], Fresh(x))
    ensures Fresh(x).first == Fresh(x).last == Base(items) + |items| && Base(items + [x]) == Base(items)
  {
    hide Compare, Confirmation, Accepts;
    assert (items + [x])[|items|] == x;
  }

  lemma LastEndsAtRejection(policy: Policy, items: seq<Item>, x: Item, g: Group)
    requires items != [] && ContiguousItems(items) && ContiguousItems(items + [x])
    requires DescribesRun(policy, items, g) && g.last == Base(items) + |items| - 1
    requires !Joins(policy, items + [x], g.first - Base(items), |items|)
    ensures EndsAtRejection(policy, items + [x], g)
  {
    hide Compare, Confirmation, Accepts, Joins, MinScore;
  }

  lemma NewGroupDescribes(policy: Policy, items: seq<Item>, groups: seq<Group>, x: Item, i: nat)
    requires GreedyPartition(policy, items, groups) && items != [] && i <= |groups|
    requires ContiguousItems(items + [x])
    ensures x.entry.timestamp.Some? && DescribesRun(policy, items + [x], (groups + [Fresh(x)])[i])
  {
    hide Joins, DescribesRun, EndsAtRejection, Fresh, ContiguousItems, Base, Adjacent;
    FreshDescribesRun(policy, items, x);
    if i < |groups| {
      DescribesRunPrefix(policy, items, x, groups[i]);
    }
  }

  lemma NewGroupFollows(policy: Policy, items: seq<Item>, groups: seq<Group>, x: Item, i: nat)
    requires GreedyPartition(policy, items, groups) && items != [] && i < |groups|
    requires ContiguousItems(items + [x])
    ensures x.entry.timestamp.Some? && Adjacent(groups + [Fresh(x)], i)
  {
    hide Joins, DescribesRun, EndsAtRejection, Fresh, ContiguousItems, Base;
    FreshDescribesRun(policy, items, x);
    if i < |groups| - 1 {
      assert Adjacent(groups, i);
    }
  }

  lemma NewGroupRejected(policy: Policy, items: seq<Item>, groups: seq<Group>, x: Item, i: nat)
    requires GreedyPartition(policy, items, groups) && items != [] && i < |groups|
    requires ContiguousItems(items + [x])
    requires !Joins(policy, items + [x], groups[|groups| - 1].first - Base(items), |items|)
    ensures EndsAtRejection(policy, items + [x], groups[i])
  {
    hide Joins, DescribesRun, EndsAtRejection, ContiguousItems, Base, Adjacent;
    if i < |groups| - 1 {
      EndsAtRejectionPrefix(policy, items, x, groups[i]);
    } else {
      LastEndsAtRejection(policy, items, x, groups[i]);
    }
  }

  lemma PartitionGrowsByNewGroup(policy: Policy, items: seq<Item>, groups: seq<Group>, x: Item)
    requires GreedyPartition(policy, items, groups) && items != []
    requires ContiguousItems(items + [x])
    requires !Joins(policy, items + [x], groups[|groups| - 1].first - Base(items), |items|)
    ensures x.entry.timestamp.Some? && GreedyPartition(policy, items + [x], groups + [Fresh(x)])
  {
    hide Joins, DescribesRun, EndsAtRejection, Fresh, ContiguousItems, Base, Adjacent;
    FreshDescribesRun(policy, items, x);
    forall i | 0 <= i <= |groups|
      ensures DescribesRun(policy, items + [x], (groups + [Fresh(x)])[i])
    {
      NewGroupDescribes(policy, items, groups, x, i);
    }
    forall i | 0 <= i < |groups|
      ensures EndsAtRejection(policy, items + [x], groups[i])
      ensures Adjacent(groups + [Fresh(x)], i)
    {
      NewGroupFollows(policy, items, groups, x, i);
      NewGroupRejected(policy, items, groups, x, i);
    }
  }

  /** The last group absorbs an accepted frame; all other metadata is kept. */
  function Grow(g: Group, x: Item, confirmation: nat): Group
    requires x.entry.timestamp.Some?
  {
    g.(last := x.entry.frameId, count := g.count + 1, endTimestamp := x.entry.timestamp.value,
       endDuration := x.entry.duration,
       floor := if confirmation < g.floor then confirmation else g.floor)
  }

  lemma GrownGroupDescribesRun(policy: Policy, items: seq<Item>, g: Group, x: Item)
    requires items != [] && ContiguousItems(items) && ContiguousItems(items + [x])
    requires DescribesRun(policy, items, g) && g.last == Base(items) + |items| - 1
    requires Joins(policy, items + [x], g.first - Base(items), |items|)
    ensures DescribesRun(policy, items + [x],
              Grow(g, x, PairScore(items[g.first - Base(items)].pixels, x.pixels)))
  {
    hide Compare, Confirmation;
    var s := g.first - Base(items);
    var all := items + [x];
    DescribesRunPrefix(policy, items, x, g);
    forall k | s < k <= |items|
      ensures Joins(policy, all, s, k)
    {
      if k < |items| {
        assert Joins(policy, items, s, k);
      }
    }
    assert MinScore(all, s, |items|)
        == Min(MinScore(all, s, |items| - 1), PairScore(all[s].pixels, all[|items|].pixels));
  }

  lemma PartitionGrowsLastGroup(policy: Policy, items: seq<Item>, groups: seq<Group>, x: Item)
    requires GreedyPartition(policy, items, groups) && items != []
    requires ContiguousItems(items + [x])
    requires Joins(policy, items + [x], groups[|groups| - 1].first - Base(items), |items|)
    ensures var g := groups[|groups| - 1];
      GreedyPartition(policy, items + [x],
        groups[..|groups| - 1] + [Grow(g, x, PairScore(items[g.first - Base(items)].pixels, x.pixels))])
  {
    hide Compare, Confirmation;
    var all := items + [x];
    var g := groups[|groups| - 1];
    var grown := Grow(g, x, PairScore(items[g.first - Base(items)].pixels, x.pixels));
    var next := groups[..|groups| - 1] + [grown];
    GrownGroupDescribesRun(policy, items, g, x);
    forall i | 0 <= i < |next|
      ensures DescribesRun(policy, all, next[i])
    {
      if i < |groups| - 1 {
        DescribesRunPrefix(policy, items, x, groups[i]);
      }
    }
    forall i | 0 <= i < |next| - 1
      ensures EndsAtRejection(policy, all, next[i])
      ensures Adjacent(next, i)
    {
      EndsAtRejectionPrefix(policy, items, x, groups[i]);
      assert Adjacent(groups, i);
    }
  }

  /** The run after a push that the grouper accepted. */
  function Extend(run: Run, item: Item, pushed: Pushed): Run {
    Run(run.accepted + [item],
        match pushed.completed case None => run.emitted case Some(g) => run.emitted + [g],
        Some(pushed.active))
  }

  lemma SingletonPartition(policy: Policy, item: Item)
    requires item.entry.timestamp.Some?
    ensures GreedyPartition(policy, [item], [OpenGroup(item.entry, item.entry.timestamp.value, item.pixels).metadata])
  {
    hide Joins, PairScore;
    var g := OpenGroup(item.entry, item.entry.timestamp.value, item.pixels).metadata;
    assert MinScore([item], 0, 0) == SCALE;
    assert DescribesRun(policy, [item], g);
  }

  lemma FirstPushKeepsInvariant(policy: Policy, run: Run, item: Item)
    requires RunInvariant(policy, run) && run.active.None?
    requires PushStep(policy, run.active, item).Ok?
    ensures RunInvariant(policy, Extend(run, item, PushStep(policy, run.active, item).value))
  {
    hide Compare, DescribesRun, EndsAtRejection;
    assert run.accepted == [] && run.emitted == [];
    assert PushStep(policy, run.active, item)
        == Ok(Pushed(OpenGroup(item.entry, item.entry.timestamp.value, item.pixels), None));
    hide PushStep, GreedyPartition;
    SingletonPartition(policy, item);
    var next := Extend(run, item, PushStep(policy, run.active, item).value);
    assert next.accepted == [item];
    assert next.AllGroups() == [next.active.value.metadata];
  }

  /** A push onto an open group either grows it or closes it, exactly as `Joins` decides. */
  lemma PushDecision(policy: Policy, run: Run, item: Item)
    requires RunInvariant(policy, run) && run.active.Some?
    requires PushStep(policy, run.active, item).Ok?
    ensures ContiguousItems(run.accepted + [item])
    ensures Base(run.accepted) <= run.active.value.metadata.first
    ensures run.active.value.metadata.first - Base(run.accepted) < |run.accepted|
    ensures var s := run.active.value.metadata.first - Base(run.accepted);
      var joins := Joins(policy, run.accepted + [item], s, |run.accepted|);
      PushStep(policy, run.active, item).value ==
      if joins then
        Pushed(ActiveGroup(
                 Grow(run.active.value.metadata, item, PairScore(run.accepted[s].pixels, item.pixels)),
                 run.accepted[s].pixels, item.pixels), None)
      else
        Pushed(OpenGroup(item.entry, item.entry.timestamp.value, item.pixels),
               Some(run.active.value.metadata))
  {
    hide Compare, Confirmation;
    var groups := run.AllGroups();
    assert groups[|groups| - 1] == run.active.value.metadata;
    assert DescribesRun(policy, run.accepted, groups[|groups| - 1]);
  }

  lemma PushKeepsInvariant(policy: Policy, run: Run, item: Item)
    requires RunInvariant(policy, run) && PushStep(policy, run.active, item).Ok?
    ensures RunInvariant(policy, Extend(run, item, PushStep(policy, run.active, item).value))
  {
    hide PushStep, Accepts, Compare, Confirmation, DescribesRun, EndsAtRejection;
    if run.active.None? {
      FirstPushKeepsInvariant(policy, run, item);
    } else {
      PushDecision(policy, run, item);
      var groups := run.AllGroups();
      assert groups[|groups| - 1] == run.active.value.metadata;
      if Joins(policy, run.accepted + [item], run.active.value.metadata.first - Base(run.accepted), |run.accepted|) {
        PartitionGrowsLastGroup(policy, run.accepted, groups, item);
        assert groups[..|groups| - 1] == run.emitted;
      } else {
        PartitionGrowsByNewGroup(policy, run.accepted, groups, item);
      }
    }
  }

  lemma {:induction false} RunKeepsInvariant(policy: Policy, offered: seq<Item>)
    ensures RunInvariant(policy, RunAll(policy, offered))
  {
    hide Compare, Confirmation;
    if offered != [] {
      var before := RunAll(policy, offered[..|offered| - 1]);
      RunKeepsInvariant(policy, offered[..|offered| - 1]);
      if PushStep(policy, before.active, offered[|offered| - 1]).Ok? {
        PushKeepsInvariant(policy, before, offered[|offered| - 1]);
      }
    }
  }

  /** Every run of pushes, followed by `finish`, yields the greedy partition of the accepted frames. */
  lemma StreamingIsGreedy(policy: Policy, offered: seq<Item>)
    ensures GreedyPartition(policy, RunAll(policy, offered).accepted, RunAll(policy, offered).AllGroups())
  {
    RunKeepsInvariant(policy, offered);
  }

  lemma RejectionStopsRun(policy: Policy, items: seq<Item>, short: Group, long: Group)
    requires items != [] && ContiguousItems(items)
    requires DescribesRun(policy, items, long) && EndsAtRejection(policy, items, short)
    requires short.first == long.first
    ensures long.last <= short.last
  {
    hide Compare, Confirmation;
  }

  lemma {:induction false} PartitionsAgreeUpTo(
    policy: Policy, items: seq<Item>, left: seq<Group>, right: seq<Group>, n: nat)
    requires GreedyPartition(policy, items, left) && GreedyPartition(policy, items, right)
    requires items != [] && n < |left|
    ensures n < |right| && left[n] == right[n]
  {
    hide Compare, Confirmation, Joins, MinScore;
    if n > 0 {
      PartitionsAgreeUpTo(policy, items, left, right, n - 1);
      assert Adjacent(left, n - 1);
      assert DescribesRun(policy, items, left[n]);
      assert n - 1 != |right| - 1;
      assert Adjacent(right, n - 1);
    }
    assert DescribesRun(policy, items, left[n]) && DescribesRun(policy, items, right[n]);
    if n < |left| - 1 {
      RejectionStopsRun(policy, items, left[n], right[n]);
    }
    if n < |right| - 1 {
      RejectionStopsRun(policy, items, right[n], left[n]);
    }
  }

  /** There is exactly one greedy partition, so the streaming result is determined by the frames. */
  lemma GreedyPartitionIsUnique(policy: Policy, items: seq<Item>, left: seq<Group>, right: seq<Group>)
    requires GreedyPartition(policy, items, left) && GreedyPartition(policy, items, right)
    ensures left == right
  {
    hide Compare, Confirmation;
    if items != [] {
      PartitionsAgreeUpTo(policy, items, left, right, |left| - 1);
      PartitionsAgreeUpTo(policy, items, right, left, |right| - 1);
      forall i | 0 <= i < |left|
        ensures left[i] == right[i]
      {
        PartitionsAgreeUpTo(policy, items, left, right, i);
      }
    }
  }

  /** A timestamped next frame of the accepted size is never refused. */
  lemma NextFrameIsAccepted(policy: Policy, run: Run, item: Item)
    requires RunInvariant(policy, run) && item.entry.timestamp.Some?
    requires run.accepted != [] ==> item.entry.frameId == Base(run.accepted) + |run.accepted|
    requires forall k :: 0 <= k < |run.accepted| ==> SameSize(run.accepted[k].pixels, item.pixels)
    ensures PushStep(policy, run.active, item).Ok?
  {
    hide Compare, Joins, EndsAtRejection, MinScore;
    if run.active.Some? {
      var groups := run.AllGroups();
      assert DescribesRun(policy, run.accepted, groups[|groups| - 1]);
    }
  }

  /** When every frame is offered in order with a timestamp and one size, nothing is refused. */
  lemma {:induction false} WellFormedStreamIsAccepted(policy: Policy, offered: seq<Item>)
    requires ContiguousItems(offered)
    requires forall k :: 0 <= k < |offered| ==> SameSize(offered[0].pixels, offered[k].pixels)
    ensures RunAll(policy, offered).accepted == offered
  {
    hide PushStep, RunInvariant;
    if offered != [] {
      var n := |offered| - 1;
      var before := offered[..n];
      WellFormedStreamIsAccepted(policy, before);
      RunKeepsInvariant(policy, before);
      NextFrameIsAccepted(policy, RunAll(policy, before), offered[n]);
      assert offered == before + [offered[n]];
    }
  }

  /** No chain drift: any two frames of one group, however long, stay within the bound. */
  lemma BoundedDrift(policy: Policy, items: seq<Item>, groups: seq<Group>, i: nat, j: nat, k: nat)
    requires ValidPolicy(policy) && GreedyPartition(policy, items, groups)
    requires i < |groups|
    requires groups[i].first <= Base(items) + j <= groups[i].last
    requires groups[i].first <= Base(items) + k <= groups[i].last
    ensures j < |items| && k < |items|
    ensures SameSize(items[j].pixels, items[k].pixels)
    ensures Confirmation(items[j].pixels, items[k].pixels) >= 2 * policy.minimumSimilarity - 10_001
    ensures Hamming(DHash(items[j].pixels), DHash(items[k].pixels)) <= 2 * policy.maxHashDistance
  {
    hide GreedyPartition, Confirmation, Hamming, DHash, SameSize, Accepts, ValidPolicy;
    var s := MembersAccepted(policy, items, groups, i, j);
    var t := MembersAccepted(policy, items, groups, i, k);
    AcceptedAgainstPivot(policy, items[s].pixels, items[j].pixels, items[k].pixels);
  }

  /** Every member of a group is accepted by the group's first frame, that frame included. */
  lemma MembersAccepted(policy: Policy, items: seq<Item>, groups: seq<Group>, i: nat, j: nat) returns (s: nat)
    requires ValidPolicy(policy) && GreedyPartition(policy, items, groups)
    requires i < |groups|
    requires groups[i].first <= Base(items) + j <= groups[i].last
    ensures s == groups[i].first - Base(items) && s <= j < |items|
    ensures Accepts(policy, items[s].pixels, items[j].pixels)
  {
    hide Accepts, MinScore, EndsAtRejection, ValidPolicy;
    s := groups[i].first - Base(items);
    assert DescribesRun(policy, items, groups[i]);
    if s < j {
      assert Joins(policy, items, s, j);
    }
    MemberAcceptedByRepresentative(policy, items[s].pixels, items[j].pixels, s == j);
  }

  /**
   * What the groups of a partition are, in terms of the frames: within a group every frame is accepted against
   * the one before it and against the first; the frame after a group fails one of the two.
   */
  lemma GroupsAreMaximalRuns(policy: Policy, items: seq<Item>, groups: seq<Group>, i: nat)
    requires GreedyPartition(policy, items, groups) && i < |groups|
    ensures items != []
    ensures var base := items[0].entry.frameId; var s, e := groups[i].first - base, groups[i].last - base;
      && 0 <= s <= e < |items|
      && (i == 0 ==> s == 0) && (i == |groups| - 1 ==> e == |items| - 1)
      && (i + 1 < |groups| ==> groups[i + 1].first == groups[i].last + 1)
      && (forall k | s < k <= e ::
            Accepts(policy, items[k - 1].pixels, items[k].pixels) && Accepts(policy, items[s].pixels, items[k].pixels))
      && (i + 1 < |groups| ==>
            e + 1 < |items| && !(Accepts(policy, items[e].pixels, items[e + 1].pixels)
                                 && Accepts(policy, items[s].pixels, items[e + 1].pixels)))
  {
    hide Accepts, MinScore;
    var g := groups[i];
    assert DescribesRun(policy, items, g);
    var s, e := g.first - Base(items), g.last - Base(items);
    forall k | s < k <= e
      ensures Accepts(policy, items[k - 1].pixels, items[k].pixels) && Accepts(policy, items[s].pixels, items[k].pixels)
    {
      assert Joins(policy, items, s, k);
    }
    if i + 1 < |groups| {
      assert EndsAtRejection(policy, items, g) && Adjacent(groups, i);
    }
  }

  /** What a group records: its first frame for representative, exact bounds, and the lowest score against it. */
  lemma GroupRecords(policy: Policy, items: seq<Item>, groups: seq<Group>, i: nat) returns (lowest: nat)
    requires GreedyPartition(policy, items, groups) && i < |groups|
    ensures items != []
    ensures var g, base := groups[i], items[0].entry.frameId; var s, e := g.first - base, g.last - base;
      && 0 <= s <= lowest <= e < |items|
      && g.representative == g.first && g.count == e - s + 1
      && Some(g.startTimestamp) == items[s].entry.timestamp && g.startDuration == items[s].entry.duration
      && Some(g.endTimestamp) == items[e].entry.timestamp && g.endDuration == items[e].entry.duration
      && (s == e ==> g.floor == 10_000)
      && (s < e ==> s < lowest && SameSize(items[s].pixels, items[lowest].pixels)
                    && g.floor == Confirmation(items[s].pixels, items[lowest].pixels))
  {
    hide Accepts, Confirmation, MinScore;
    var g := groups[i];
    assert DescribesRun(policy, items, g);
    var s, e := g.first - Base(items), g.last - Base(items);
    RunHasOneSize(policy, items, s, e);
    LowestScore(items, s, e);
    lowest := s;
    if s < e {
      lowest :| s < lowest <= e && MinScore(items, s, e) == Confirmation(items[s].pixels, items[lowest].pixels);
    }
  }

  lemma RunHasOneSize(policy: Policy, items: seq<Item>, s: nat, e: nat)
    requires s <= e < |items| && forall k :: s < k <= e ==> Joins(policy, items, s, k)
    ensures forall k | s < k <= e :: SameSize(items[s].pixels, items[k].pixels)
  {
    forall k | s < k <= e ensures SameSize(items[s].pixels, items[k].pixels) {
      assert Joins(policy, items, s, k);
    }
  }

  /** No frame of a group scores below what the group records. */
  lemma FloorIsLowest(policy: Policy, items: seq<Item>, groups: seq<Group>, i: nat, k: nat)
    requires GreedyPartition(policy, items, groups) && i < |groups|
    requires items != [] && groups[i].first - items[0].entry.frameId < k <= groups[i].last - items[0].entry.frameId
    ensures var s := groups[i].first - items[0].entry.frameId;
      0 <= s < k < |items| && SameSize(items[s].pixels, items[k].pixels)
      && groups[i].floor <= Confirmation(items[s].pixels, items[k].pixels)
  {
    hide Accepts, Confirmation, MinScore;
    var g := groups[i];
    assert DescribesRun(policy, items, g);
    var s, e := g.first - Base(items), g.last - Base(items);
    RunHasOneSize(policy, items, s, e);
    LowestScore(items, s, e);
  }

  lemma {:induction false} LowestScore(items: seq<Item>, start: nat, end: nat)
    requires start <= end < |items|
    requires forall k | start < k <= end :: SameSize(items[start].pixels, items[k].pixels)
    ensures MinScore(items, start, end) <= 10_000
    ensures forall k | start < k <= end ::
      MinScore(items, start, end) <= Confirmation(items[start].pixels, items[k].pixels)
    ensures start == end ==> MinScore(items, start, end) == 10_000
    ensures start < end ==>
      exists k | start < k <= end :: MinScore(items, start, end) == Confirmation(items[start].pixels, items[k].pixels)
  {
    hide Confirmation;
    if start < end {
      LowestScore(items, start, end - 1);
    }
  }

  lemma SelfEqual(f: Frame)
    ensures VisibleEqual(f, f)
  {
  }

  lemma MemberAcceptedByRepresentative(policy: Policy, pivot: Frame, member: Frame, same: bool)
    requires ValidPolicy(policy)
    requires if same then pivot == member else Accepts(policy, pivot, member)
    ensures Accepts(policy, pivot, member)
  {
    hide Confirmation, Hamming, DHash, VisibleEqual;
    if same {
      SelfEqual(pivot);
      FastPathAgrees(pivot, pivot);
      HammingMetric(DHash(pivot), DHash(pivot), DHash(pivot));
    }
  }
}
