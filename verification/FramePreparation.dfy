/**
 * Supersession of source-quality frame preparations. A session has at most one active
 * preparation; a newer one, or a newer navigation, cancels the request token and whatever work
 * token (that of a retained decoder) the request has adopted. Each registry operation is one
 * atomic step under the registry mutex.
 */
module FramePreparation {
  import opened Common

  type Token = nat

  datatype Preparation = Preparation(generation: int, request: Token, work: Token)

  datatype Guard = Guard(session: int, generation: int, request: Token)

  datatype Failure = InvalidSession | GenerationsExhausted

  datatype World = World(
    nextGeneration: int,
    active: map<int, Preparation>,
    nextToken: Token,            // tokens below it exist
    cancelled: set<Token>,
    guards: map<Guard, Token>)   // live guards and the work token each adopted last

  datatype Op =
    | Begin(session: int)
    | Adopt(guard: Guard, work: Token)
    | Drop(guard: Guard)
    | CancelActive(session: int)
    | NewToken
    | CancelElsewhere(token: Token)

  const INITIAL := World(0, map[], 0, {}, map[])

  predicate IsActive(w: World, guard: Guard) {
    guard.session in w.active && w.active[guard.session].generation == guard.generation
  }

  /** The tokens a supersession of `session` reaches. */
  function ActiveTokens(w: World, session: int): set<Token> {
    if session in w.active then {w.active[session].request, w.active[session].work} else {}
  }

  // ---- The atomic steps ----

  function Supersede(w: World, session: int): World {
    w.(active := w.active - {session}, cancelled := w.cancelled + ActiveTokens(w, session))
  }

  function Issued(w: World, session: int): Guard {
    Guard(session, w.nextGeneration + 1, w.nextToken)
  }

  function Install(w: World, session: int): World {
    var guard := Issued(w, session);
    w.(nextGeneration := guard.generation,
       nextToken := w.nextToken + 1,
       active := w.active[session := Preparation(guard.generation, guard.request, guard.request)],
       guards := w.guards[guard := guard.request])
  }

  function Start(w: World, session: int): World {
    if session <= 0 then
      w
    else
      var cleared := Supersede(w, session);
      if w.nextGeneration == I64_MAX then cleared.(nextToken := w.nextToken + 1) else Install(cleared, session)
  }

  /** The locked condition under which a guard's work token is replaced. */
  predicate MayAdopt(w: World, guard: Guard) {
    IsActive(w, guard) && w.active[guard.session].request !in w.cancelled
  }

  function AdoptWork(w: World, guard: Guard, work: Token): World {
    if MayAdopt(w, guard) then
      w.(active := w.active[guard.session := w.active[guard.session].(work := work)],
         guards := w.guards[guard := work])
    else
      w
  }

  function Release(w: World, guard: Guard): World {
    w.(active := if IsActive(w, guard) then w.active - {guard.session} else w.active, guards := w.guards - {guard})
  }

  function Interrupt(w: World, session: int): World {
    if session <= 0 then w else w.(cancelled := w.cancelled + ActiveTokens(w, session))
  }

  /** One step. Guards that are not alive and tokens that do not exist cannot be used: no effect. */
  function Step(w: World, op: Op): World {
    match op
    case Begin(session) => Start(w, session)
    case Adopt(guard, work) => if guard in w.guards && work < w.nextToken then AdoptWork(w, guard, work) else w
    case Drop(guard) => if guard in w.guards then Release(w, guard) else w
    case CancelActive(session) => Interrupt(w, session)
    case NewToken => w.(nextToken := w.nextToken + 1)
    case CancelElsewhere(token) => if token < w.nextToken then w.(cancelled := w.cancelled + {token}) else w
  }

  function RunFrom(w: World, ops: seq<Op>): World
    decreases |ops|
  {
    if ops == [] then w else RunFrom(Step(w, ops[0]), ops[1..])
  }

  // ---- What every step keeps ----

  /** An active preparation has its live guard, holds the guard's tokens and is the newest of its session. */
  ghost predicate ActiveIsOwned(w: World) {
    forall s | s in w.active ::
      var guard := Guard(s, w.active[s].generation, w.active[s].request);
      s > 0 && guard in w.guards && w.guards[guard] == w.active[s].work
  }

  ghost predicate ActiveIsNewest(w: World) {
    forall g | g in w.guards && g.session in w.active :: g.generation <= w.active[g.session].generation
  }

  ghost predicate GenerationsRise(w: World) {
    && 0 <= w.nextGeneration <= I64_MAX
    && (forall g | g in w.guards :: 1 <= g.generation <= w.nextGeneration)
    && (forall g, h | g in w.guards && h in w.guards && g.generation == h.generation :: g == h)
  }

  ghost predicate TokensExist(w: World) {
    && (forall t | t in w.cancelled :: t < w.nextToken)
    && (forall g | g in w.guards :: g.request < w.nextToken && w.guards[g] < w.nextToken)
  }

  ghost predicate SupersededAreCancelled(w: World) {
    forall g | g in w.guards && !IsActive(w, g) :: g.request in w.cancelled && w.guards[g] in w.cancelled
  }

  ghost predicate Invariant(w: World) {
    && ActiveIsOwned(w)
    && ActiveIsNewest(w)
    && GenerationsRise(w)
    && TokensExist(w)
    && SupersededAreCancelled(w)
  }

  lemma ActiveGuard(w: World, guard: Guard)
    requires Invariant(w) && guard in w.guards && IsActive(w, guard)
    ensures w.active[guard.session] == Preparation(guard.generation, guard.request, w.guards[guard])
  {
    var s := guard.session;
    assert Guard(s, w.active[s].generation, w.active[s].request) in w.guards;
  }

  lemma SupersedeKeeps(w: World, session: int)
    requires Invariant(w)
    ensures Invariant(Supersede(w, session))
  {
    var after := Supersede(w, session);
    forall g | g in after.guards && !IsActive(after, g)
      ensures g.request in after.cancelled && after.guards[g] in after.cancelled
    {
      if IsActive(w, g) {
        ActiveGuard(w, g);
      }
    }
    forall t | t in after.cancelled ensures t < after.nextToken {
      if t !in w.cancelled {
        var guard := Guard(session, w.active[session].generation, w.active[session].request);
        assert guard in w.guards && w.guards[guard] == w.active[session].work;
      }
    }
  }

  lemma InstallIsOwned(w: World, session: int)
    requires ActiveIsOwned(w) && SupersededAreCancelled(w) && session > 0 && session !in w.active
    requires Issued(w, session) !in w.guards
    ensures var after := Install(w, session); ActiveIsOwned(after) && SupersededAreCancelled(after)
  {
    var after := Install(w, session);
    forall g | g in after.guards && !IsActive(after, g)
      ensures g.request in after.cancelled && after.guards[g] in after.cancelled
    {
      assert g in w.guards && !IsActive(w, g);
    }
  }

  lemma InstallIsNewest(w: World, session: int)
    requires ActiveIsNewest(w) && GenerationsRise(w) && session !in w.active && w.nextGeneration < I64_MAX
    ensures ActiveIsNewest(Install(w, session)) && GenerationsRise(Install(w, session))
  {
  }

  lemma InstallKeeps(w: World, session: int)
    requires Invariant(w) && session > 0 && session !in w.active && w.nextGeneration < I64_MAX
    ensures Invariant(Install(w, session))
  {
    assert Issued(w, session) !in w.guards;
    hide ActiveIsOwned, SupersededAreCancelled, ActiveIsNewest, GenerationsRise;
    InstallIsOwned(w, session);
    InstallIsNewest(w, session);
  }

  lemma StartKeeps(w: World, session: int)
    requires Invariant(w)
    ensures Invariant(Start(w, session))
  {
    if session > 0 {
      SupersedeKeeps(w, session);
      var cleared := Supersede(w, session);
      if w.nextGeneration < I64_MAX {
        hide Invariant;
        InstallKeeps(cleared, session);
      }
    }
  }

  lemma AdoptIsOwned(w: World, guard: Guard, work: Token)
    requires ActiveIsOwned(w) && guard in w.guards && MayAdopt(w, guard)
    requires w.active[guard.session].request == guard.request
    ensures ActiveIsOwned(AdoptWork(w, guard, work))
  {
    var after := AdoptWork(w, guard, work);
    forall s | s in after.active
      ensures var owner := Guard(s, after.active[s].generation, after.active[s].request);
        s > 0 && owner in after.guards && after.guards[owner] == after.active[s].work
    {
      assert s in w.active;
    }
  }

  lemma AdoptKeepsCancelled(w: World, guard: Guard, work: Token)
    requires SupersededAreCancelled(w) && guard in w.guards && MayAdopt(w, guard)
    ensures SupersededAreCancelled(AdoptWork(w, guard, work))
  {
    var after := AdoptWork(w, guard, work);
    forall g | g in after.guards && !IsActive(after, g)
      ensures g.request in after.cancelled && after.guards[g] in after.cancelled
    {
      assert g in w.guards && !IsActive(w, g) && g != guard;
    }
  }

  lemma AdoptKeepsOrder(w: World, guard: Guard, work: Token)
    requires ActiveIsNewest(w) && GenerationsRise(w) && guard in w.guards && MayAdopt(w, guard)
    ensures ActiveIsNewest(AdoptWork(w, guard, work)) && GenerationsRise(AdoptWork(w, guard, work))
  {
    var after := AdoptWork(w, guard, work);
    assert after.guards.Keys == w.guards.Keys && after.active.Keys == w.active.Keys;
  }

  lemma AdoptKeeps(w: World, guard: Guard, work: Token)
    requires Invariant(w) && guard in w.guards && work < w.nextToken
    ensures Invariant(AdoptWork(w, guard, work))
  {
    if MayAdopt(w, guard) {
      ActiveGuard(w, guard);
      hide ActiveIsOwned, SupersededAreCancelled, ActiveIsNewest, GenerationsRise;
      AdoptIsOwned(w, guard, work);
      AdoptKeepsCancelled(w, guard, work);
      AdoptKeepsOrder(w, guard, work);
    }
  }

  lemma ReleaseKeeps(w: World, guard: Guard)
    requires Invariant(w) && guard in w.guards
    ensures Invariant(Release(w, guard))
  {
    var after := Release(w, guard);
    forall g | g in after.guards && !IsActive(after, g)
      ensures g.request in after.cancelled && after.guards[g] in after.cancelled
    {
      assert !IsActive(w, g);
    }
    forall s | s in after.active
      ensures Guard(s, after.active[s].generation, after.active[s].request) in after.guards
    {
      assert Guard(s, w.active[s].generation, w.active[s].request) in w.guards;
    }
  }

  lemma CancelKeeps(w: World, tokens: set<Token>)
    requires Invariant(w) && (forall t | t in tokens :: t < w.nextToken)
    ensures Invariant(w.(cancelled := w.cancelled + tokens))
  {
  }

  lemma ActiveTokensExist(w: World, session: int)
    requires Invariant(w)
    ensures forall t | t in ActiveTokens(w, session) :: t < w.nextToken
  {
    if session in w.active {
      var guard := Guard(session, w.active[session].generation, w.active[session].request);
      assert guard in w.guards && w.guards[guard] == w.active[session].work;
    }
  }

  lemma StepKeepsInvariant(w: World, op: Op)
    requires Invariant(w)
    ensures Invariant(Step(w, op))
  {
    match op {
      case Begin(session) => StartKeeps(w, session);
      case Adopt(guard, work) => if guard in w.guards && work < w.nextToken { AdoptKeeps(w, guard, work); }
      case Drop(guard) => if guard in w.guards { ReleaseKeeps(w, guard); }
      case CancelActive(session) => ActiveTokensExist(w, session); CancelKeeps(w, ActiveTokens(w, session));
      case NewToken =>
      case CancelElsewhere(token) => if token < w.nextToken { CancelKeeps(w, {token}); }
    }
  }

  lemma {:induction false} RunKeepsInvariant(w: World, ops: seq<Op>)
    requires Invariant(w)
    ensures Invariant(RunFrom(w, ops))
    decreases |ops|
  {
    if ops != [] {
      StepKeepsInvariant(w, ops[0]);
      RunKeepsInvariant(Step(w, ops[0]), ops[1..]);
    }
  }

  /**
   * In every reachable state a live preparation with an uncancelled request or work token is the
   * active and newest one of its session, so each session has at most one.
   */
  lemma OnlyTheNewestRuns(ops: seq<Op>, g: Guard, h: Guard)
    ensures var w := RunFrom(INITIAL, ops);
      && Invariant(w)
      && (g in w.guards && (g.request !in w.cancelled || w.guards[g] !in w.cancelled) ==>
            IsActive(w, g) && (h in w.guards && h.session == g.session && h != g ==>
              h.generation < g.generation && h.request in w.cancelled && w.guards[h] in w.cancelled))
  {
    RunKeepsInvariant(INITIAL, ops);
    var w := RunFrom(INITIAL, ops);
    if g in w.guards && (g.request !in w.cancelled || w.guards[g] !in w.cancelled) {
      assert IsActive(w, g);
    }
  }

  /**
   * Beginning a preparation: its generation is above every earlier one, its token is new and
   * uncancelled, and the displaced preparation has both its tokens cancelled, even when the
   * generations are exhausted and no new preparation starts.
   */
  lemma BeginSupersedes(w: World, session: int, g: Guard)
    requires Invariant(w) && session > 0
    requires g in w.guards && g.session == session
    ensures var after := Step(w, Begin(session)); var issued := Issued(w, session);
      && g.generation < issued.generation
      && g in after.guards && g.request in after.cancelled && after.guards[g] in after.cancelled
      && (w.nextGeneration < I64_MAX ==>
            IsActive(after, issued) && issued !in w.guards && issued.request !in after.cancelled)
      && (w.nextGeneration == I64_MAX ==> session !in after.active && after.guards == w.guards)
  {
    StepKeepsInvariant(w, Begin(session));
    var after := Step(w, Begin(session));
    assert g != Issued(w, session);
    assert g in after.guards && !IsActive(after, g);
    ActiveTokensExist(w, session);
    assert w.nextToken !in ActiveTokens(w, session);
  }

  /** Interrupting a session cancels both tokens of its active preparation, which stays registered. */
  lemma CancelReachesBoth(w: World, guard: Guard)
    requires Invariant(w) && guard in w.guards
    ensures var after := Step(w, CancelActive(guard.session));
      && guard.request in after.cancelled && after.guards[guard] in after.cancelled
      && after.active == w.active && after.guards == w.guards
  {
    if IsActive(w, guard) {
      ActiveGuard(w, guard);
    }
  }

  /**
   * Cancellation is final: once both tokens of a live preparation are cancelled, it cannot adopt
   * another decoder's token in any later state, so no work of it escapes.
   */
  lemma {:induction false} CancellationIsFinal(w: World, guard: Guard, ops: seq<Op>)
    requires Invariant(w) && guard in w.guards && guard.request in w.cancelled
    ensures var after := RunFrom(w, ops);
      && guard.request in after.cancelled
      && (guard in after.guards ==> after.guards[guard] == w.guards[guard] && !MayAdopt(after, guard))
    decreases |ops|
  {
    if IsActive(w, guard) {
      ActiveGuard(w, guard);
    }
    if ops != [] {
      var next := Step(w, ops[0]);
      StepKeepsInvariant(w, ops[0]);
      FinalStep(w, guard, ops[0]);
      if guard in next.guards {
        CancellationIsFinal(next, guard, ops[1..]);
      } else {
        NeverReissued(next, guard, ops[1..]);
      }
    }
  }

  lemma FinalStep(w: World, guard: Guard, op: Op)
    requires Invariant(w) && guard in w.guards && guard.request in w.cancelled
    ensures var after := Step(w, op);
      && guard.request in after.cancelled && guard.generation <= after.nextGeneration
      && (guard in after.guards ==> after.guards[guard] == w.guards[guard])
  {
    if op.Adopt? && op.guard == guard && IsActive(w, guard) {
      ActiveGuard(w, guard);
    }
  }

  /** A guard that is gone never comes back: its generation is spent. */
  lemma {:induction false} NeverReissued(w: World, guard: Guard, ops: seq<Op>)
    requires guard.generation <= w.nextGeneration && guard !in w.guards
    ensures guard !in RunFrom(w, ops).guards
    ensures guard.request in w.cancelled ==> guard.request in RunFrom(w, ops).cancelled
    decreases |ops|
  {
    if ops != [] {
      NeverReissued(Step(w, ops[0]), guard, ops[1..]);
    }
  }

  /** Completing a preparation ends its guard and its own registration, cancels nothing and disturbs no other. */
  lemma DropEndsOwnOnly(w: World, guard: Guard, session: int)
    requires Invariant(w) && guard in w.guards
    ensures var after := Step(w, Drop(guard));
      && after.guards == w.guards - {guard} && after.cancelled == w.cancelled && !IsActive(after, guard)
      && (session in w.active && session !in after.active ==>
            session == guard.session && w.active[session].generation == guard.generation)
      && (session in after.active ==> session in w.active && after.active[session] == w.active[session])
      && after.nextGeneration == w.nextGeneration
  {
  }

  /** A step concerns one session; the active preparations of all others stay. */
  lemma OthersUntouched(w: World, op: Op, other: int)
    requires op.Begin? || op.CancelActive? ==> op.session != other
    requires op.Adopt? || op.Drop? ==> op.guard.session != other
    ensures var after := Step(w, op);
      (other in after.active <==> other in w.active)
      && (other in w.active ==> after.active[other] == w.active[other])
  {
  }

  /** An adoption changes the work token of its own preparation and nothing else. */
  lemma AdoptMeaning(w: World, guard: Guard, work: Token)
    requires Invariant(w) && guard in w.guards && work < w.nextToken
    requires IsActive(w, guard) && guard.request !in w.cancelled
    ensures Step(w, Adopt(guard, work))
         == w.(active := w.active[guard.session := Preparation(guard.generation, guard.request, work)],
               guards := w.guards[guard := work])
  {
    ActiveGuard(w, guard);
  }

  // ---- When a token becomes cancelled ----

  /** The steps that cancel `token`: superseding or interrupting the preparation that holds it. */
  predicate Cancels(w: World, op: Op, token: Token) {
    || ((op.Begin? || op.CancelActive?) && op.session > 0 && token in ActiveTokens(w, op.session))
    || (op == CancelElsewhere(token) && token < w.nextToken)
  }

  lemma CancelledIff(w: World, op: Op, token: Token)
    ensures token in Step(w, op).cancelled <==> token in w.cancelled || Cancels(w, op, token)
  {
  }

  ghost predicate NeverCancelled(w: World, ops: seq<Op>, token: Token)
    decreases |ops|
  {
    ops != [] ==> !Cancels(w, ops[0], token) && NeverCancelled(Step(w, ops[0]), ops[1..], token)
  }

  lemma {:induction false} TokenSurvivesIff(w: World, ops: seq<Op>, token: Token)
    ensures token !in RunFrom(w, ops).cancelled <==> token !in w.cancelled && NeverCancelled(w, ops, token)
    decreases |ops|
  {
    if ops != [] {
      CancelledIff(w, ops[0], token);
      TokenSurvivesIff(Step(w, ops[0]), ops[1..], token);
    }
  }

  /** One warm request: it begins, works with the retained decoder's token, and completes. */
  function WarmRequest(w: World, session: int, token: Token): World {
    var begun := Step(w, Begin(session));
    Step(Step(begun, Adopt(Issued(w, session), token)), Drop(Issued(w, session)))
  }

  /** A token that no active preparation holds, so nothing but its own user can cancel it. */
  ghost predicate Idle(w: World, token: Token) {
    token < w.nextToken && token !in w.cancelled && forall s | s in w.active :: token !in ActiveTokens(w, s)
  }

  lemma WarmRequestKeepsInvariant(w: World, session: int, token: Token)
    requires Invariant(w)
    ensures Invariant(WarmRequest(w, session, token))
  {
    hide Invariant;
    hide Step;
    var begun := Step(w, Begin(session));
    StepKeepsInvariant(w, Begin(session));
    var working := Step(begun, Adopt(Issued(w, session), token));
    StepKeepsInvariant(begun, Adopt(Issued(w, session), token));
    StepKeepsInvariant(working, Drop(Issued(w, session)));
  }

  lemma WarmRequestAdopts(w: World, session: int, token: Token)
    requires Invariant(w) && Idle(w, token) && session > 0 && session !in w.active && w.nextGeneration < I64_MAX
    ensures var guard := Issued(w, session); var begun := Step(w, Begin(session));
      && MayAdopt(begun, guard)
      && Step(begun, Adopt(guard, token)).active[session].work == token
      && var after := WarmRequest(w, session, token);
         after == w.(nextGeneration := w.nextGeneration + 1, nextToken := w.nextToken + 1)
  {
    hide Idle, ActiveIsNewest, SupersededAreCancelled, ActiveIsOwned;
    var guard := Issued(w, session);
    assert token < w.nextToken by { IdleExists(w, token); }
    assert guard !in w.guards && guard.request !in w.cancelled;
    assert Supersede(w, session) == w;
    var begun := Install(w, session);
    assert Step(w, Begin(session)) == begun;
    assert MayAdopt(begun, guard);
    var working := AdoptWork(begun, guard, token);
    assert Step(begun, Adopt(guard, token)) == working;
    assert IsActive(working, guard);
    assert Release(working, guard).active == w.active;
    assert Release(working, guard).guards == w.guards;
  }

  lemma IdleExists(w: World, token: Token)
    requires Idle(w, token)
    ensures token < w.nextToken
  {
  }

  lemma WarmRequestKeepsIdle(w: World, session: int, token: Token)
    requires Invariant(w) && Idle(w, token) && session > 0 && session !in w.active && w.nextGeneration < I64_MAX
    ensures var after := WarmRequest(w, session, token);
      && Invariant(after) && Idle(after, token) && session !in after.active
      && after.nextGeneration == w.nextGeneration + 1 && after.cancelled == w.cancelled
  {
    WarmRequestKeepsInvariant(w, session, token);
    WarmRequestAdopts(w, session, token);
    hide Invariant, WarmRequest;
    var after := WarmRequest(w, session, token);
    forall s | s in after.active ensures token !in ActiveTokens(after, s) {
      assert ActiveTokens(after, s) == ActiveTokens(w, s);
    }
  }

  function WarmRequests(w: World, session: int, token: Token, n: nat): World
    decreases n
  {
    if n == 0 then w else WarmRequests(WarmRequest(w, session, token), session, token, n - 1)
  }

  /** A retained decoder serves any number of completed requests: its one-shot token stays uncancelled. */
  lemma {:induction false} WarmDecoderStaysUsable(w: World, session: int, token: Token, n: nat)
    requires Invariant(w) && Idle(w, token) && session > 0 && session !in w.active
    requires w.nextGeneration + n <= I64_MAX
    ensures Idle(WarmRequests(w, session, token, n), token)
    decreases n
  {
    if n > 0 {
      WarmRequestKeepsIdle(w, session, token);
      WarmDecoderStaysUsable(WarmRequest(w, session, token), session, token, n - 1);
    }
  }

  // ---- The registry in place ----

  class FramePreparationRegistry {
    var nextGeneration: int
    var active: map<int, Preparation>
    var nextToken: Token
    var cancelled: set<Token>
    ghost var guards: map<Guard, Token>

    ghost function State(): World
      reads this
    {
      World(nextGeneration, active, nextToken, cancelled, guards)
    }

    constructor ()
      ensures State() == INITIAL && Invariant(State())
    {
      nextGeneration, active, nextToken, cancelled, guards := 0, map[], 0, {}, map[];
    }

    method BeginFramePreparation(session: int) returns (r: Result<Guard, Failure>)
      requires Invariant(State())
      modifies this
      ensures Invariant(State())
      ensures State() == Step(old(State()), Begin(session))
      ensures r == (if session <= 0 then Err(InvalidSession)
                    else if old(nextGeneration) == I64_MAX then Err(GenerationsExhausted)
                    else Ok(Issued(old(State()), session)))
      ensures r.Ok? ==> IsActive(State(), r.value) && r.value.request !in cancelled
    {
      hide Invariant;
      ghost var before := State();
      StepKeepsInvariant(before, Begin(session));
      if session <= 0 {
        return Err(InvalidSession);
      }
      var request := nextToken;
      nextToken := nextToken + 1;
      if session in active {
        cancelled := cancelled + {active[session].request, active[session].work};
        active := active - {session};
      }
      assert cancelled == Supersede(before, session).cancelled && active == Supersede(before, session).active;
      if nextGeneration == I64_MAX {
        return Err(GenerationsExhausted);
      }
      nextGeneration := nextGeneration + 1;
      active := active[session := Preparation(nextGeneration, request, request)];
      var guard := Guard(session, nextGeneration, request);
      guards := guards[guard := request];
      FreshRequest(before, session);
      return Ok(guard);
    }

    method AdoptWorkCancellation(guard: Guard, work: Token) returns (adopted: bool)
      requires Invariant(State()) && guard in guards && work < nextToken
      modifies this
      ensures Invariant(State())
      ensures adopted <==> IsActive(old(State()), guard) && guard.request !in cancelled && work !in cancelled
      ensures State() == if adopted then Step(old(State()), Adopt(guard, work)) else old(State())
      ensures adopted ==> active[guard.session].work == work
    {
      ghost var before := State();
      if IsActive(before, guard) {
        ActiveGuard(before, guard);
      }
      StepKeepsInvariant(before, Adopt(guard, work));
      hide Invariant;
      if guard.request in cancelled || work in cancelled {
        return false;
      }
      if guard.session !in active {
        return false;
      }
      var current := active[guard.session];
      if current.generation != guard.generation || current.request in cancelled {
        return false;
      }
      active := active[guard.session := current.(work := work)];
      guards := guards[guard := work];
      return true;
    }

    method DropGuard(guard: Guard)
      requires Invariant(State()) && guard in guards
      modifies this
      ensures Invariant(State())
      ensures State() == Step(old(State()), Drop(guard))
      ensures cancelled == old(cancelled)
    {
      hide Invariant;
      ghost var before := State();
      StepKeepsInvariant(before, Drop(guard));
      if guard.session in active && active[guard.session].generation == guard.generation {
        active := active - {guard.session};
      }
      guards := guards - {guard};
    }

    method CancelActivePreparation(session: int) returns (found: bool)
      requires Invariant(State())
      modifies this
      ensures Invariant(State())
      ensures State() == Step(old(State()), CancelActive(session))
      ensures found <==> session in active
    {
      ghost var before := State();
      StepKeepsInvariant(before, CancelActive(session));
      if session <= 0 || session !in active {
        assert State() == Interrupt(before, session);
        return false;
      }
      cancelled := cancelled + {active[session].request, active[session].work};
      return true;
    }
  }

  lemma FreshRequest(w: World, session: int)
    requires Invariant(w) && session > 0
    ensures w.nextToken !in Supersede(w, session).cancelled
  {
    ActiveTokensExist(w, session);
  }
}
