/**
 * Priority protocol between disposable live previews and authoritative ("exact") navigation.
 *
 * Every registry operation runs under one mutex, so each is one atomic step. Cancellation tokens
 * are one-shot flags that several operations may share, and may be cancelled by anybody at any
 * time. `World` records the registry, the tokens cancelled so far, and the guards still alive.
 */
module PreviewProtocol {
  import opened Common

  const U32_MAX: int := 0xFFFF_FFFF

  type Token = nat

  datatype Operation = Operation(generation: u64, token: Token)

  datatype PreviewGuard = PreviewGuard(session: int, generation: u64)

  datatype ExactGuard = ExactGuard(session: int, registered: bool)

  datatype PreviewFailure = CursorCancelled | Superseded | GenerationsExhausted

  datatype World = World(
    nextGeneration: u64,
    active: map<int, Operation>,
    exactInFlight: map<int, nat>,
    cancelled: set<Token>,
    previews: map<PreviewGuard, Token>,  // live preview guards and the token each works under
    exacts: multiset<int>)               // sessions of the live registered exact guards

  datatype Op =
    | BeginPreview(session: int, token: Token)
    | DropPreview(guard: PreviewGuard)
    | BeginExact(session: int)
    | DropExact(session: int)
    | CancelPreview(session: int)
    | Forget(session: int)
    | CancelElsewhere(token: Token)

  const INITIAL := World(0, map[], map[], {}, map[], multiset{})

  function Count(w: World, session: int): nat {
    if session in w.exactInFlight then w.exactInFlight[session] else 0
  }

  predicate Barrier(w: World, session: int) {
    Count(w, session) > 0
  }

  predicate Registered(w: World, guard: PreviewGuard) {
    guard.session in w.active && w.active[guard.session].generation == guard.generation
  }

  /** The token a cancellation of `session` reaches: that of the registered preview, if any. */
  function ActiveToken(w: World, session: int): set<Token> {
    if session in w.active then {w.active[session].token} else {}
  }

  // ---- The atomic steps ----

  function Displace(w: World, session: int): World {
    w.(active := w.active - {session}, cancelled := w.cancelled + ActiveToken(w, session))
  }

  function Enroll(w: World, session: int, token: Token): World
    requires w.nextGeneration < U64_MAX
  {
    var generation: u64 := w.nextGeneration + 1;
    w.(nextGeneration := generation,
       active := w.active[session := Operation(generation, token)],
       previews := w.previews[PreviewGuard(session, generation) := token])
  }

  /** The locked part of registering a preview; the token was inspected before taking the lock. */
  function Register(w: World, session: int, token: Token): World {
    if Barrier(w, session) then
      w
    else
      var cleared := Displace(w, session);
      if w.nextGeneration == U64_MAX then
        cleared
      else
        Enroll(cleared, session, token)
  }

  function ReleasePreview(w: World, guard: PreviewGuard): World {
    w.(active := if Registered(w, guard) then w.active - {guard.session} else w.active,
       previews := w.previews - {guard})
  }

  function RaiseBarrier(w: World, session: int): World {
    if session <= 0 then
      w
    else
      w.(exactInFlight := w.exactInFlight[session := Min(Count(w, session) + 1, U32_MAX)],
         cancelled := w.cancelled + ActiveToken(w, session),
         exacts := w.exacts + multiset{session})
  }

  function LowerBarrier(w: World, session: int): World {
    w.(exactInFlight :=
         if Count(w, session) <= 1 then w.exactInFlight - {session}
         else w.exactInFlight[session := w.exactInFlight[session] - 1],
       exacts := w.exacts - multiset{session})
  }

  function Interrupt(w: World, session: int): World {
    if session <= 0 then w else w.(cancelled := w.cancelled + ActiveToken(w, session))
  }

  function ForgetSession(w: World, session: int): World {
    Displace(w, session).(exactInFlight := w.exactInFlight - {session})
  }

  /** One step of the system. A guard that is not alive cannot be dropped: such a step does nothing. */
  function Step(w: World, op: Op): World {
    match op
    case BeginPreview(session, token) => Register(w, session, token)
    case DropPreview(guard) => if guard in w.previews then ReleasePreview(w, guard) else w
    case BeginExact(session) => RaiseBarrier(w, session)
    case DropExact(session) => if session in w.exacts then LowerBarrier(w, session) else w
    case CancelPreview(session) => Interrupt(w, session)
    case Forget(session) => ForgetSession(w, session)
    case CancelElsewhere(token) => w.(cancelled := w.cancelled + {token})
  }

  function Run(ops: seq<Op>): World {
    if ops == [] then INITIAL else Step(Run(ops[..|ops| - 1]), ops[|ops| - 1])
  }

  // ---- What every step keeps ----

  /** Each registration belongs to exactly one live guard and works under that guard's token. */
  ghost predicate RegistrationsAreOwned(w: World) {
    forall s | s in w.active ::
      && PreviewGuard(s, w.active[s].generation) in w.previews
      && w.previews[PreviewGuard(s, w.active[s].generation)] == w.active[s].token
  }

  ghost predicate GenerationsAreUnique(w: World) {
    && (forall g | g in w.previews :: 1 <= g.generation <= w.nextGeneration)
    && (forall g, h | g in w.previews && h in w.previews && g.generation == h.generation :: g == h)
  }

  ghost predicate DisplacedAreCancelled(w: World) {
    forall g | g in w.previews && !Registered(w, g) :: w.previews[g] in w.cancelled
  }

  ghost predicate BarrierCancels(w: World) {
    forall s | s in w.active && Barrier(w, s) :: w.active[s].token in w.cancelled
  }

  /** A count is never zero, never overflows, and never outlives the guards it stands for. */
  ghost predicate CountsAreBacked(w: World) {
    forall s | s in w.exactInFlight :: 1 <= w.exactInFlight[s] <= U32_MAX && w.exactInFlight[s] <= w.exacts[s]
  }

  ghost predicate Invariant(w: World) {
    && RegistrationsAreOwned(w)
    && GenerationsAreUnique(w)
    && DisplacedAreCancelled(w)
    && BarrierCancels(w)
    && CountsAreBacked(w)
  }

  /** Cancelling and unregistering the active preview of a session, as every displacement does. */
  lemma DisplaceKeeps(w: World, session: int)
    requires Invariant(w)
    ensures Invariant(Displace(w, session))
  {
    var after := Displace(w, session);
    forall g | g in after.previews && !Registered(after, g) ensures after.previews[g] in after.cancelled {
      if Registered(w, g) {
        assert w.previews[g] == w.active[g.session].token;
      }
    }
  }

  lemma EnrollKeeps(w: World, session: int, token: Token)
    requires Invariant(w) && session !in w.active && !Barrier(w, session) && w.nextGeneration < U64_MAX
    ensures Invariant(Enroll(w, session, token))
  {
    EnrollIsOwned(w, session, token);
    hide RegistrationsAreOwned, DisplacedAreCancelled;
  }

  lemma EnrollIsOwned(w: World, session: int, token: Token)
    requires RegistrationsAreOwned(w) && DisplacedAreCancelled(w) && GenerationsAreUnique(w)
    requires session !in w.active && w.nextGeneration < U64_MAX
    ensures var after := Enroll(w, session, token); RegistrationsAreOwned(after) && DisplacedAreCancelled(after)
  {
    var after := Enroll(w, session, token);
    assert PreviewGuard(session, after.nextGeneration) !in w.previews;
    hide GenerationsAreUnique;
    forall g | g in after.previews && !Registered(after, g) ensures after.previews[g] in after.cancelled {
      assert g in w.previews && !Registered(w, g);
    }
  }

  lemma RegisterKeeps(w: World, session: int, token: Token)
    requires Invariant(w)
    ensures Invariant(Register(w, session, token))
  {
    DisplaceKeeps(w, session);
    hide Invariant, Enroll;
    if !Barrier(w, session) && w.nextGeneration < U64_MAX {
      EnrollKeeps(Displace(w, session), session, token);
    }
  }

  lemma ReleaseKeeps(w: World, guard: PreviewGuard)
    requires Invariant(w) && guard in w.previews
    ensures Invariant(ReleasePreview(w, guard))
  {
    var after := ReleasePreview(w, guard);
    forall g | g in after.previews && !Registered(after, g) ensures after.previews[g] in after.cancelled {
      assert !Registered(w, g);
    }
  }

  lemma BarrierKeeps(w: World, session: int)
    requires Invariant(w)
    ensures Invariant(RaiseBarrier(w, session))
  {
  }

  lemma LowerKeeps(w: World, session: int)
    requires Invariant(w) && session in w.exacts
    ensures Invariant(LowerBarrier(w, session))
  {
  }

  lemma CancelKeeps(w: World, tokens: set<Token>)
    requires Invariant(w)
    ensures Invariant(w.(cancelled := w.cancelled + tokens))
  {
  }

  lemma ForgetKeeps(w: World, session: int)
    requires Invariant(w)
    ensures Invariant(ForgetSession(w, session))
  {
    DisplaceKeeps(w, session);
    hide Displace;
  }

  lemma StepKeepsInvariant(w: World, op: Op)
    requires Invariant(w)
    ensures Invariant(Step(w, op))
  {
    match op {
      case BeginPreview(session, token) => RegisterKeeps(w, session, token);
      case DropPreview(guard) => if guard in w.previews { ReleaseKeeps(w, guard); }
      case BeginExact(session) => BarrierKeeps(w, session);
      case DropExact(session) => if session in w.exacts { LowerKeeps(w, session); }
      case CancelPreview(session) => CancelKeeps(w, ActiveToken(w, session));
      case Forget(session) => ForgetKeeps(w, session);
      case CancelElsewhere(token) => CancelKeeps(w, {token});
    }
  }

  lemma {:induction false} ReachableInvariant(ops: seq<Op>)
    ensures Invariant(Run(ops))
  {
    if ops != [] {
      ReachableInvariant(ops[..|ops| - 1]);
      StepKeepsInvariant(Run(ops[..|ops| - 1]), ops[|ops| - 1]);
    }
  }

  /**
   * Priority, in every reachable state: behind a barrier every live preview of the session,
   * registered or not, is cancelled; without one at most one live preview per session is
   * uncancelled, and it is the registered one.
   */
  lemma ExactNavigationHasPriority(ops: seq<Op>, g: PreviewGuard, h: PreviewGuard)
    ensures var w := Run(ops);
      && (g in w.previews && Barrier(w, g.session) ==> w.previews[g] in w.cancelled)
      && (g in w.previews && w.previews[g] !in w.cancelled ==> Registered(w, g))
      && ((g in w.previews && h in w.previews && g.session == h.session
           && w.previews[g] !in w.cancelled && w.previews[h] !in w.cancelled) ==> g == h)
  {
    var w := Run(ops);
    ReachableInvariant(ops);
    if g in w.previews && Barrier(w, g.session) && Registered(w, g) {
      assert w.active[g.session].token in w.cancelled;
    }
  }

  /** No barrier is left behind: once no exact guard of a session lives, previews are admitted again. */
  lemma BarrierEndsWithItsGuards(ops: seq<Op>, session: int)
    ensures var w := Run(ops); Count(w, session) <= w.exacts[session]
    ensures var w := Run(ops); session !in w.exacts ==> !Barrier(w, session)
  {
    ReachableInvariant(ops);
  }

  /**
   * Dropping a guard removes at most the registration that guard was issued for. In particular,
   * dropping a guard displaced by a newer preview leaves the whole registry as it was.
   */
  lemma StaleDropIsHarmless(ops: seq<Op>, guard: PreviewGuard, session: int)
    requires guard in Run(ops).previews
    ensures var w := Run(ops); var after := Step(w, DropPreview(guard));
      && (session in w.active && w.active[session].generation != guard.generation ==>
            session in after.active && after.active[session] == w.active[session])
      && (session in w.active && session !in after.active ==>
            session == guard.session && w.previews[guard] == w.active[session].token)
      && (!Registered(w, guard) ==> after.active == w.active)
      && after.cancelled == w.cancelled && after.exactInFlight == w.exactInFlight
  {
    ReachableInvariant(ops);
  }

  /** Which steps cancel a token: those that displace, outrank, interrupt or forget the preview registered under it. */
  lemma CancelledIff(w: World, op: Op, token: Token)
    ensures token in Step(w, op).cancelled <==>
      || token in w.cancelled
      || (op.CancelElsewhere? && op.token == token)
      || (op.BeginPreview? && Count(w, op.session) == 0 && RegisteredUnder(w, op.session, token))
      || (op.BeginExact? && op.session > 0 && RegisteredUnder(w, op.session, token))
      || (op.CancelPreview? && op.session > 0 && RegisteredUnder(w, op.session, token))
      || (op.Forget? && RegisteredUnder(w, op.session, token))
  {
  }

  predicate RegisteredUnder(w: World, session: int, token: Token) {
    session in w.active && w.active[session].token == token
  }

  /** Interrupting a session's preview cancels it and does nothing else. */
  lemma InterruptCancels(w: World, session: int)
    ensures var after := Step(w, CancelPreview(session));
      && (session > 0 && session in w.active ==> w.active[session].token in after.cancelled)
      && (session <= 0 ==> after == w)
      && after == w.(cancelled := after.cancelled)
  {
  }

  /** Forgetting a session cancels and removes its preview and its barrier. */
  lemma ForgetClears(w: World, session: int)
    ensures var after := Step(w, Forget(session));
      && session !in after.active && Count(after, session) == 0
      && (session in w.active ==> w.active[session].token in after.cancelled)
      && after.previews == w.previews && after.exacts == w.exacts && after.nextGeneration == w.nextGeneration
  {
  }

  /** Exact navigation raises its session's barrier by one and lowers it by one again. */
  lemma BarrierRises(w: World, session: int)
    requires session > 0 && Count(w, session) < U32_MAX
    ensures var during := Step(w, BeginExact(session));
      && Count(during, session) == Count(w, session) + 1 && during.active == w.active
      && during.exacts == w.exacts + multiset{session}
      && Count(Step(during, DropExact(session)), session) == Count(w, session)
      && Step(during, DropExact(session)).exacts == w.exacts
  {
  }

  /** A step concerns one session; registrations and barriers of all others stay. */
  lemma OthersUntouched(w: World, op: Op, other: int)
    requires op.BeginPreview? || op.BeginExact? || op.DropExact? || op.CancelPreview? || op.Forget? ==>
      op.session != other
    requires op.DropPreview? ==> op.guard.session != other
    ensures var after := Step(w, op);
      && (other in after.active <==> other in w.active)
      && (other in w.active ==> after.active[other] == w.active[other])
      && Count(after, other) == Count(w, other)
  {
  }

  /** Dropping a live guard ends it, and its registration if it still has one. */
  lemma DropEndsGuard(w: World, guard: PreviewGuard)
    requires guard in w.previews
    ensures var after := Step(w, DropPreview(guard));
      guard !in after.previews && !Registered(after, guard) && after.previews == w.previews - {guard}
  {
  }

  /**
   * When a preview is admitted, and when it starts uncancelled. A reused decoder cursor hands its
   * own token to its successor, so a newcomer sharing the token of the operation it displaces is
   * admitted already cancelled.
   */
  lemma Admission(w: World, session: int, token: Token)
    requires Invariant(w)
    ensures var after := Step(w, BeginPreview(session, token));
      && (after.nextGeneration != w.nextGeneration <==> !Barrier(w, session) && w.nextGeneration < U64_MAX)
      && (after.nextGeneration != w.nextGeneration ==>
            var guard := PreviewGuard(session, after.nextGeneration);
            && guard !in w.previews && guard in after.previews && Registered(after, guard)
            && (after.previews[guard] !in after.cancelled <==>
                  token !in w.cancelled && token !in ActiveToken(w, session)))
  {
    hide RegistrationsAreOwned, DisplacedAreCancelled, BarrierCancels, CountsAreBacked;
    var after := Register(w, session, token);
    if after.nextGeneration != w.nextGeneration {
      assert after.previews == w.previews[PreviewGuard(session, after.nextGeneration) := token];
      assert after.cancelled == w.cancelled + ActiveToken(w, session);
    }
  }

  /** A step cancels only the registered preview of the session it names, and never by completion. */
  lemma NewlyCancelled(w: World, op: Op, token: Token)
    requires token in Step(w, op).cancelled && token !in w.cancelled
    ensures op == CancelElsewhere(token)
         || ((op.BeginPreview? || op.BeginExact? || op.CancelPreview? || op.Forget?)
             && op.session in w.active && token == w.active[op.session].token)
  {
  }

  // ---- When the count equals the number of live exact guards ----

  ghost predicate CountIsExact(w: World, session: int) {
    Count(w, session) == w.exacts[session]
  }

  /** The two steps that break the count: forgetting a session with a live guard, and saturation. */
  predicate BreaksCount(w: World, op: Op, session: int) {
    || (op == Forget(session) && session in w.exacts)
    || (op == BeginExact(session) && session > 0 && w.exacts[session] >= U32_MAX)
  }

  lemma RaisedCount(w: World, s: int, session: int)
    requires CountIsExact(w, session)
    ensures CountIsExact(RaiseBarrier(w, s), session) <==> !BreaksCount(w, BeginExact(s), session)
  {
    if s > 0 && s == session {
      assert RaiseBarrier(w, s).exacts[session] == w.exacts[session] + 1;
    }
  }

  lemma LoweredCount(w: World, s: int, session: int)
    requires CountIsExact(w, session) && s in w.exacts
    ensures CountIsExact(LowerBarrier(w, s), session)
  {
    var after := LowerBarrier(w, s);
    if s == session {
      assert after.exacts[session] == w.exacts[session] - 1;
    } else {
      assert after.exacts[session] == w.exacts[session];
      assert Count(after, session) == Count(w, session);
    }
  }

  lemma CountStaysExactIff(w: World, op: Op, session: int)
    requires Invariant(w) && CountIsExact(w, session)
    ensures CountIsExact(Step(w, op), session) <==> !BreaksCount(w, op, session)
  {
    hide Invariant, RaiseBarrier, LowerBarrier, ForgetSession, Register, ReleasePreview, Interrupt;
    match op {
      case BeginExact(s) => RaisedCount(w, s, session);
      case DropExact(s) => if s in w.exacts { LoweredCount(w, s, session); }
      case Forget(s) => ForgottenCount(w, s, session);
      case _ => CountUntouched(w, op);
    }
  }

  lemma CountUntouched(w: World, op: Op)
    requires op.BeginPreview? || op.DropPreview? || op.CancelPreview? || op.CancelElsewhere?
    ensures Step(w, op).exactInFlight == w.exactInFlight && Step(w, op).exacts == w.exacts
  {
  }

  lemma ForgottenCount(w: World, s: int, session: int)
    requires CountIsExact(w, session)
    ensures CountIsExact(ForgetSession(w, s), session) <==> !BreaksCount(w, Forget(s), session)
  {
  }

  /** No prefix of the run takes a step that breaks the count of `session`. */
  ghost predicate CountSafe(ops: seq<Op>, session: int) {
    forall i | 0 <= i < |ops| :: !BreaksCount(Run(ops[..i]), ops[i], session)
  }

  lemma {:induction false} CountIsLiveGuards(ops: seq<Op>, session: int)
    requires CountSafe(ops, session)
    ensures CountIsExact(Run(ops), session)
  {
    if ops != [] {
      var n := |ops| - 1;
      var before := ops[..n];
      CountSafePrefix(ops, n, session);
      CountIsLiveGuards(before, session);
      ReachableInvariant(before);
      assert !BreaksCount(Run(ops[..n]), ops[n], session);
      CountStaysExactIff(Run(before), ops[n], session);
    }
  }

  /** The count is the number of live guards now and was after every earlier step. */
  ghost predicate AlwaysExact(ops: seq<Op>, session: int) {
    forall i | 0 <= i <= |ops| :: CountIsExact(Run(ops[..i]), session)
  }

  /** Over a whole run the count is the number of live guards throughout, exactly when no step breaks it. */
  lemma CountIsLiveGuardsIff(ops: seq<Op>, session: int)
    ensures AlwaysExact(ops, session) <==> CountSafe(ops, session)
  {
    hide CountIsExact, BreaksCount, Run;
    if CountSafe(ops, session) {
      forall i | 0 <= i <= |ops|
        ensures CountIsExact(Run(ops[..i]), session)
      {
        CountSafePrefix(ops, i, session);
        CountIsLiveGuards(ops[..i], session);
      }
    }
    if AlwaysExact(ops, session) {
      forall i | 0 <= i < |ops|
        ensures !BreaksCount(Run(ops[..i]), ops[i], session)
      {
        assert CountIsExact(Run(ops[..i]), session) && CountIsExact(Run(ops[..i + 1]), session);
        RunUnfolds(ops[..i + 1]);
        assert ops[..i + 1][..i] == ops[..i];
        ReachableInvariant(ops[..i]);
        CountStaysExactIff(Run(ops[..i]), ops[i], session);
      }
    }
  }

  lemma CountSafePrefix(ops: seq<Op>, n: nat, session: int)
    requires CountSafe(ops, session) && n <= |ops|
    ensures CountSafe(ops[..n], session)
  {
    hide BreaksCount, Run;
    forall i | 0 <= i < n
      ensures !BreaksCount(Run(ops[..n][..i]), ops[..n][i], session)
    {
      assert ops[..n][..i] == ops[..i];
      assert !BreaksCount(Run(ops[..i]), ops[i], session);
    }
  }

  /**
   * Forgetting deletes the count under a live guard, and that guard's later drop then takes down
   * the barrier of a different live guard: a preview is admitted uncancelled beside live exact
   * navigation.
   */
  lemma ForgettingUnderALiveGuard(session: int, token: Token)
    requires session > 0
    ensures var w := Run([BeginExact(session), Forget(session), BeginExact(session), DropExact(session)]);
      var after := Step(w, BeginPreview(session, token));
      && session in w.exacts && !Barrier(w, session)
      && session in after.exacts
      && exists g | g in after.previews :: g.session == session && after.previews[g] !in after.cancelled
  {
    OrphanedBarrier(session);
    FourSteps(BeginExact(session), Forget(session), BeginExact(session), DropExact(session));
    hide Run;
    var w := Run([BeginExact(session), Forget(session), BeginExact(session), DropExact(session)]);
    var after := Step(w, BeginPreview(session, token));
    assert PreviewGuard(session, 1) in after.previews;
  }

  /** The four steps of that run, one world after another. */
  lemma OrphanedBarrier(session: int)
    requires session > 0
    ensures var w := Step(Step(Step(Step(INITIAL, BeginExact(session)), Forget(session)), BeginExact(session)),
                          DropExact(session));
      session in w.exacts && !Barrier(w, session) && w.active == map[] && w.cancelled == {} && w.nextGeneration == 0
  {
    var w1 := RaiseBarrier(INITIAL, session);
    assert w1 == INITIAL.(exactInFlight := map[session := 1], exacts := multiset{session});
    var w2 := ForgetSession(w1, session);
    assert w2 == INITIAL.(exacts := multiset{session});
    var w3 := RaiseBarrier(w2, session);
    assert w3 == INITIAL.(exactInFlight := map[session := 1], exacts := multiset{session, session});
    var w4 := LowerBarrier(w3, session);
    assert w4 == INITIAL.(exacts := multiset{session});
  }

  lemma FourSteps(a: Op, b: Op, c: Op, d: Op)
    ensures Run([a, b, c, d]) == Step(Step(Step(Step(INITIAL, a), b), c), d)
  {
    hide Step;
    assert [a, b, c, d][..3] == [a, b, c] && [a, b, c][..2] == [a, b] && [a, b][..1] == [a] && [a][..0] == [];
    RunUnfolds([a, b, c, d]);
    RunUnfolds([a, b, c]);
    RunUnfolds([a, b]);
    RunUnfolds([a]);
  }

  lemma RunUnfolds(ops: seq<Op>)
    requires ops != []
    ensures Run(ops) == Step(Run(ops[..|ops| - 1]), ops[|ops| - 1])
  {
  }

  // ---- The registry in place ----

  class PreviewCancellationRegistry {
    var nextGeneration: u64
    var active: map<int, Operation>
    var exactInFlight: map<int, nat>
    var cancelled: set<Token>
    ghost var previews: map<PreviewGuard, Token>
    ghost var exacts: multiset<int>

    ghost function State(): World
      reads this
    {
      World(nextGeneration, active, exactInFlight, cancelled, previews, exacts)
    }

    constructor ()
      ensures State() == INITIAL && Invariant(State())
    {
      nextGeneration, active, exactInFlight, cancelled := 0, map[], map[], {};
      previews, exacts := map[], multiset{};
    }

    method BeginPreviewOperation(session: int, token: Token) returns (r: Result<PreviewGuard, PreviewFailure>)
      requires Invariant(State())
      modifies this
      ensures Invariant(State())
      ensures token in old(cancelled) ==> r == Err(CursorCancelled) && State() == old(State())
      ensures token !in old(cancelled) ==> State() == Step(old(State()), BeginPreview(session, token))
      ensures r.Ok? ==> r.value !in old(previews) && r.value in previews && Registered(State(), r.value)
      ensures r == Err(Superseded) <==> token !in old(cancelled) && Barrier(old(State()), session)
      ensures r == Err(GenerationsExhausted) <==>
        token !in old(cancelled) && !Barrier(old(State()), session) && old(nextGeneration) == U64_MAX
    {
      if token in cancelled {
        return Err(CursorCancelled);
      }
      hide Invariant;
      ghost var before := State();
      StepKeepsInvariant(before, BeginPreview(session, token));
      Admission(before, session, token);
      if session in exactInFlight && exactInFlight[session] > 0 {
        return Err(Superseded);
      }
      if session in active {
        cancelled := cancelled + {active[session].token};
        active := active - {session};
      }
      assert State() == Displace(before, session);
      if nextGeneration == U64_MAX {
        return Err(GenerationsExhausted);
      }
      nextGeneration := nextGeneration + 1;
      active := active[session := Operation(nextGeneration, token)];
      var guard := PreviewGuard(session, nextGeneration);
      previews := previews[guard := token];
      return Ok(guard);
    }

    method DropPreviewGuard(guard: PreviewGuard)
      requires Invariant(State()) && guard in previews
      modifies this
      ensures Invariant(State())
      ensures State() == Step(old(State()), DropPreview(guard))
    {
      StepKeepsInvariant(State(), DropPreview(guard));
      if guard.session in active && active[guard.session].generation == guard.generation {
        active := active - {guard.session};
      }
      previews := previews - {guard};
    }

    method BeginExactNavigation(session: int) returns (guard: ExactGuard)
      requires Invariant(State())
      modifies this
      ensures Invariant(State())
      ensures State() == Step(old(State()), BeginExact(session))
      ensures guard == ExactGuard(session, session > 0)
      ensures session > 0 ==> Barrier(State(), session)
    {
      hide Invariant;
      ghost var before := State();
      StepKeepsInvariant(before, BeginExact(session));
      if session <= 0 {
        return ExactGuard(session, false);
      }
      var count := if session in exactInFlight then exactInFlight[session] else 0;
      exactInFlight := exactInFlight[session := Min(count + 1, U32_MAX)];
      if session in active {
        cancelled := cancelled + {active[session].token};
      }
      exacts := exacts + multiset{session};
      assert State() == RaiseBarrier(before, session);
      return ExactGuard(session, true);
    }

    method DropExactGuard(guard: ExactGuard)
      requires Invariant(State()) && (guard.registered ==> guard.session in exacts)
      modifies this
      ensures Invariant(State())
      ensures State() == if guard.registered then Step(old(State()), DropExact(guard.session)) else old(State())
    {
      hide Invariant;
      if !guard.registered {
        return;
      }
      ghost var before := State();
      StepKeepsInvariant(before, DropExact(guard.session));
      hide BarrierCancels, CountsAreBacked, Barrier;
      if guard.session in exactInFlight {
        if exactInFlight[guard.session] <= 1 {
          exactInFlight := exactInFlight - {guard.session};
        } else {
          exactInFlight := exactInFlight[guard.session := exactInFlight[guard.session] - 1];
        }
      }
      assert exactInFlight == LowerBarrier(before, guard.session).exactInFlight;
      exacts := exacts - multiset{guard.session};
    }

    method CancelSessionPreview(session: int) returns (found: bool)
      requires Invariant(State())
      modifies this
      ensures Invariant(State())
      ensures State() == Step(old(State()), CancelPreview(session))
      ensures found <==> session > 0 && session in active
    {
      hide Invariant;
      ghost var before := State();
      StepKeepsInvariant(before, CancelPreview(session));
      if session <= 0 || session !in active {
        assert State() == Interrupt(before, session);
        return false;
      }
      cancelled := cancelled + {active[session].token};
      return true;
    }

    method ForgetAfterClose(session: int)
      requires Invariant(State())
      modifies this
      ensures Invariant(State())
      ensures State() == Step(old(State()), Forget(session))
      ensures session !in active && session !in exactInFlight
    {
      hide Invariant;
      ghost var before := State();
      StepKeepsInvariant(before, Forget(session));
      if session in active {
        cancelled := cancelled + {active[session].token};
        active := active - {session};
      }
      assert State() == Displace(before, session);
      exactInFlight := exactInFlight - {session};
    }
  }
}
