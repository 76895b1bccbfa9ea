/** Any number of threads calling one metadata cache: every locked section, registration drop
    and notification of src/opened/mod.rs is one atomic step of one thread. */
module MetadataProtocol {
  import opened Wrappers
  import opened Words
  import opened MetadataCache

  type Tid = nat

  /** Where a thread is, between two of its steps. A `Parked` thread may wake spuriously;
      `notified` records that a `notify_all` has reached it. `Releasing` owes the drop of its
      registration, `Announcing` owes a `notify_all`. */
  datatype Pc =
    | Idle
    | Entering(call: Call)
    | Parked(call: Call, registration: Option<nat>, notified: bool)
    | Releasing(attempt: nat, outcome: Outcome)
    | Scanning(call: Call, attempt: nat)
    | Announcing(outcome: Outcome, checks: bool)
    | Returned(outcome: Outcome)
    | AttemptPanic

  /** What the environment decides at a step: the call a free thread makes, whether a policy
      check fails, and how a builder closure ends. */
  datatype Choice = Choice(call: Call, policyFails: bool, end: BuildEnd)

  datatype State = State(sh: Shared, pcs: map<Tid, Pc>)

  type Schedule = seq<(Tid, Choice)>

  function Init(threads: set<Tid>): (s: State)
    ensures s.pcs.Keys == threads
  {
    State(Shared(1, Absent), map t | t in threads :: Idle)
  }

  /** The policy check that follows an acknowledgement or a publication. */
  function Finish(outcome: Outcome, checks: bool, policyFails: bool): Outcome {
    if checks && policyFails && (outcome.Success? || outcome.Cached?) then Uncached else outcome
  }

  function Settle(call: Call, verdict: Verdict): Pc {
    match verdict
    case Leave(outcome) => Returned(outcome)
    case Release(attempt, outcome) => Releasing(attempt, outcome)
    case Park(registration) => Parked(call, registration, false)
    case Elected(attempt) => Scanning(call, attempt)
    case Announce(outcome) => Announcing(outcome, call.Context?)
    case ReenterPlain => Entering(Plain)
    case AttemptChanged => AttemptPanic
  }

  function LockedTurn(sh: Shared, call: Call, registration: Option<nat>, policyFails: bool): (Shared, Verdict) {
    match call
    case Plain => PlainPass(sh, registration)
    case Context => ContextPass(sh, registration, policyFails)
    case Retry => RetryPass(sh)
  }

  function NotifyAll(pcs: map<Tid, Pc>): map<Tid, Pc> {
    map t | t in pcs :: if pcs[t].Parked? then pcs[t].(notified := true) else pcs[t]
  }

  function Start(c: Choice): Pc {
    if c.call.Context? && c.policyFails then Returned(Uncached) else Entering(c.call)
  }

  /** One step of a thread at `pc`; a thread that has nothing to do stutters. */
  function Turn(sh: Shared, pc: Pc, c: Choice): (Shared, Pc) {
    match pc
    case Idle => (sh, Start(c))
    case Returned(_) => (sh, Start(c))
    case Entering(call) =>
      var (sh', verdict) := LockedTurn(sh, call, None, c.policyFails);
      (sh', Settle(call, verdict))
    case Parked(call, registration, _) =>
      var (sh', verdict) := LockedTurn(sh, call, registration, c.policyFails);
      (sh', Settle(call, verdict))
    case Releasing(attempt, outcome) =>
      var (sh', notify) := DropPass(sh, attempt);
      (sh', if notify then Announcing(outcome, true) else Returned(Finish(outcome, true, c.policyFails)))
    case Scanning(call, attempt) =>
      // A plain closure has no transient errors.
      if call.Plain? && c.end.Transient? then (sh, pc)
      else
        var (sh', verdict) := PublishPass(sh, attempt, c.end);
        (sh', Settle(call, verdict))
    case Announcing(outcome, checks) => (sh, Returned(Finish(outcome, checks, c.policyFails)))
    case AttemptPanic => (sh, pc)
  }

  function Delivered(pcs: map<Tid, Pc>, pc: Pc): map<Tid, Pc> {
    if pc.Announcing? then NotifyAll(pcs) else pcs
  }

  /** Thread `t` takes a step; the step that ends `Announcing` is the `notify_all`. */
  function Next(s: State, t: Tid, c: Choice): (s': State)
    ensures s'.pcs.Keys == s.pcs.Keys
  {
    if t !in s.pcs then s
    else
      var (sh, pc) := Turn(s.sh, s.pcs[t], c);
      State(sh, Delivered(s.pcs, s.pcs[t])[t := pc])
  }

  function Exec(s: State, schedule: Schedule): (s': State)
    ensures s'.pcs.Keys == s.pcs.Keys
    decreases |schedule|
  {
    if schedule == [] then s else Exec(Next(s, schedule[0].0, schedule[0].1), schedule[1..])
  }

  // ------------------------------------------------------------------ the invariant

  /** The thread holds a registration on `attempt` that it has not given back. */
  predicate Live(pc: Pc, attempt: nat) {
    match pc
    case Parked(_, registration, _) => registration == Some(attempt)
    case Releasing(registered, _) => registered == attempt
    case _ => false
  }

  function LiveOn(pcs: map<Tid, Pc>, attempt: nat): set<Tid> {
    set t | t in pcs && Live(pcs[t], attempt)
  }

  predicate Below(pc: Pc, bound: nat) {
    match pc
    case Parked(_, registration, _) => registration.Some? ==> registration.value < bound
    case Releasing(attempt, _) => attempt < bound
    case Scanning(_, attempt) => attempt < bound
    case _ => true
  }

  predicate WellShaped(pc: Pc) {
    match pc
    case Parked(call, registration, _) => call.Retry? <==> registration.None?
    case Releasing(_, outcome) => outcome.Cached? || outcome.Uncached?
    case Scanning(call, _) => !call.Retry?
    case AttemptPanic => false
    case _ => true
  }

  ghost predicate AttemptsOrdered(s: State) {
    && 1 <= s.sh.nextAttempt <= U64_MAX
    && (s.sh.phase.Building? || s.sh.phase.Failed? ==> s.sh.phase.attempt < s.sh.nextAttempt)
    && (forall t | t in s.pcs :: Below(s.pcs[t], s.sh.nextAttempt) && WellShaped(s.pcs[t]))
  }

  ghost predicate SingleFlight(s: State) {
    && (forall t | t in s.pcs && s.pcs[t].Scanning? ::
          s.sh.phase.Building? && s.sh.phase.attempt == s.pcs[t].attempt)
    && (forall t, u | t in s.pcs && u in s.pcs && s.pcs[t].Scanning? && s.pcs[u].Scanning? :: t == u)
    && (s.sh.phase.Building? ==> exists t :: t in s.pcs && s.pcs[t].Scanning?)
  }

  ghost predicate WaitersCounted(s: State) {
    match s.sh.phase
    case Building(attempt, waiters) => waiters == |LiveOn(s.pcs, attempt)|
    case Failed(attempt, _, pending) => pending == |LiveOn(s.pcs, attempt)|
    case _ => true
  }

  ghost predicate ValuesAgree(s: State) {
    forall t | t in s.pcs ::
      && (s.pcs[t].Returned? || s.pcs[t].Announcing? ==>
            s.pcs[t].outcome.Success? ==> s.sh.phase == Ready(s.pcs[t].outcome.meta))
      && (s.pcs[t].Releasing? && s.pcs[t].outcome.Cached? ==>
            && !(s.sh.phase.Building? && s.sh.phase.attempt == s.pcs[t].attempt)
            && (s.sh.phase.Failed? && s.sh.phase.attempt == s.pcs[t].attempt ==>
                  s.sh.phase.error == s.pcs[t].outcome.error))
  }

  ghost predicate NotifyOwed(pcs: map<Tid, Pc>) {
    exists u :: u in pcs && pcs[u].Announcing?
  }

  ghost predicate NobodyForgotten(s: State) {
    forall t | t in s.pcs && s.pcs[t].Parked? && !s.pcs[t].notified ::
      || s.sh.phase.Building?
      || (s.pcs[t].call.Retry? && s.sh.phase.Failed? && s.sh.phase.pending > 0)
      || NotifyOwed(s.pcs)
  }

  ghost predicate Inv(s: State) {
    && AttemptsOrdered(s)
    && SingleFlight(s)
    && WaitersCounted(s)
    && ValuesAgree(s)
    && NobodyForgotten(s)
  }

  // ------------------------------------------------------------------ preservation

  lemma LiveUpdate(pcs: map<Tid, Pc>, t: Tid, pc: Pc, attempt: nat)
    requires t in pcs
    ensures LiveOn(pcs[t := pc], attempt) ==
            LiveOn(pcs, attempt) - {t} + (if Live(pc, attempt) then {t} else {})
    ensures |LiveOn(pcs[t := pc], attempt)| ==
            |LiveOn(pcs, attempt)| - (if Live(pcs[t], attempt) then 1 else 0) + (if Live(pc, attempt) then 1 else 0)
  {
    var before, after := LiveOn(pcs, attempt), LiveOn(pcs[t := pc], attempt);
    assert after == before - {t} + (if Live(pc, attempt) then {t} else {});
    assert t in before <==> Live(pcs[t], attempt);
    if t in before {
      assert before == before - {t} + {t};
    } else {
      assert before == before - {t};
    }
  }

  lemma NotifyKeepsLive(pcs: map<Tid, Pc>, attempt: nat)
    ensures LiveOn(NotifyAll(pcs), attempt) == LiveOn(pcs, attempt)
  {
  }

  lemma FreshAttemptHasNoWaiters(s: State, attempt: nat)
    requires AttemptsOrdered(s) && s.sh.nextAttempt <= attempt
    ensures LiveOn(s.pcs, attempt) == {}
  {
    forall t | t in s.pcs ensures !Live(s.pcs[t], attempt) {
      assert Below(s.pcs[t], s.sh.nextAttempt);
    }
  }

  ghost predicate TurnOrders(sh: Shared, pc: Pc, sh': Shared, pc': Pc) {
    && sh.nextAttempt <= sh'.nextAttempt <= U64_MAX
    && Below(pc', sh'.nextAttempt) && WellShaped(pc')
    && (sh'.phase.Building? || sh'.phase.Failed? ==> sh'.phase.attempt < sh'.nextAttempt)
  }

  ghost predicate TurnElects(sh: Shared, pc: Pc, sh': Shared, pc': Pc) {
    && (pc'.Scanning? ==> sh'.phase.Building? && sh'.phase.attempt == pc'.attempt)
    && (sh.phase.Building? && sh'.phase.Building? ==>
          sh'.phase.attempt == sh.phase.attempt && (pc.Scanning? <==> pc'.Scanning?))
    && (sh.phase.Building? && !sh'.phase.Building? ==> pc.Scanning? && !pc'.Scanning?)
    && (!sh.phase.Building? && sh'.phase.Building? ==> pc'.Scanning? && sh'.phase.attempt == sh.nextAttempt)
    && (!sh.phase.Building? && !sh'.phase.Building? ==> !pc'.Scanning?)
  }

  function Count(phase: Phase): nat {
    match phase
    case Building(_, waiters) => waiters
    case Failed(_, _, pending) => pending
    case _ => 0
  }

  predicate Attempting(phase: Phase, attempt: nat) {
    (phase.Building? || phase.Failed?) && phase.attempt == attempt
  }

  ghost predicate TurnCounts(sh: Shared, pc: Pc, sh': Shared, pc': Pc) {
    forall attempt | Attempting(sh'.phase, attempt) ::
      if Attempting(sh.phase, attempt) then
        Count(sh'.phase) == Count(sh.phase) - (if Live(pc, attempt) then 1 else 0)
            + (if Live(pc', attempt) then 1 else 0)
      else
        attempt == sh.nextAttempt && Count(sh'.phase) == 0 && !Live(pc', attempt)
  }

  ghost predicate TurnPublishes(sh: Shared, pc: Pc, sh': Shared, pc': Pc) {
    && (sh.phase.Ready? ==> sh'.phase == sh.phase)
    && (pc'.Returned? || pc'.Announcing? ==> pc'.outcome.Success? ==> sh'.phase == Ready(pc'.outcome.meta))
    && (pc'.Releasing? && pc'.outcome.Cached? ==>
          sh'.phase.Failed? && pc'.outcome.error == sh'.phase.error)
    && (sh'.phase.Failed? && !sh.phase.Building? ==>
          Attempting(sh.phase, sh'.phase.attempt) && sh.phase.error == sh'.phase.error)
    && (sh'.phase.Failed? && sh.phase.Building? ==> sh.phase.attempt == sh'.phase.attempt)
  }

  ghost predicate TurnWakes(sh: Shared, pc: Pc, sh': Shared, pc': Pc) {
    && (pc'.Parked? && !pc'.notified ==>
          sh'.phase.Building? || (pc'.call.Retry? && sh'.phase.Failed? && sh'.phase.pending > 0))
    && (sh.phase.Building? && !sh'.phase.Building? ==> pc'.Announcing?)
    && (sh.phase.Failed? && sh.phase.pending > 0 && !(sh'.phase.Failed? && sh'.phase.pending > 0) ==> pc'.Announcing?)
  }

  /** What a step does to the shared record and to its own thread, without the other threads. */
  ghost predicate TurnFacts(sh: Shared, pc: Pc, sh': Shared, pc': Pc) {
    && TurnOrders(sh, pc, sh', pc')
    && TurnElects(sh, pc, sh', pc')
    && TurnCounts(sh, pc, sh', pc')
    && TurnPublishes(sh, pc, sh', pc')
    && TurnWakes(sh, pc, sh', pc')
  }

  /** What the invariant tells a single thread about the shared record. */
  ghost predicate TurnReady(sh: Shared, pc: Pc) {
    && 1 <= sh.nextAttempt <= U64_MAX && Below(pc, sh.nextAttempt) && WellShaped(pc)
    && (sh.phase.Building? || sh.phase.Failed? ==> sh.phase.attempt < sh.nextAttempt)
    && (pc.Scanning? ==> sh.phase.Building? && sh.phase.attempt == pc.attempt)
    && (sh.phase.Building? && Live(pc, sh.phase.attempt) ==> sh.phase.waiters > 0)
    && (sh.phase.Failed? && Live(pc, sh.phase.attempt) ==> sh.phase.pending > 0)
    && (pc.Announcing? && pc.outcome.Success? ==> sh.phase == Ready(pc.outcome.meta))
  }

  lemma PlainTurnFacts(sh: Shared, pc: Pc, registration: Option<nat>, c: Choice)
    requires TurnReady(sh, pc)
    requires (pc == Entering(Plain) && registration == None)
             || (pc.Parked? && pc.call == Plain && pc.registration == registration)
    ensures var (sh', verdict) := PlainPass(sh, registration); TurnFacts(sh, pc, sh', Settle(Plain, verdict))
  {
  }

  lemma ContextTurnFacts(sh: Shared, pc: Pc, registration: Option<nat>, c: Choice)
    requires TurnReady(sh, pc)
    requires (pc == Entering(Context) && registration == None)
             || (pc.Parked? && pc.call == Context && pc.registration == registration)
    ensures var (sh', verdict) := ContextPass(sh, registration, c.policyFails);
            TurnFacts(sh, pc, sh', Settle(Context, verdict))
  {
  }

  lemma RetryTurnFacts(sh: Shared, pc: Pc)
    requires TurnReady(sh, pc)
    requires pc == Entering(Retry) || (pc.Parked? && pc.call == Retry)
    ensures var (sh', verdict) := RetryPass(sh); TurnFacts(sh, pc, sh', Settle(Retry, verdict))
  {
  }

  lemma DropFacts(sh: Shared, pc: Pc, c: Choice)
    requires TurnReady(sh, pc) && pc.Releasing?
    ensures var (sh', pc') := Turn(sh, pc, c); TurnFacts(sh, pc, sh', pc')
  {
  }

  lemma PublishFacts(sh: Shared, pc: Pc, c: Choice)
    requires TurnReady(sh, pc) && pc.Scanning?
    ensures var (sh', pc') := Turn(sh, pc, c); TurnFacts(sh, pc, sh', pc')
  {
  }

  lemma TurnIsLocal(sh: Shared, pc: Pc, c: Choice)
    requires TurnReady(sh, pc)
    ensures var (sh', pc') := Turn(sh, pc, c); TurnFacts(sh, pc, sh', pc')
  {
    match pc
    case Entering(call) =>
      match call {
        case Plain => PlainTurnFacts(sh, pc, None, c);
        case Context => ContextTurnFacts(sh, pc, None, c);
        case Retry => RetryTurnFacts(sh, pc);
      }
    case Parked(call, registration, _) =>
      match call {
        case Plain => PlainTurnFacts(sh, pc, registration, c);
        case Context => ContextTurnFacts(sh, pc, registration, c);
        case Retry => RetryTurnFacts(sh, pc);
      }
    case Releasing(_, _) => DropFacts(sh, pc, c);
    case Scanning(_, _) => PublishFacts(sh, pc, c);
    case _ =>
  }

  // ------------------------------------------------------------------ every step keeps the invariant

  function After(s: State, t: Tid, sh': Shared, pc': Pc): State
    requires t in s.pcs
  {
    State(sh', Delivered(s.pcs, s.pcs[t])[t := pc'])
  }

  lemma LiveAfter(s: State, t: Tid, sh': Shared, pc': Pc, attempt: nat)
    requires t in s.pcs
    ensures |LiveOn(After(s, t, sh', pc').pcs, attempt)| ==
            |LiveOn(s.pcs, attempt)| - (if Live(s.pcs[t], attempt) then 1 else 0)
                + (if Live(pc', attempt) then 1 else 0)
  {
    NotifyKeepsLive(s.pcs, attempt);
    LiveUpdate(Delivered(s.pcs, s.pcs[t]), t, pc', attempt);
  }

  lemma InvMakesReady(s: State, t: Tid)
    requires Inv(s) && t in s.pcs
    ensures TurnReady(s.sh, s.pcs[t])
  {
    var phase := s.sh.phase;
    if (phase.Building? || phase.Failed?) && Live(s.pcs[t], phase.attempt) {
      assert t in LiveOn(s.pcs, phase.attempt);
    }
  }

  lemma KeepsAttemptsOrdered(s: State, t: Tid, sh': Shared, pc': Pc)
    requires Inv(s) && t in s.pcs && TurnOrders(s.sh, s.pcs[t], sh', pc')
    ensures AttemptsOrdered(After(s, t, sh', pc'))
  {
  }

  lemma KeepsSingleFlight(s: State, t: Tid, sh': Shared, pc': Pc)
    requires Inv(s) && t in s.pcs && TurnElects(s.sh, s.pcs[t], sh', pc')
    ensures SingleFlight(After(s, t, sh', pc'))
  {
    var s' := After(s, t, sh', pc');
    if sh'.phase.Building? {
      if s.sh.phase.Building? {
        var u :| u in s.pcs && s.pcs[u].Scanning?;
        assert u in s'.pcs && s'.pcs[u].Scanning?;
      } else {
        assert t in s'.pcs && s'.pcs[t].Scanning?;
      }
    }
  }

  lemma KeepsWaitersCounted(s: State, t: Tid, sh': Shared, pc': Pc)
    requires Inv(s) && t in s.pcs && TurnCounts(s.sh, s.pcs[t], sh', pc')
    ensures WaitersCounted(After(s, t, sh', pc'))
  {
    if sh'.phase.Building? || sh'.phase.Failed? {
      var attempt := sh'.phase.attempt;
      assert Attempting(sh'.phase, attempt);
      LiveAfter(s, t, sh', pc', attempt);
      if !Attempting(s.sh.phase, attempt) {
        FreshAttemptHasNoWaiters(s, attempt);
        assert t !in LiveOn(s.pcs, attempt);
      }
    }
  }

  lemma KeepsValuesAgree(s: State, t: Tid, sh': Shared, pc': Pc)
    requires Inv(s) && t in s.pcs
    requires TurnPublishes(s.sh, s.pcs[t], sh', pc') && TurnElects(s.sh, s.pcs[t], sh', pc')
    ensures ValuesAgree(After(s, t, sh', pc'))
  {
    var s' := After(s, t, sh', pc');
    forall u | u in s'.pcs && u != t && s'.pcs[u].Releasing? && s'.pcs[u].outcome.Cached?
      ensures !(sh'.phase.Building? && sh'.phase.attempt == s'.pcs[u].attempt)
      ensures sh'.phase.Failed? && sh'.phase.attempt == s'.pcs[u].attempt ==> sh'.phase.error == s'.pcs[u].outcome.error
    {
      assert s'.pcs[u] == s.pcs[u];
      assert Below(s.pcs[u], s.sh.nextAttempt);
    }
  }

  lemma KeepsNobodyForgotten(s: State, t: Tid, sh': Shared, pc': Pc)
    requires Inv(s) && t in s.pcs && TurnWakes(s.sh, s.pcs[t], sh', pc')
    ensures NobodyForgotten(After(s, t, sh', pc'))
  {
    var s' := After(s, t, sh', pc');
    if pc'.Announcing? {
      assert t in s'.pcs && s'.pcs[t].Announcing?;
    } else if NotifyOwed(s.pcs) && !s.pcs[t].Announcing? {
      var u :| u in s.pcs && s.pcs[u].Announcing?;
      assert u in s'.pcs && s'.pcs[u].Announcing?;
    }
  }

  lemma InvPreserved(s: State, t: Tid, c: Choice)
    requires Inv(s)
    ensures Inv(Next(s, t, c))
  {
    if t in s.pcs {
      InvMakesReady(s, t);
      TurnIsLocal(s.sh, s.pcs[t], c);
      var (sh', pc') := Turn(s.sh, s.pcs[t], c);
      KeepsAttemptsOrdered(s, t, sh', pc');
      KeepsSingleFlight(s, t, sh', pc');
      KeepsWaitersCounted(s, t, sh', pc');
      KeepsValuesAgree(s, t, sh', pc');
      KeepsNobodyForgotten(s, t, sh', pc');
    }
  }
}
