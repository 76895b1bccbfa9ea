/** When a caller registered on one attempt can be handed the failure of another one. */
module MetadataHandover {
  import opened Wrappers
  import opened Words
  import opened MetadataCache
  import opened MetadataProtocol
  import opened MetadataTheorems

  /** `w` waits with a registration on attempt `k`. */
  predicate WaitsOn(s: State, w: Tid, k: nat) {
    w in s.pcs && s.pcs[w].Parked? && s.pcs[w].registration == Some(k)
  }

  /** `w`, still waiting on attempt `k`, finds another attempt's failure and takes it. */
  predicate Handed(s: State, w: Tid, k: nat) {
    && WaitsOn(s, w, k) && s.sh.phase.Failed? && s.sh.phase.attempt != k
    && var pc := Next(s, w, QUIET).pcs[w];
       pc == Returned(Cached(s.sh.phase.error)) || pc == Releasing(k, Cached(s.sh.phase.error))
  }

  ghost predicate CanBeHanded(s: State, w: Tid, k: nat) {
    exists schedule :: Handed(Exec(s, schedule), w, k)
  }

  predicate ContextBuilds(s: State) {
    exists b :: b in s.pcs && s.pcs[b].Scanning? && s.pcs[b].call.Context?
  }

  predicate SomebodyElse(s: State, w: Tid) {
    exists u :: u in s.pcs && u != w
  }

  /** Another attempt has failed, is being built, or may still be elected: from an absent attempt
      by any other thread, from a context builder on `k` after its transient end. */
  predicate AtRisk(s: State, w: Tid, k: nat) {
    match s.sh.phase
    case Ready(_) => false
    case Failed(attempt, _, _) => attempt != k
    case Building(attempt, _) => attempt != k || (ContextBuilds(s) && s.sh.nextAttempt < U64_MAX)
    case Absent => SomebodyElse(s, w) && s.sh.nextAttempt < U64_MAX
  }

  // ------------------------------------------------------------------ no risk, no handover

  /** The phase, and whether `w` is registered on `k`, rule out a handover for good. */
  ghost predicate Secure(s: State, w: Tid, k: nat) {
    match s.sh.phase
    case Ready(_) => true
    case Failed(attempt, _, _) => attempt == k || !(w in s.pcs && Live(s.pcs[w], k))
    case Building(attempt, _) =>
      if attempt == k then !ContextBuilds(s) || s.sh.nextAttempt >= U64_MAX
      else !(w in s.pcs && Live(s.pcs[w], k))
    case Absent =>
      s.sh.nextAttempt >= U64_MAX || s.pcs.Keys <= {w} || !(w in s.pcs && Live(s.pcs[w], k))
  }

  /** What a step does to the phase and to its own thread, as far as a handover is concerned. */
  lemma TurnAndAttempt(sh: Shared, pc: Pc, c: Choice, k: nat)
    requires TurnReady(sh, pc) && k < sh.nextAttempt
    ensures var (sh', pc') := Turn(sh, pc, c);
            && (sh.phase.Ready? ==> sh'.phase.Ready?)
            && (sh'.phase.Building? && !sh.phase.Building? ==>
                  sh.phase.Absent? && sh.nextAttempt < U64_MAX && pc'.Scanning? && sh'.phase.attempt != k)
            && (sh'.phase.Failed? ==> Attempting(sh.phase, sh'.phase.attempt))
            && (sh.phase.Building? && sh'.phase.Absent? ==> pc.Scanning? && pc.call.Context?)
            && (sh.phase.Failed? && sh'.phase.Absent? ==> sh.phase.pending == 0)
            && (Live(pc', k) ==> Live(pc, k) || Attempting(sh'.phase, k))
            && (sh.phase.Building? && sh'.phase.Building? ==> sh'.phase.attempt == sh.phase.attempt)
            && (sh.phase.Building? && pc'.Scanning? ==> pc == pc')
            && sh.nextAttempt <= sh'.nextAttempt
  {
  }

  /** A step of `t` as seen by the others: they are at most notified. */
  lemma OthersStay(s: State, t: Tid, c: Choice, u: Tid, k: nat)
    requires t in s.pcs && u in s.pcs && u != t
    ensures var pc := Next(s, t, c).pcs[u];
            && Live(pc, k) == Live(s.pcs[u], k)
            && (pc.Scanning? || s.pcs[u].Scanning? ==> pc == s.pcs[u])
  {
  }

  lemma BuildersStay(s: State, t: Tid, c: Choice)
    requires Inv(s) && t in s.pcs && s.sh.phase.Building? && ContextBuilds(Next(s, t, c))
    ensures ContextBuilds(s)
  {
    var b :| b in s.pcs && Next(s, t, c).pcs[b].Scanning? && Next(s, t, c).pcs[b].call.Context?;
    InvMakesReady(s, t);
    TurnAndAttempt(s.sh, s.pcs[t], c, 0);
    if b != t {
      OthersStay(s, t, c, b, 0);
    }
    assert s.pcs[b].Scanning? && s.pcs[b].call.Context?;
  }

  lemma SecureStays(s: State, w: Tid, k: nat, t: Tid, c: Choice)
    requires Inv(s) && k < s.sh.nextAttempt && Secure(s, w, k)
    ensures Secure(Next(s, t, c), w, k) && k < Next(s, t, c).sh.nextAttempt
  {
    if t in s.pcs {
      InvMakesReady(s, t);
      TurnAndAttempt(s.sh, s.pcs[t], c, k);
      if w in s.pcs && w != t {
        OthersStay(s, t, c, w, k);
      }
      if s.sh.phase.Failed? && w in s.pcs && Live(s.pcs[w], s.sh.phase.attempt) {
        assert w in LiveOn(s.pcs, s.sh.phase.attempt);
      }
      var s' := Next(s, t, c);
      if s.sh.phase.Building? {
        if ContextBuilds(s') {
          BuildersStay(s, t, c);
        }
        if s'.sh.phase.Absent? {
          assert ContextBuilds(s);
        }
      }
    }
  }

  lemma {:induction false} SecureRun(s: State, w: Tid, k: nat, schedule: Schedule)
    requires Inv(s) && k < s.sh.nextAttempt && Secure(s, w, k)
    ensures Secure(Exec(s, schedule), w, k)
    decreases |schedule|
  {
    if schedule == [] {
    } else {
      var (t, c) := schedule[0];
      InvPreserved(s, t, c);
      SecureStays(s, w, k, t, c);
      SecureRun(Next(s, t, c), w, k, schedule[1..]);
    }
  }

  lemma NoRiskIsSecure(s: State, w: Tid, k: nat)
    requires Inv(s) && WaitsOn(s, w, k) && !AtRisk(s, w, k)
    ensures Secure(s, w, k)
  {
    if s.sh.phase.Absent? && !SomebodyElse(s, w) {
      assert forall u | u in s.pcs :: u == w;
    }
  }

  // ------------------------------------------------------------------ a run that hands over

  lemma HandedNow(s: State, w: Tid, k: nat)
    requires Inv(s) && WaitsOn(s, w, k) && s.sh.phase.Failed? && s.sh.phase.attempt != k
    ensures Handed(s, w, k)
  {
    assert WellShaped(s.pcs[w]);
  }

  lemma HandedLater(s: State, w: Tid, k: nat, first: Schedule)
    requires CanBeHanded(Exec(s, first), w, k)
    ensures CanBeHanded(s, w, k)
  {
    var rest :| Handed(Exec(Exec(s, first), rest), w, k);
    ExecConcat(s, first, rest);
    assert Handed(Exec(s, first + rest), w, k);
  }

  lemma HandedAfterStep(s: State, w: Tid, k: nat, t: Tid, c: Choice)
    requires CanBeHanded(Next(s, t, c), w, k)
    ensures CanBeHanded(s, w, k)
  {
    assert [(t, c)][1..] == [];
    assert Exec(s, [(t, c)]) == Exec(Next(s, t, c), []);
    HandedLater(s, w, k, [(t, c)]);
  }

  /** A builder of another attempt fails. */
  lemma HandedByBuilder(s: State, w: Tid, k: nat)
    requires Inv(s) && WaitsOn(s, w, k) && s.sh.phase.Building? && s.sh.phase.attempt != k
    ensures CanBeHanded(s, w, k)
  {
    var b :| b in s.pcs && s.pcs[b].Scanning?;
    var s' := Next(s, b, QUIET);
    InvPreserved(s, b, QUIET);
    HandedNow(s', w, k);
    assert Handed(Exec(s', []), w, k);
    HandedAfterStep(s, w, k, b, QUIET);
  }

  /** How far a thread is from electing itself while no attempt is running. */
  function StepsToElect(pc: Pc): nat {
    match pc
    case Entering(call) => if call.Retry? then 2 else 1
    case Parked(call, _, _) => if call.Retry? then 2 else 1
    case Idle => 2
    case Returned(_) => 2
    case _ => 3
  }

  lemma TurnTowardsElection(sh: Shared, pc: Pc)
    requires sh.phase.Absent? && sh.nextAttempt < U64_MAX && WellShaped(pc) && !pc.Scanning?
    ensures var (sh', pc') := Turn(sh, pc, QUIET);
            if StepsToElect(pc) == 1 then sh'.phase == Building(sh.nextAttempt, 0)
            else sh' == sh && WellShaped(pc') && !pc'.Scanning? && StepsToElect(pc') < StepsToElect(pc)
  {
  }

  /** Any other thread can elect itself to a new attempt, and then its attempt fails. */
  lemma {:induction false} HandedByElection(s: State, w: Tid, k: nat, u: Tid)
    requires Inv(s) && WaitsOn(s, w, k) && s.sh.phase.Absent? && s.sh.nextAttempt < U64_MAX
    requires u in s.pcs && u != w && !s.pcs[u].Scanning?
    ensures CanBeHanded(s, w, k)
    decreases StepsToElect(s.pcs[u])
  {
    assert Below(s.pcs[w], s.sh.nextAttempt) && WellShaped(s.pcs[u]);
    var s' := Next(s, u, QUIET);
    InvPreserved(s, u, QUIET);
    TurnTowardsElection(s.sh, s.pcs[u]);
    if StepsToElect(s.pcs[u]) == 1 {
      HandedByBuilder(s', w, k);
    } else {
      HandedByElection(s', w, k, u);
    }
    HandedAfterStep(s, w, k, u, QUIET);
  }

  /** A context builder on `k` ends transiently and elects itself anew. */
  lemma HandedAfterTransientEnd(s: State, w: Tid, k: nat)
    requires Inv(s) && WaitsOn(s, w, k) && s.sh.phase.Building? && s.sh.phase.attempt == k
    requires ContextBuilds(s) && s.sh.nextAttempt < U64_MAX
    ensures CanBeHanded(s, w, k)
  {
    var b :| b in s.pcs && s.pcs[b].Scanning? && s.pcs[b].call.Context?;
    var c := Choice(Context, false, Transient);
    var s' := Next(s, b, c);
    InvPreserved(s, b, c);
    HandedByElection(s', w, k, b);
    HandedAfterStep(s, w, k, b, c);
  }

  /** In any reachable state, a caller that waits on attempt `k` can still be handed the failure of
      another attempt exactly when another attempt has failed or is being built, or a new one can
      be elected: by another thread while there is none, or after the transient end of a context
      builder on `k`. While a plain builder runs, and once `k` itself has failed, it cannot. */
  lemma HandedOverExactly(s: State, w: Tid, k: nat)
    requires Inv(s) && WaitsOn(s, w, k)
    ensures CanBeHanded(s, w, k) <==> AtRisk(s, w, k)
  {
    if AtRisk(s, w, k) {
      match s.sh.phase
      case Failed(_, _, _) =>
        HandedNow(s, w, k);
        assert Handed(Exec(s, []), w, k);
      case Building(attempt, _) =>
        if attempt != k {
          HandedByBuilder(s, w, k);
        } else {
          HandedAfterTransientEnd(s, w, k);
        }
      case Absent =>
        var u :| u in s.pcs && u != w;
        assert !s.pcs[u].Scanning?;
        HandedByElection(s, w, k, u);
    } else {
      NoRiskIsSecure(s, w, k);
      assert Below(s.pcs[w], s.sh.nextAttempt);
      forall schedule ensures !Handed(Exec(s, schedule), w, k) {
        SecureRun(s, w, k, schedule);
      }
    }
  }
}
