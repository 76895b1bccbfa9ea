/** Where every answer of the cache comes from: nothing is published that no builder produced, and
    nothing is returned that was not published, refused by the caller's own policy, or exhausted. */
module MetadataOrigins {
  import opened Wrappers
  import opened Words
  import opened MetadataCache
  import opened MetadataProtocol
  import opened MetadataTheorems

  // ------------------------------------------------------------------ what explains an outcome

  /** At step `n` of the run, thread `t` is the builder of attempt `k` and its closure ends with
      `end`. */
  predicate EndsAt(s: State, run: Schedule, n: nat, t: Tid, k: nat, end: BuildEnd) {
    && n < |run| && run[n].0 == t && run[n].1.end == end
    && var before := Exec(s, run[..n]);
       t in before.pcs && before.pcs[t].Scanning? && before.pcs[t].attempt == k
       && !(before.pcs[t].call.Plain? && end.Transient?)
  }

  /** A turn of a thread that consults the policy of its call. */
  predicate UnderPolicy(pc: Pc, c: Choice) {
    match pc
    case Idle => c.call.Context?
    case Returned(_) => c.call.Context?
    case Entering(call) => call.Context?
    case Parked(call, _, _) => call.Context?
    case Releasing(_, _) => true
    case Announcing(_, checks) => checks
    case _ => false
  }

  /** At step `n` of the run, a policy check of thread `t` fails. */
  predicate FailsPolicyAt(s: State, run: Schedule, n: nat, t: Tid) {
    && n < |run| && run[n].0 == t && run[n].1.policyFails
    && var before := Exec(s, run[..n]);
       t in before.pcs && UnderPolicy(before.pcs[t], run[n].1)
  }

  ghost predicate Ended(s: State, run: Schedule, k: nat, end: BuildEnd) {
    exists n: nat, t: Tid :: EndsAt(s, run, n, t, k, end)
  }

  /** The builder of `k` failed with `e`, or panicked. */
  ghost predicate EndedFailing(s: State, run: Schedule, k: nat, e: CachedError) {
    Ended(s, run, k, Cacheable(e)) || (e == BuilderPanicked && Ended(s, run, k, Panics))
  }

  ghost predicate WasBuilt(s: State, run: Schedule, m: VcdMeta) {
    exists k: nat :: Ended(s, run, k, Built(m))
  }

  /** What must have happened in a run for thread `t` to come to an outcome. */
  ghost predicate Explained(s: State, run: Schedule, t: Tid, outcome: Outcome) {
    match outcome
    case Success(m) => WasBuilt(s, run, m)
    case Cached(e) => exists k: nat :: EndedFailing(s, run, k, e)
    case Uncached =>
      (exists n: nat :: FailsPolicyAt(s, run, n, t)) || exists n: nat, k: nat :: EndsAt(s, run, n, t, k, Transient)
    case AttemptsExhausted => Exec(s, run).sh.nextAttempt >= U64_MAX
    case Unwound => exists n: nat, k: nat :: EndsAt(s, run, n, t, k, Panics)
  }

  predicate HasOutcome(pc: Pc) {
    pc.Releasing? || pc.Announcing? || pc.Returned?
  }

  ghost predicate PhaseExplained(s: State, run: Schedule) {
    var phase := Exec(s, run).sh.phase;
    && (phase.Ready? ==> WasBuilt(s, run, phase.meta))
    && (phase.Failed? ==> EndedFailing(s, run, phase.attempt, phase.error))
  }

  ghost predicate OutcomesExplained(s: State, run: Schedule) {
    var last := Exec(s, run);
    forall t | t in last.pcs && HasOutcome(last.pcs[t]) :: Explained(s, run, t, last.pcs[t].outcome)
  }

  // ------------------------------------------------------------------ one step

  /** What a step publishes or decides, it finds in the cache or in its own choice. */
  lemma TurnOrigin(sh: Shared, pc: Pc, c: Choice)
    requires TurnReady(sh, pc)
    ensures var (sh', pc') := Turn(sh, pc, c);
            && (sh'.phase.Ready? ==> sh.phase == sh'.phase || (pc.Scanning? && c.end == Built(sh'.phase.meta)))
            && (sh'.phase.Failed? ==>
                  || (sh.phase.Failed? && sh.phase.attempt == sh'.phase.attempt && sh.phase.error == sh'.phase.error)
                  || (pc.Scanning? && pc.attempt == sh'.phase.attempt
                      && (c.end == Cacheable(sh'.phase.error)
                          || (c.end == Panics && sh'.phase.error == BuilderPanicked))))
  {
  }

  predicate Decides(sh': Shared, pc: Pc, c: Choice, outcome: Outcome) {
    match outcome
    case Success(m) => sh'.phase == Ready(m)
    case Cached(e) => sh'.phase.Failed? && sh'.phase.error == e
    case Uncached => (c.policyFails && UnderPolicy(pc, c)) || (pc.Scanning? && pc.call.Context? && c.end.Transient?)
    case AttemptsExhausted => sh'.nextAttempt >= U64_MAX
    case Unwound => pc.Scanning? && c.end.Panics?
  }

  lemma TurnDecides(sh: Shared, pc: Pc, c: Choice)
    requires TurnReady(sh, pc)
    ensures var (sh', pc') := Turn(sh, pc, c);
            HasOutcome(pc') ==>
              || (HasOutcome(pc) && pc'.outcome == pc.outcome)
              || Decides(sh', pc, c, pc'.outcome)
  {
  }

  lemma PrefixOfLonger(s: State, run: Schedule, t: Tid, c: Choice, n: nat)
    requires n <= |run|
    ensures (run + [(t, c)])[..n] == run[..n]
  {
  }

  lemma EndsLater(s: State, run: Schedule, step: (Tid, Choice), n: nat, t: Tid, k: nat, end: BuildEnd)
    requires EndsAt(s, run, n, t, k, end)
    ensures EndsAt(s, run + [step], n, t, k, end)
  {
    PrefixOfLonger(s, run, step.0, step.1, n);
  }

  lemma EndedLater(s: State, run: Schedule, step: (Tid, Choice), k: nat, end: BuildEnd)
    requires Ended(s, run, k, end)
    ensures Ended(s, run + [step], k, end)
  {
    var n: nat, t: Tid :| EndsAt(s, run, n, t, k, end);
    EndsLater(s, run, step, n, t, k, end);
  }

  lemma BuiltLater(s: State, run: Schedule, step: (Tid, Choice), m: VcdMeta)
    requires WasBuilt(s, run, m)
    ensures WasBuilt(s, run + [step], m)
  {
    var k: nat :| Ended(s, run, k, Built(m));
    EndedLater(s, run, step, k, Built(m));
  }

  lemma EndedFailingLater(s: State, run: Schedule, step: (Tid, Choice), k: nat, e: CachedError)
    requires EndedFailing(s, run, k, e)
    ensures EndedFailing(s, run + [step], k, e)
  {
    if Ended(s, run, k, Cacheable(e)) {
      EndedLater(s, run, step, k, Cacheable(e));
    } else {
      EndedLater(s, run, step, k, Panics);
    }
  }

  /** What explains an outcome explains it for good. */
  lemma ExplainedLater(s: State, run: Schedule, step: (Tid, Choice), t: Tid, outcome: Outcome)
    requires Inv(s) && Explained(s, run, t, outcome)
    ensures Explained(s, run + [step], t, outcome)
  {
    match outcome
    case Success(m) => BuiltLater(s, run, step, m);
    case Cached(e) =>
      var k: nat :| EndedFailing(s, run, k, e);
      EndedFailingLater(s, run, step, k, e);
    case Uncached =>
      if n: nat :| FailsPolicyAt(s, run, n, t) {
        PrefixOfLonger(s, run, step.0, step.1, n);
        assert FailsPolicyAt(s, run + [step], n, t);
      } else {
        var n: nat, k: nat :| EndsAt(s, run, n, t, k, Transient);
        EndsLater(s, run, step, n, t, k, Transient);
      }
    case AttemptsExhausted =>
      RunKeepsInv(s, run);
      Extend(s, run, step.0, step.1);
      NextAttemptMonotone(Exec(s, run), [step]);
      ExecConcat(s, run, [step]);
    case Unwound =>
      var n: nat, k: nat :| EndsAt(s, run, n, t, k, Panics);
      EndsLater(s, run, step, n, t, k, Panics);
  }

  lemma EndsNow(s: State, run: Schedule, step: (Tid, Choice), t: Tid)
    requires step.0 == t
    ensures var before := Exec(s, run);
            && (t in before.pcs && before.pcs[t].Scanning? && !(before.pcs[t].call.Plain? && step.1.end.Transient?) ==>
                  EndsAt(s, run + [step], |run|, t, before.pcs[t].attempt, step.1.end))
            && (t in before.pcs && step.1.policyFails && UnderPolicy(before.pcs[t], step.1) ==>
                  FailsPolicyAt(s, run + [step], |run|, t))
  {
    assert (run + [step])[..|run|] == run;
  }

  lemma StepKeepsPhaseExplained(s: State, run: Schedule, step: (Tid, Choice))
    requires Inv(s) && PhaseExplained(s, run)
    ensures PhaseExplained(s, run + [step])
  {
    var (t, c) := step;
    var before := Exec(s, run);
    RunKeepsInv(s, run);
    Extend(s, run, t, c);
    EndsNow(s, run, step, t);
    if t in before.pcs {
      InvMakesReady(before, t);
      TurnOrigin(before.sh, before.pcs[t], c);
    }
    var phase := Next(before, t, c).sh.phase;
    if phase.Ready? && phase == before.sh.phase {
      BuiltLater(s, run, step, phase.meta);
    } else if phase.Failed? && before.sh.phase.Failed? && before.sh.phase.attempt == phase.attempt
              && before.sh.phase.error == phase.error {
      EndedFailingLater(s, run, step, phase.attempt, phase.error);
    } else if phase.Ready? || phase.Failed? {
      assert Ended(s, run + [step], before.pcs[t].attempt, c.end);
    }
  }

  lemma DecidedIsExplained(s: State, run: Schedule, step: (Tid, Choice))
    requires var before := Exec(s, run);
             && step.0 in before.pcs && HasOutcome(Exec(s, run + [step]).pcs[step.0])
             && Decides(Exec(s, run + [step]).sh, before.pcs[step.0], step.1,
                        Exec(s, run + [step]).pcs[step.0].outcome)
    requires PhaseExplained(s, run + [step])
    ensures Explained(s, run + [step], step.0, Exec(s, run + [step]).pcs[step.0].outcome)
  {
    EndsNow(s, run, step, step.0);
  }

  lemma StepKeepsOutcomesExplained(s: State, run: Schedule, step: (Tid, Choice))
    requires Inv(s) && PhaseExplained(s, run) && OutcomesExplained(s, run)
    ensures OutcomesExplained(s, run + [step])
  {
    var (t, c) := step;
    var before, last := Exec(s, run), Exec(s, run + [step]);
    RunKeepsInv(s, run);
    Extend(s, run, t, c);
    StepKeepsPhaseExplained(s, run, step);
    forall u | u in last.pcs && HasOutcome(last.pcs[u])
      ensures Explained(s, run + [step], u, last.pcs[u].outcome)
    {
      if u == t {
        InvMakesReady(before, t);
        TurnDecides(before.sh, before.pcs[t], c);
      }
      if HasOutcome(before.pcs[u]) && before.pcs[u].outcome == last.pcs[u].outcome {
        ExplainedLater(s, run, step, u, last.pcs[u].outcome);
      } else {
        DecidedIsExplained(s, run, step);
      }
    }
  }

  lemma {:induction false} RunIsExplained(s: State, run: Schedule)
    requires Inv(s) && PhaseExplained(s, []) && OutcomesExplained(s, [])
    ensures PhaseExplained(s, run) && OutcomesExplained(s, run)
    decreases |run|
  {
    if run == [] {
    } else {
      var init, step := run[..|run| - 1], run[|run| - 1];
      assert run == init + [step];
      RunIsExplained(s, init);
      StepKeepsPhaseExplained(s, init, step);
      StepKeepsOutcomesExplained(s, init, step);
    }
  }

  // ------------------------------------------------------------------ whole runs

  /** Whatever a thread comes to, some step of the run explains it: a success is the very value a
      builder produced, a cached failure the error of a builder or its panic, and anything that is
      not kept is the thread's own policy or its own closure. */
  lemma OutcomesHaveOrigins(threads: set<Tid>, run: Schedule, t: Tid)
    requires t in threads && HasOutcome(Exec(Init(threads), run).pcs[t])
    ensures Explained(Init(threads), run, t, Exec(Init(threads), run).pcs[t].outcome)
  {
    RunIsExplained(Init(threads), run);
  }

  lemma BuiltIsPublished(s: State, t: Tid, c: Choice, m: VcdMeta)
    requires Inv(s) && t in s.pcs && s.pcs[t].Scanning? && c.end == Built(m)
    ensures Next(s, t, c).sh.phase == Ready(m)
  {
  }

  lemma RunSplits(s: State, run: Schedule, n: nat)
    requires n < |run|
    ensures Exec(s, run) == Exec(Next(Exec(s, run[..n]), run[n].0, run[n].1), run[n + 1..])
  {
    Extend(s, run[..n], run[n].0, run[n].1);
    assert run[..n] + [run[n]] + run[n + 1..] == run;
    ExecConcat(s, run[..n] + [run[n]], run[n + 1..]);
  }

  lemma BuiltStays(s: State, run: Schedule, n: nat, t: Tid, k: nat, m: VcdMeta)
    requires Inv(s) && EndsAt(s, run, n, t, k, Built(m))
    ensures Exec(s, run).sh.phase == Ready(m)
  {
    var before := Exec(s, run[..n]);
    RunKeepsInv(s, run[..n]);
    InvPreserved(before, t, run[n].1);
    BuiltIsPublished(before, t, run[n].1, m);
    ReadyIsAbsorbing(Next(before, t, run[n].1), run[n + 1..]);
    RunSplits(s, run, n);
  }

  /** The cache holds metadata exactly when a builder of the run has produced just that metadata. */
  lemma ReadyExactlyIfBuilt(threads: set<Tid>, run: Schedule, m: VcdMeta)
    ensures Exec(Init(threads), run).sh.phase == Ready(m) <==> WasBuilt(Init(threads), run, m)
  {
    RunIsExplained(Init(threads), run);
    if WasBuilt(Init(threads), run, m) {
      var k: nat :| Ended(Init(threads), run, k, Built(m));
      var n: nat, t: Tid :| EndsAt(Init(threads), run, n, t, k, Built(m));
      BuiltStays(Init(threads), run, n, t, k, m);
    }
  }

  /** A failure in the cache is that of the builder of its attempt. */
  lemma FailureHasItsOrigin(threads: set<Tid>, run: Schedule)
    requires Exec(Init(threads), run).sh.phase.Failed?
    ensures var phase := Exec(Init(threads), run).sh.phase;
            EndedFailing(Init(threads), run, phase.attempt, phase.error)
  {
    RunIsExplained(Init(threads), run);
  }

  // ------------------------------------------------------------------ the builder's own answer

  /** The outcome that says how a closure ended. */
  predicate Reports(end: BuildEnd, outcome: Outcome) {
    match end
    case Built(m) => outcome == Success(m)
    case Cacheable(e) => outcome == Cached(e)
    case Transient => outcome == Uncached
    case Panics => outcome == Unwound
  }

  lemma {:induction false} OthersLeaveBusy(s: State, t: Tid, run: Schedule)
    requires t in s.pcs && !s.pcs[t].Parked? && Avoids(run, t)
    ensures t in Exec(s, run).pcs && Exec(s, run).pcs[t] == s.pcs[t]
    decreases |run|
  {
    if run == [] {
    } else {
      assert run[0].0 != t;
      forall i | 0 <= i < |run[1..]| ensures run[1..][i].0 != t {
        assert run[1..][i] == run[i + 1];
      }
      OthersLeaveBusy(Next(s, run[0].0, run[0].1), t, run[1..]);
    }
  }

  /** A builder returns how its own closure ended, whatever the other threads do between its
      publication and its return; only a context caller whose policy fails meanwhile does not, and a
      panic always unwinds. */
  lemma BuilderReturnsItsEnd(s: State, t: Tid, c: Choice, run: Schedule, d: Choice)
    requires Inv(s) && t in s.pcs && s.pcs[t].Scanning? && !(s.pcs[t].call.Plain? && c.end.Transient?)
    requires Avoids(run, t)
    ensures var pc := Next(Exec(Next(s, t, c), run), t, d).pcs[t];
            pc.Returned? &&
            if s.pcs[t].call.Context? && d.policyFails && !c.end.Panics? then pc.outcome == Uncached
            else Reports(c.end, pc.outcome)
  {
    OthersLeaveBusy(Next(s, t, c), t, run);
  }

  // ------------------------------------------------------------------ a failing policy ends the call

  /** The thread is in a context call, and not in its own builder closure. */
  predicate InContextCall(pc: Pc) {
    match pc
    case Entering(call) => call.Context?
    case Parked(call, _, _) => call.Context?
    case Releasing(_, outcome) => outcome.Cached? || outcome.Uncached?
    case Announcing(outcome, checks) => checks && (outcome.Success? || outcome.Cached? || outcome.Uncached?)
    case _ => false
  }

  function TurnsLeft(pc: Pc): nat {
    match pc
    case Releasing(_, _) => 2
    case Announcing(_, _) => 1
    case _ => 3
  }

  lemma FailingTurn(s: State, t: Tid, c: Choice)
    requires Inv(s) && t in s.pcs && InContextCall(s.pcs[t]) && c.policyFails
    ensures var pc := Next(s, t, c).pcs[t];
            pc == Returned(Uncached) || (InContextCall(pc) && TurnsLeft(pc) < TurnsLeft(s.pcs[t]))
  {
    InvMakesReady(s, t);
  }

  function Turns(run: Schedule, t: Tid): nat {
    if run == [] then 0 else (if run[0].0 == t then 1 else 0) + Turns(run[1..], t)
  }

  predicate AlwaysFails(run: Schedule, t: Tid) {
    forall i | 0 <= i < |run| && run[i].0 == t :: run[i].1.policyFails
  }

  predicate GaveUp(s: State, run: Schedule, n: nat, t: Tid) {
    n <= |run| && t in Exec(s, run[..n]).pcs && Exec(s, run[..n]).pcs[t] == Returned(Uncached)
  }

  lemma GaveUpLater(s: State, run: Schedule, n: nat, t: Tid)
    requires run != [] && GaveUp(Next(s, run[0].0, run[0].1), run[1..], n, t)
    ensures GaveUp(s, run, n + 1, t)
  {
    assert run[..n + 1][1..] == run[1..][..n];
  }

  lemma GaveUpAtOnce(s: State, run: Schedule, t: Tid)
    requires run != [] && t in s.pcs && Next(s, run[0].0, run[0].1).pcs[t] == Returned(Uncached)
    ensures GaveUp(s, run, 1, t)
  {
    ExecPrefix(s, run, 0);
  }

  lemma AlwaysFailsLater(run: Schedule, t: Tid)
    requires run != [] && AlwaysFails(run, t)
    ensures AlwaysFails(run[1..], t)
  {
    forall i | 0 <= i < |run[1..]| && run[1..][i].0 == t ensures run[1..][i].1.policyFails {
      assert run[1..][i] == run[i + 1];
    }
  }

  /** Once the policy of a context call fails, at most three more turns of its thread end the call
      without metadata and without a cached error, whatever the other threads do. */
  lemma {:induction false} FailedPolicyEndsCall(s: State, t: Tid, run: Schedule)
    requires Inv(s) && t in s.pcs && InContextCall(s.pcs[t])
    requires AlwaysFails(run, t) && Turns(run, t) >= TurnsLeft(s.pcs[t])
    ensures exists n: nat :: GaveUp(s, run, n, t)
    decreases |run|
  {
    var (u, c) := run[0];
    var s', rest := Next(s, u, c), run[1..];
    InvPreserved(s, u, c);
    AlwaysFailsLater(run, t);
    if u == t {
      FailingTurn(s, t, c);
    }
    if s'.pcs[t] == Returned(Uncached) {
      GaveUpAtOnce(s, run, t);
    } else {
      FailedPolicyEndsCall(s', t, rest);
      var n: nat :| GaveUp(s', rest, n, t);
      GaveUpLater(s, run, n, t);
    }
  }
}
