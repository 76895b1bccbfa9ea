/** What the cache promises over whole runs of any number of threads. */
module MetadataTheorems {
  import opened Wrappers
  import opened Words
  import opened MetadataCache
  import opened MetadataProtocol

  lemma {:induction false} RunKeepsInv(s: State, schedule: Schedule)
    requires Inv(s)
    ensures Inv(Exec(s, schedule))
    decreases |schedule|
  {
    if schedule == [] {
    } else {
      InvPreserved(s, schedule[0].0, schedule[0].1);
      RunKeepsInv(Next(s, schedule[0].0, schedule[0].1), schedule[1..]);
    }
  }

  lemma ReachableInv(threads: set<Tid>, schedule: Schedule)
    ensures Inv(Exec(Init(threads), schedule))
  {
    RunKeepsInv(Init(threads), schedule);
  }

  // ------------------------------------------------------------------ waiter accounting

  lemma {:induction false} SubsetSize(a: set<Tid>, b: set<Tid>)
    requires a <= b
    ensures |a| <= |b|
  {
    if a != {} {
      var x :| x in a;
      SubsetSize(a - {x}, b - {x});
    }
  }

  /** The counters are the live registrations on the current attempt, and no thread that would
      decrement one can find it at zero. */
  lemma WaiterAccounting(threads: set<Tid>, schedule: Schedule)
    ensures var s := Exec(Init(threads), schedule);
            && (s.sh.phase.Building? ==> s.sh.phase.waiters == |LiveOn(s.pcs, s.sh.phase.attempt)|)
            && (s.sh.phase.Failed? ==> s.sh.phase.pending == |LiveOn(s.pcs, s.sh.phase.attempt)|)
            && Count(s.sh.phase) <= |threads|
            && forall t | t in threads && (s.sh.phase.Building? || s.sh.phase.Failed?)
               && Live(s.pcs[t], s.sh.phase.attempt) ::
                 Count(s.sh.phase) > 0
  {
    ReachableInv(threads, schedule);
    var s := Exec(Init(threads), schedule);
    if s.sh.phase.Building? || s.sh.phase.Failed? {
      var live := LiveOn(s.pcs, s.sh.phase.attempt);
      SubsetSize(live, threads);
      forall t | t in threads && Live(s.pcs[t], s.sh.phase.attempt) ensures Count(s.sh.phase) > 0 {
        assert t in live;
      }
    }
  }

  // ------------------------------------------------------------------ attempt stability

  /** Attempt `k` has failed with `e` and `t` has not yet acknowledged it. */
  predicate Holding(s: State, t: Tid, k: nat, e: CachedError) {
    t in s.pcs && Live(s.pcs[t], k) && s.sh.phase.Failed? && s.sh.phase.attempt == k && s.sh.phase.error == e
  }

  /** The step by which `t` gives its registration back: it carries k's own error, or, for a
      context caller whose policy failed, no cached outcome at all. */
  predicate Acknowledged(before: State, after: State, t: Tid, e: CachedError) {
    && t in before.pcs && t in after.pcs
    && (after.pcs[t].Announcing? || after.pcs[t].Returned?)
    && (after.pcs[t].outcome == Cached(e) || (before.pcs[t].Releasing? && after.pcs[t].outcome == Uncached))
  }

  lemma HeldFailureStays(s: State, t: Tid, k: nat, e: CachedError, u: Tid, c: Choice)
    requires Inv(s) && Holding(s, t, k, e)
    ensures Holding(Next(s, u, c), t, k, e) || (u == t && Acknowledged(s, Next(s, u, c), t, e))
  {
    assert t in LiveOn(s.pcs, k);
    assert s.sh.phase.pending > 0;
  }

  /** Step `n` of the run is the acknowledgement of attempt k by `t`, who held it until then. */
  predicate AcknowledgesAt(s: State, schedule: Schedule, n: nat, t: Tid, k: nat, e: CachedError) {
    && n < |schedule| && schedule[n].0 == t
    && Holding(Exec(s, schedule[..n]), t, k, e)
    && Acknowledged(Exec(s, schedule[..n]), Exec(s, schedule[..n + 1]), t, e)
  }

  lemma ExecPrefix(s: State, schedule: Schedule, n: nat)
    requires n < |schedule|
    ensures Exec(s, schedule[..n + 1]) == Exec(Next(s, schedule[0].0, schedule[0].1), schedule[1..][..n])
  {
    assert schedule[..n + 1][1..] == schedule[1..][..n];
  }

  lemma AcknowledgesShift(s: State, schedule: Schedule, n: nat, t: Tid, k: nat, e: CachedError)
    requires schedule != []
    requires AcknowledgesAt(Next(s, schedule[0].0, schedule[0].1), schedule[1..], n, t, k, e)
    ensures AcknowledgesAt(s, schedule, n + 1, t, k, e)
  {
    ExecPrefix(s, schedule, n);
    ExecPrefix(s, schedule, n + 1);
  }

  /** Once attempt k publishes a failure, every caller registered on k keeps that failure in
      the cache until its own acknowledging step, whatever the other threads do. */
  lemma {:induction false} AttemptStability(s: State, t: Tid, k: nat, e: CachedError, schedule: Schedule)
    requires Inv(s) && Holding(s, t, k, e)
    ensures Holding(Exec(s, schedule), t, k, e) || exists n: nat :: AcknowledgesAt(s, schedule, n, t, k, e)
    decreases |schedule|
  {
    if schedule == [] {
    } else {
      var (u, c) := schedule[0];
      var s' := Next(s, u, c);
      HeldFailureStays(s, t, k, e, u, c);
      InvPreserved(s, u, c);
      if Holding(s', t, k, e) {
        AttemptStability(s', t, k, e, schedule[1..]);
        if m: nat :| AcknowledgesAt(s', schedule[1..], m, t, k, e) {
          AcknowledgesShift(s, schedule, m, t, k, e);
        }
      } else {
        ExecPrefix(s, schedule, 0);
        assert AcknowledgesAt(s, schedule, 0, t, k, e);
      }
    }
  }

  // ------------------------------------------------------------------ single flight and agreement

  /** At most one builder, the phase names its attempt exactly while it is active, and the
      "metadata attempt changed" panics are unreachable. */
  lemma OneBuilderAtATime(threads: set<Tid>, schedule: Schedule)
    ensures var s := Exec(Init(threads), schedule);
            && (forall t, u | t in threads && u in threads && s.pcs[t].Scanning? && s.pcs[u].Scanning? :: t == u)
            && (forall t | t in threads && s.pcs[t].Scanning? ::
                  s.sh.phase.Building? && s.sh.phase.attempt == s.pcs[t].attempt)
            && (s.sh.phase.Building? ==> exists t :: t in threads && s.pcs[t].Scanning?)
            && (forall t | t in threads :: !s.pcs[t].AttemptPanic?)
  {
    ReachableInv(threads, schedule);
    var s := Exec(Init(threads), schedule);
    forall t | t in threads ensures !s.pcs[t].AttemptPanic? {
      assert WellShaped(s.pcs[t]);
    }
  }

  /** The attempt a step elects, if it elects one. */
  predicate Elects(s: State, t: Tid, c: Choice) {
    t in s.pcs && !s.pcs[t].Scanning? && t in Next(s, t, c).pcs && Next(s, t, c).pcs[t].Scanning?
  }

  lemma TurnElection(sh: Shared, pc: Pc, c: Choice)
    requires TurnReady(sh, pc) && !pc.Scanning? && Turn(sh, pc, c).1.Scanning?
    ensures var (sh', pc') := Turn(sh, pc, c); pc'.attempt == sh.nextAttempt && sh'.nextAttempt == sh.nextAttempt + 1
  {
  }

  lemma ElectionTakesNext(s: State, t: Tid, c: Choice)
    requires Inv(s) && Elects(s, t, c)
    ensures Next(s, t, c).pcs[t].attempt == s.sh.nextAttempt
    ensures Next(s, t, c).sh.nextAttempt == s.sh.nextAttempt + 1
  {
    InvMakesReady(s, t);
    TurnElection(s.sh, s.pcs[t], c);
  }

  lemma {:induction false} NextAttemptMonotone(s: State, schedule: Schedule)
    requires Inv(s)
    ensures s.sh.nextAttempt <= Exec(s, schedule).sh.nextAttempt
    decreases |schedule|
  {
    if schedule == [] {
    } else {
      InvPreserved(s, schedule[0].0, schedule[0].1);
      if schedule[0].0 in s.pcs {
        InvMakesReady(s, schedule[0].0);
        TurnIsLocal(s.sh, s.pcs[schedule[0].0], schedule[0].1);
      }
      NextAttemptMonotone(Next(s, schedule[0].0, schedule[0].1), schedule[1..]);
    }
  }

  /** Attempt identifiers are handed out in strictly increasing order: a later election of the
      same run, by any thread, has a larger one. */
  lemma AttemptsIncrease(s: State, t: Tid, c: Choice, schedule: Schedule, u: Tid, d: Choice)
    requires Inv(s) && Elects(s, t, c)
    requires Elects(Exec(Next(s, t, c), schedule), u, d)
    ensures Next(s, t, c).pcs[t].attempt < Next(Exec(Next(s, t, c), schedule), u, d).pcs[u].attempt
  {
    ElectionTakesNext(s, t, c);
    InvPreserved(s, t, c);
    RunKeepsInv(Next(s, t, c), schedule);
    NextAttemptMonotone(Next(s, t, c), schedule);
    ElectionTakesNext(Exec(Next(s, t, c), schedule), u, d);
  }

  lemma {:induction false} ReadyIsAbsorbing(s: State, schedule: Schedule)
    requires Inv(s) && s.sh.phase.Ready?
    ensures Exec(s, schedule).sh.phase == s.sh.phase
    decreases |schedule|
  {
    if schedule == [] {
    } else {
      InvPreserved(s, schedule[0].0, schedule[0].1);
      if schedule[0].0 in s.pcs {
        InvMakesReady(s, schedule[0].0);
        TurnIsLocal(s.sh, s.pcs[schedule[0].0], schedule[0].1);
      }
      ReadyIsAbsorbing(Next(s, schedule[0].0, schedule[0].1), schedule[1..]);
    }
  }

  /** Any two successful returns of one cache, at any two moments of a run, carry the same
      metadata, whichever builders panicked or were cancelled on the way. */
  lemma SuccessesAgree(threads: set<Tid>, first: Schedule, rest: Schedule, t: Tid, u: Tid)
    requires t in threads && u in threads
    requires Exec(Init(threads), first).pcs[t].Returned? && Exec(Init(threads), first).pcs[t].outcome.Success?
    requires var s := Exec(Exec(Init(threads), first), rest); s.pcs[u].Returned? && s.pcs[u].outcome.Success?
    ensures Exec(Init(threads), first).pcs[t].outcome == Exec(Exec(Init(threads), first), rest).pcs[u].outcome
  {
    ReachableInv(threads, first);
    var s := Exec(Init(threads), first);
    RunKeepsInv(s, rest);
    ReadyIsAbsorbing(s, rest);
  }

  // ------------------------------------------------------------------ no lost wakeup, no stranded retry

  /** A parked thread that no notification has reached is still waiting for something: a
      running builder, unacknowledged waiters (for a retry), or a notification that is owed. */
  lemma NoLostWakeup(threads: set<Tid>, schedule: Schedule, t: Tid)
    requires t in threads
    requires Exec(Init(threads), schedule).pcs[t].Parked? && !Exec(Init(threads), schedule).pcs[t].notified
    ensures var s := Exec(Init(threads), schedule);
            || s.sh.phase.Building?
            || (s.pcs[t].call.Retry? && s.sh.phase.Failed? && s.sh.phase.pending > 0)
            || exists u :: u in threads && s.pcs[u].Announcing?
  {
    ReachableInv(threads, schedule);
    var s := Exec(Init(threads), schedule);
    if NotifyOwed(s.pcs) {
      var u :| u in s.pcs && s.pcs[u].Announcing?;
      assert u in threads;
    }
  }

  /** Every step is taken by a thread that runs on its own: no spurious or timed wake-ups. */
  predicate Unprompted(s: State, schedule: Schedule)
    decreases |schedule|
  {
    schedule != [] ==>
      var (t, c) := schedule[0];
      && t in s.pcs
      && !(s.pcs[t].Parked? && !s.pcs[t].notified)
      && Unprompted(Next(s, t, c), schedule[1..])
  }

  const QUIET := Choice(Plain, false, Panics)

  lemma {:induction false} ExecConcat(s: State, first: Schedule, rest: Schedule)
    ensures Exec(s, first + rest) == Exec(Exec(s, first), rest)
    ensures Unprompted(s, first) && Unprompted(Exec(s, first), rest) ==> Unprompted(s, first + rest)
    decreases |first|
  {
    if first == [] {
      assert first + rest == rest;
    } else {
      assert (first + rest)[1..] == first[1..] + rest;
      ExecConcat(Next(s, first[0].0, first[0].1), first[1..], rest);
    }
  }

  lemma OneStep(s: State, t: Tid)
    requires t in s.pcs && !(s.pcs[t].Parked? && !s.pcs[t].notified)
    ensures Unprompted(s, [(t, QUIET)]) && Exec(s, [(t, QUIET)]) == Next(s, t, QUIET)
  {
    assert [(t, QUIET)][1..] == [];
    assert Exec(Next(s, t, QUIET), []) == Next(s, t, QUIET);
  }

  predicate Avoids(schedule: Schedule, r: Tid) {
    forall i | 0 <= i < |schedule| :: schedule[i].0 != r
  }

  /** The delivery of an owed notification changes no counter and reaches every parked thread. */
  lemma Deliver(s: State) returns (schedule: Schedule)
    requires Inv(s) && NotifyOwed(s.pcs)
    ensures |schedule| == 1 && Unprompted(s, schedule)
    ensures forall r | r !in s.pcs || s.pcs[r].Parked? :: Avoids(schedule, r)
    ensures var s' := Exec(s, schedule);
            && s'.sh == s.sh && s'.pcs.Keys == s.pcs.Keys
            && forall t | t in s.pcs && s.pcs[t].Parked? :: s'.pcs[t] == s.pcs[t].(notified := true)
  {
    var u :| u in s.pcs && s.pcs[u].Announcing?;
    OneStep(s, u);
    schedule := [(u, QUIET)];
  }

  /** Brings a live waiter on the failed attempt to a state in which it can run. */
  lemma Rouse(s: State, t: Tid) returns (schedule: Schedule)
    requires Inv(s) && t in s.pcs && s.pcs[t].Parked?
    requires s.sh.phase.Failed? && (s.pcs[t].call.Retry? ==> s.sh.phase.pending == 0)
    ensures |schedule| <= 1 && Unprompted(s, schedule)
    ensures forall r | r !in s.pcs || s.pcs[r].Parked? :: Avoids(schedule, r)
    ensures var s' := Exec(s, schedule);
            s'.sh == s.sh && t in s'.pcs && s'.pcs[t] == s.pcs[t].(notified := true)
  {
    if s.pcs[t].notified {
      schedule := [];
    } else {
      schedule := Deliver(s);
    }
  }

  predicate ParkedRetry(s: State, r: Tid) {
    r in s.pcs && s.pcs[r].Parked? && s.pcs[r].call.Retry?
  }

  lemma {:induction false} OthersLeaveParked(s: State, r: Tid, schedule: Schedule)
    requires ParkedRetry(s, r) && Avoids(schedule, r)
    ensures ParkedRetry(Exec(s, schedule), r)
    decreases |schedule|
  {
    if schedule == [] {
    } else {
      assert schedule[0].0 != r;
      assert Avoids(schedule[1..], r) by {
        forall i | 0 <= i < |schedule[1..]| ensures schedule[1..][i].0 != r {
          assert schedule[1..][i] == schedule[i + 1];
        }
      }
      OthersLeaveParked(Next(s, schedule[0].0, schedule[0].1), r, schedule[1..]);
    }
  }

  /** `schedule` acknowledges waiters until `left` remain, without any step of thread `r`. */
  predicate AcknowledgesTo(s: State, schedule: Schedule, left: nat, r: Tid) {
    && s.sh.phase.Failed?
    && Unprompted(s, schedule) && Avoids(schedule, r)
    && Exec(s, schedule).sh.phase == s.sh.phase.(pending := left)
  }

  /** A notified waiter on the failed attempt runs: a plain caller acknowledges at once, a
      context caller first lets go of the lock. */
  lemma WaiterRuns(s: State, t: Tid, c: Choice)
    requires Inv(s) && s.sh.phase.Failed? && s.sh.phase.pending > 0
    requires t in s.pcs && s.pcs[t].Parked? && Live(s.pcs[t], s.sh.phase.attempt)
    ensures s.pcs[t].call.Plain? ==> Next(s, t, c).sh.phase == s.sh.phase.(pending := s.sh.phase.pending - 1)
    ensures !s.pcs[t].call.Plain? ==>
              && Next(s, t, c).sh == s.sh
              && Next(s, t, c).pcs[t] == Releasing(s.sh.phase.attempt, Cached(s.sh.phase.error))
  {
    assert t in LiveOn(s.pcs, s.sh.phase.attempt);
    assert WellShaped(s.pcs[t]);
  }

  lemma ReleaseRuns(s: State, t: Tid, c: Choice)
    requires Inv(s) && s.sh.phase.Failed? && s.sh.phase.pending > 0
    requires t in s.pcs && s.pcs[t].Releasing? && s.pcs[t].attempt == s.sh.phase.attempt
    ensures Next(s, t, c).sh.phase == s.sh.phase.(pending := s.sh.phase.pending - 1)
  {
    assert t in LiveOn(s.pcs, s.sh.phase.attempt);
  }

  /** A failure whose registered waiter `t` can run. */
  ghost predicate Roused(s: State, t: Tid, r: Tid) {
    && Inv(s) && s.sh.phase.Failed? && s.sh.phase.pending > 0
    && t in s.pcs && s.pcs[t].Parked? && s.pcs[t].notified && Live(s.pcs[t], s.sh.phase.attempt) && t != r
  }

  lemma RouseWaiter(s: State, t: Tid, r: Tid) returns (start: Schedule)
    requires Inv(s) && s.sh.phase.Failed? && s.sh.phase.pending > 0
    requires r in s.pcs ==> ParkedRetry(s, r)
    requires t in s.pcs && s.pcs[t].Parked? && Live(s.pcs[t], s.sh.phase.attempt)
    ensures |start| <= 1 && AcknowledgesTo(s, start, s.sh.phase.pending, r)
    ensures Roused(Exec(s, start), t, r) && Exec(s, start).sh == s.sh
  {
    assert WellShaped(s.pcs[t]);
    start := Rouse(s, t);
    RunKeepsInv(s, start);
  }

  lemma AcknowledgeLater(s: State, start: Schedule, finish: Schedule, mid: nat, left: nat, r: Tid)
    returns (schedule: Schedule)
    requires AcknowledgesTo(s, start, mid, r)
    requires AcknowledgesTo(Exec(s, start), finish, left, r)
    ensures |schedule| == |start| + |finish| && AcknowledgesTo(s, schedule, left, r)
  {
    ExecConcat(s, start, finish);
    schedule := start + finish;
  }

  lemma RousedAcknowledges(s: State, t: Tid, r: Tid, left: nat) returns (schedule: Schedule)
    requires Roused(s, t, r) && left == s.sh.phase.pending - 1
    ensures |schedule| <= 2 && AcknowledgesTo(s, schedule, left, r)
  {
    WaiterRuns(s, t, QUIET);
    OneStep(s, t);
    schedule := [(t, QUIET)];
    if !s.pcs[t].call.Plain? {
      var s1 := Next(s, t, QUIET);
      InvPreserved(s, t, QUIET);
      ReleaseRuns(s1, t, QUIET);
      OneStep(s1, t);
      ExecConcat(s, schedule, [(t, QUIET)]);
      schedule := schedule + [(t, QUIET)];
    }
  }

  lemma ParkedAcknowledges(s: State, t: Tid, r: Tid) returns (schedule: Schedule)
    requires Inv(s) && s.sh.phase.Failed? && s.sh.phase.pending > 0
    requires r in s.pcs ==> ParkedRetry(s, r)
    requires t in s.pcs && s.pcs[t].Parked? && Live(s.pcs[t], s.sh.phase.attempt)
    ensures |schedule| <= 3 && AcknowledgesTo(s, schedule, s.sh.phase.pending - 1, r)
  {
    var start := RouseWaiter(s, t, r);
    var left := s.sh.phase.pending - 1;
    var finish := RousedAcknowledges(Exec(s, start), t, r, left);
    schedule := AcknowledgeLater(s, start, finish, s.sh.phase.pending, left, r);
  }

  lemma Acknowledge(s: State, t: Tid, r: Tid) returns (schedule: Schedule)
    requires Inv(s) && s.sh.phase.Failed? && s.sh.phase.pending > 0
    requires r in s.pcs ==> ParkedRetry(s, r)
    requires t in s.pcs && WellShaped(s.pcs[t]) && Live(s.pcs[t], s.sh.phase.attempt)
    ensures |schedule| <= 3 && AcknowledgesTo(s, schedule, s.sh.phase.pending - 1, r)
  {
    if s.pcs[t].Releasing? {
      ReleaseRuns(s, t, QUIET);
      OneStep(s, t);
      schedule := [(t, QUIET)];
    } else {
      schedule := ParkedAcknowledges(s, t, r);
    }
  }

  /** From a failure with unacknowledged waiters, at most three unprompted steps of the waiters
      and publishers take exactly one of them away. */
  lemma OneAcknowledgement(s: State, r: Tid)
    requires Inv(s) && s.sh.phase.Failed? && s.sh.phase.pending > 0
    requires r in s.pcs ==> ParkedRetry(s, r)
    ensures exists schedule: Schedule :: |schedule| <= 3 && AcknowledgesTo(s, schedule, s.sh.phase.pending - 1, r)
  {
    var t :| t in LiveOn(s.pcs, s.sh.phase.attempt);
    assert WellShaped(s.pcs[t]);
    var schedule := Acknowledge(s, t, r);
    assert |schedule| <= 3 && AcknowledgesTo(s, schedule, s.sh.phase.pending - 1, r);
  }

  /** A failure that waiters can acknowledge while thread `r`, if there is one, stays parked. */
  ghost predicate Draining(s: State, r: Tid) {
    Inv(s) && s.sh.phase.Failed? && (r in s.pcs ==> ParkedRetry(s, r))
  }

  lemma {:induction false} ExecKeepsThreads(s: State, schedule: Schedule)
    ensures Exec(s, schedule).pcs.Keys == s.pcs.Keys
    decreases |schedule|
  {
    if schedule == [] {
    } else {
      ExecKeepsThreads(Next(s, schedule[0].0, schedule[0].1), schedule[1..]);
    }
  }

  lemma StillDraining(s: State, first: Schedule, left: nat, r: Tid)
    requires Draining(s, r) && AcknowledgesTo(s, first, left, r)
    ensures Draining(Exec(s, first), r)
  {
    RunKeepsInv(s, first);
    if r in s.pcs {
      OthersLeaveParked(s, r, first);
    }
    ExecKeepsThreads(s, first);
  }

  lemma FirstAcknowledgement(s: State, r: Tid) returns (first: Schedule)
    requires Draining(s, r) && s.sh.phase.pending > 0
    ensures AcknowledgesTo(s, first, s.sh.phase.pending - 1, r)
  {
    OneAcknowledgement(s, r);
    first :| |first| <= 3 && AcknowledgesTo(s, first, s.sh.phase.pending - 1, r);
  }

  lemma {:induction false} DrainFailure(s: State, r: Tid) returns (schedule: Schedule)
    requires Draining(s, r)
    ensures AcknowledgesTo(s, schedule, 0, r)
    decreases s.sh.phase.pending
  {
    if s.sh.phase.pending == 0 {
      return [];
    }
    var first := FirstAcknowledgement(s, r);
    StillDraining(s, first, s.sh.phase.pending - 1, r);
    var rest := DrainFailure(Exec(s, first), r);
    schedule := AcknowledgeLater(s, first, rest, s.sh.phase.pending - 1, 0, r);
  }

  /** All waiters of a failure can acknowledge it without any outside help. */
  lemma FailureDrains(s: State, r: Tid)
    requires Inv(s) && s.sh.phase.Failed?
    requires r in s.pcs ==> ParkedRetry(s, r)
    ensures exists schedule: Schedule :: AcknowledgesTo(s, schedule, 0, r)
  {
    var schedule := DrainFailure(s, r);
  }

  predicate RetriesAfter(s: State, schedule: Schedule, r: Tid) {
    var s1 := Exec(s, schedule);
    && s.sh.phase.Failed? && Unprompted(s, schedule)
    && s1.sh.phase == s.sh.phase.(pending := 0)
    && r in s1.pcs && s1.pcs[r].Parked? && s1.pcs[r].notified
    && Next(s1, r, QUIET).sh.phase == Absent && Next(s1, r, QUIET).pcs[r] == Entering(Plain)
  }

  lemma RetryRuns(s: State, r: Tid, c: Choice)
    requires ParkedRetry(s, r) && s.sh.phase.Failed? && s.sh.phase.pending == 0
    ensures Next(s, r, c).sh.phase == Absent && Next(s, r, c).pcs[r] == Entering(Plain)
  {
  }

  /** A parked retry is never stranded: without outside help the run reaches a failure that
      nobody still has to acknowledge, and then the retrying thread replaces it. */
  lemma RetryIsNotStranded(s: State, r: Tid)
    requires Inv(s) && s.sh.phase.Failed? && ParkedRetry(s, r)
    ensures exists schedule: Schedule :: RetriesAfter(s, schedule, r)
  {
    FailureDrains(s, r);
    var drain: Schedule :| AcknowledgesTo(s, drain, 0, r);
    RunKeepsInv(s, drain);
    OthersLeaveParked(s, r, drain);
    var s1 := Exec(s, drain);
    var rouse := Rouse(s1, r);
    ExecConcat(s, drain, rouse);
    RetryRuns(Exec(s, drain + rouse), r, QUIET);
    assert RetriesAfter(s, drain + rouse, r);
  }

  // ------------------------------------------------------------------ stale registrations

  predicate Current(phase: Phase, attempt: nat) {
    phase.Ready? || Attempting(phase, attempt)
  }

  /** Every registration names the attempt the cache is working on, unless it is ready. This is
      what the assertions at src/opened/mod.rs:289, 429 and 438 expect. */
  ghost predicate RegistrationsCurrent(s: State) {
    forall t, k | t in s.pcs && Live(s.pcs[t], k) :: Current(s.sh.phase, k)
  }

  predicate TransientEnd(s: State, t: Tid, c: Choice) {
    t in s.pcs && s.pcs[t].Scanning? && s.pcs[t].call.Context? && c.end.Transient?
  }

  /** The transient end of a context builder on whose attempt somebody is registered. */
  predicate StrandsWaiters(s: State, t: Tid, c: Choice) {
    TransientEnd(s, t, c) && s.sh.phase.Building? && s.sh.phase.waiters > 0
  }

  lemma NobodyLive(s: State, w: Tid, j: nat)
    requires Inv(s) && RegistrationsCurrent(s) && s.sh.phase.Building? && s.sh.phase.waiters == 0
    ensures w in s.pcs ==> !Live(s.pcs[w], j)
  {
    var k := s.sh.phase.attempt;
    assert LiveOn(s.pcs, k) == {};
    if w in s.pcs {
      if j == k {
        assert w !in LiveOn(s.pcs, k);
      } else {
        assert !Current(s.sh.phase, j);
      }
    }
  }

  lemma TurnKeepsAttempt(sh: Shared, pc: Pc, c: Choice, k: nat)
    requires TurnReady(sh, pc) && Attempting(sh.phase, k) && (sh.phase.Failed? ==> sh.phase.pending > 0)
    requires !(pc.Scanning? && pc.call.Context? && c.end.Transient?)
    ensures Current(Turn(sh, pc, c).0.phase, k)
  {
  }

  lemma TurnRegistersCurrent(sh: Shared, pc: Pc, c: Choice, k: nat)
    requires TurnReady(sh, pc) && Live(Turn(sh, pc, c).1, k)
    requires Live(pc, k) ==> Current(sh.phase, k)
    ensures Current(Turn(sh, pc, c).0.phase, k)
  {
  }

  lemma KeepsCurrent(s: State, t: Tid, c: Choice)
    requires Inv(s) && RegistrationsCurrent(s) && t in s.pcs && !TransientEnd(s, t, c)
    ensures RegistrationsCurrent(Next(s, t, c))
  {
    var s' := Next(s, t, c);
    InvMakesReady(s, t);
    TurnIsLocal(s.sh, s.pcs[t], c);
    forall w, k | w in s'.pcs && Live(s'.pcs[w], k)
      ensures Current(s'.sh.phase, k)
    {
      if w == t {
        TurnRegistersCurrent(s.sh, s.pcs[t], c, k);
      } else {
        assert Live(s.pcs[w], k);
        assert w in LiveOn(s.pcs, k);
        assert Current(s.sh.phase, k);
        if !s.sh.phase.Ready? {
          TurnKeepsAttempt(s.sh, s.pcs[t], c, k);
        }
      }
    }
  }

  /** A step makes some registration stale if and only if it is the transient end of a context
      builder and somebody is registered on that attempt. */
  lemma StaleExactlyAfterTransientEnd(s: State, t: Tid, c: Choice)
    requires Inv(s) && RegistrationsCurrent(s)
    ensures RegistrationsCurrent(Next(s, t, c)) <==> !StrandsWaiters(s, t, c)
  {
    var s' := Next(s, t, c);
    if TransientEnd(s, t, c) {
      var k := s.sh.phase.attempt;
      assert s'.sh.phase.Absent?;
      if s.sh.phase.waiters > 0 {
        var w :| w in LiveOn(s.pcs, k);
        assert w in s'.pcs && Live(s'.pcs[w], k) && !Current(s'.sh.phase, k);
      } else {
        assert LiveOn(s.pcs, k) == {};
        forall w, j | w in s'.pcs ensures !Live(s'.pcs[w], j) {
          NobodyLive(s, w, j);
        }
      }
    } else if t in s.pcs {
      KeepsCurrent(s, t, c);
    }
  }

  ghost predicate CurrentAfter(s: State, schedule: Schedule, n: nat)
    requires n <= |schedule|
  {
    RegistrationsCurrent(Exec(s, schedule[..n]))
  }

  predicate StrandsAt(s: State, schedule: Schedule, n: nat)
    requires n < |schedule|
  {
    StrandsWaiters(Exec(s, schedule[..n]), schedule[n].0, schedule[n].1)
  }

  lemma Extend(s: State, schedule: Schedule, t: Tid, c: Choice)
    ensures Exec(s, schedule + [(t, c)]) == Next(Exec(s, schedule), t, c)
  {
    ExecConcat(s, schedule, [(t, c)]);
    var last := Exec(s, schedule);
    assert [(t, c)][1..] == [];
    assert Exec(last, [(t, c)]) == Exec(Next(last, t, c), []);
  }

  lemma {:induction false} CurrentBefore(s: State, schedule: Schedule, n: nat)
    requires Inv(s) && RegistrationsCurrent(s) && n <= |schedule|
    requires forall i | 0 <= i < n :: !StrandsAt(s, schedule, i)
    ensures CurrentAfter(s, schedule, n)
  {
    if n == 0 {
      assert schedule[..0] == [];
    } else {
      CurrentBefore(s, schedule, n - 1);
      var before := Exec(s, schedule[..n - 1]);
      var (t, c) := schedule[n - 1];
      RunKeepsInv(s, schedule[..n - 1]);
      StaleExactlyAfterTransientEnd(before, t, c);
      assert !StrandsAt(s, schedule, n - 1);
      assert schedule[..n] == schedule[..n - 1] + [(t, c)];
      Extend(s, schedule[..n - 1], t, c);
    }
  }

  lemma CurrentAround(s: State, schedule: Schedule, n: nat)
    requires Inv(s) && n < |schedule| && CurrentAfter(s, schedule, n) && CurrentAfter(s, schedule, n + 1)
    ensures !StrandsAt(s, schedule, n)
  {
    var (t, c) := schedule[n];
    RunKeepsInv(s, schedule[..n]);
    StaleExactlyAfterTransientEnd(Exec(s, schedule[..n]), t, c);
    assert schedule[..n + 1] == schedule[..n] + [(t, c)];
    Extend(s, schedule[..n], t, c);
  }

  /** The run-level condition: every registration is current in every state of a run, and the
      assertions of the source hold, exactly when no step of the run is the transient end of a
      context builder on whose attempt somebody is registered. */
  lemma RunStaysCurrentExactly(s: State, schedule: Schedule)
    requires Inv(s) && RegistrationsCurrent(s)
    ensures (forall n | 0 <= n <= |schedule| :: CurrentAfter(s, schedule, n)) <==>
            (forall n | 0 <= n < |schedule| :: !StrandsAt(s, schedule, n))
  {
    if forall n | 0 <= n < |schedule| :: !StrandsAt(s, schedule, n) {
      forall n | 0 <= n <= |schedule| ensures CurrentAfter(s, schedule, n) {
        CurrentBefore(s, schedule, n);
      }
    }
    if forall n | 0 <= n <= |schedule| :: CurrentAfter(s, schedule, n) {
      forall n | 0 <= n < |schedule| ensures !StrandsAt(s, schedule, n) {
        CurrentAround(s, schedule, n);
      }
    }
  }

  /** `w` is parked with a registration on attempt 1 while attempt 2 is being built uncounted, and
      after the builder's failure its next turn returns attempt 2's error. */
  ghost predicate HandsOverNewerFailure(s: State, w: Tid, n: Tid, plain: Choice, e: CachedError) {
    && w in s.pcs && n in s.pcs
    && s.sh.phase == Building(2, 0) && s.pcs[w] == Parked(Plain, Some(1), false)
    && !RegistrationsCurrent(s)
    && var s' := Next(Next(s, n, plain), w, plain);
       s'.sh.phase == Failed(2, e, 0) && s'.pcs[w] == Returned(Cached(e))
  }

  lemma FourSteps(s: State, schedule: Schedule)
    requires |schedule| == 4
    ensures Exec(s, schedule) ==
            Next(Next(Next(Next(s, schedule[0].0, schedule[0].1), schedule[1].0, schedule[1].1),
                      schedule[2].0, schedule[2].1), schedule[3].0, schedule[3].1)
  {
    Extend(s, [], schedule[0].0, schedule[0].1);
    Extend(s, schedule[..1], schedule[1].0, schedule[1].1);
    Extend(s, schedule[..2], schedule[2].0, schedule[2].1);
    Extend(s, schedule[..3], schedule[3].0, schedule[3].1);
    assert schedule[..1] == [] + [schedule[0]] && schedule[..2] == schedule[..1] + [schedule[1]];
    assert schedule[..3] == schedule[..2] + [schedule[2]] && schedule == schedule[..3] + [schedule[3]];
  }

  lemma RegisterThenCancel(s: State, b: Tid, w: Tid, context: Choice, plain: Choice) returns (schedule: Schedule)
    requires b != w && b in s.pcs && w in s.pcs && s.sh == Shared(1, Absent) && s.pcs[b] == s.pcs[w] == Idle
    requires context == Choice(Context, false, Transient) && plain.call == Plain
    ensures Exec(s, schedule) ==
            State(Shared(2, Building(1, 1)), s.pcs[b := Scanning(Context, 1)][w := Parked(Plain, Some(1), false)])
  {
    var s1 := Next(Next(s, b, context), b, context);
    assert s1 == State(Shared(2, Building(1, 0)), s.pcs[b := Scanning(Context, 1)]);
    schedule := [(b, context), (b, context), (w, plain), (w, plain)];
    FourSteps(s, schedule);
  }

  lemma CancelThenElect(s: State, b: Tid, w: Tid, n: Tid, context: Choice, plain: Choice) returns (schedule: Schedule)
    requires b != w && b != n && w != n && b in s.pcs && w in s.pcs && n in s.pcs
    requires s.sh == Shared(2, Building(1, 1)) && s.pcs[b] == Scanning(Context, 1) && s.pcs[n] == Idle
    requires s.pcs[w] == Parked(Plain, Some(1), false)
    requires context == Choice(Context, false, Transient) && plain.call == Plain
    ensures var s' := Exec(s, schedule);
            && s'.sh == Shared(3, Building(2, 0))
            && s'.pcs[w] == Parked(Plain, Some(1), true) && s'.pcs[n] == Scanning(Plain, 2)
  {
    var s1 := Next(s, b, context);
    assert s1 == State(Shared(2, Absent), s.pcs[b := Announcing(Uncached, true)]);
    var s2 := Next(s1, b, context);
    assert s2.sh == Shared(2, Absent) && s2.pcs[w] == Parked(Plain, Some(1), true) && s2.pcs[n] == Idle;
    schedule := [(b, context), (b, context), (n, plain), (n, plain)];
    FourSteps(s, schedule);
  }

  lemma StaleWake(s: State, w: Tid, n: Tid, plain: Choice, e: CachedError)
    requires w != n && w in s.pcs && n in s.pcs && plain == Choice(Plain, false, Cacheable(e))
    requires s.sh == Shared(3, Building(2, 0)) && s.pcs[w] == Parked(Plain, Some(1), true)
             && s.pcs[n] == Scanning(Plain, 2)
    ensures HandsOverNewerFailure(Next(s, w, plain), w, n, plain, e)
  {
    var s1 := Next(s, w, plain);
    assert Live(s1.pcs[w], 1) && !Current(s1.sh.phase, 1);
    assert Next(s1, n, plain) == State(Shared(3, Failed(2, e, 0)), s1.pcs[n := Announcing(Cached(e), false)]);
  }

  /** The documented rule that a caller which observes `Building` is registered on that attempt
      (src/opened/mod.rs:165-172) fails for plain callers. Thread `w` registers on attempt 1,
      whose context builder `b` is cancelled; thread `n` elects attempt 2; `w` wakes, waits on
      attempt 2 without being counted, and is handed attempt 2's failure. */
  lemma StaleWaiterSeesNewerAttempt(b: Tid, w: Tid, n: Tid, context: Choice, plain: Choice, e: CachedError)
    requires b != w && b != n && w != n
    requires context == Choice(Context, false, Transient) && plain == Choice(Plain, false, Cacheable(e))
    ensures exists setup: Schedule :: HandsOverNewerFailure(Exec(Init({b, w, n}), setup), w, n, plain, e)
  {
    var s0 := Init({b, w, n});
    var first := RegisterThenCancel(s0, b, w, context, plain);
    var second := CancelThenElect(Exec(s0, first), b, w, n, context, plain);
    ExecConcat(s0, first, second);
    StaleWake(Exec(s0, first + second), w, n, plain, e);
    Extend(s0, first + second, w, plain);
    assert HandsOverNewerFailure(Exec(s0, first + second + [(w, plain)]), w, n, plain, e);
  }
}
