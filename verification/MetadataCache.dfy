/** The single-flight metadata cache (src/opened/mod.rs).

    One lock acquisition of the source is one `...Pass` function here, and one method of
    `MetadataState` that performs it on mutable fields. `MetadataProtocol` interleaves
    these sections over any number of threads. */
module MetadataCache {
  import opened Wrappers
  import opened Words

  const USIZE_MAX: nat := 0xFFFF_FFFF_FFFF_FFFF

  datatype VcdMeta = VcdMeta(signalCount: nat, startTime: nat, endTime: nat)

  datatype CachedError =
    | GenerationMismatch
    | Io(kind: nat, message: string)
    | MissingEndDefinitions
    | DuplicateSignal(signal: string)
    | MissingSignals(signals: string)
    | MissingSignal(name: string)
    | InvalidOccurrence
    | Parse(text: string)
    | BuilderPanicked

  datatype Phase =
    | Absent
    | Building(attempt: nat, waiters: nat)
    | Ready(meta: VcdMeta)
    | Failed(attempt: nat, error: CachedError, pending: nat)

  /** The value guarded by the mutex. */
  datatype Shared = Shared(nextAttempt: nat, phase: Phase)

  datatype Call = Plain | Context | Retry

  /** What a call returns. `Uncached` stands for cancellation, deadline, command limit and
      every other error that is never stored in the cache. */
  datatype Outcome =
    | Success(meta: VcdMeta)
    | Cached(error: CachedError)
    | Uncached
    | AttemptsExhausted
    | Unwound

  /** How a builder closure ends; `Transient` is a query error the cache does not keep. */
  datatype BuildEnd = Built(meta: VcdMeta) | Cacheable(error: CachedError) | Transient | Panics

  /** What a thread does after it releases the lock. */
  datatype Verdict =
    | Leave(outcome: Outcome)
    | Release(attempt: nat, outcome: Outcome)
    | Park(registration: Option<nat>)
    | Elected(attempt: nat)
    | Announce(outcome: Outcome)
    | ReenterPlain
    | AttemptChanged

  /** `usize` subtraction of release builds: zero wraps around. */
  function WrappingDecrement(n: nat): nat {
    if n == 0 then USIZE_MAX else n - 1
  }

  function Elect(sh: Shared): (Shared, Verdict) {
    if sh.nextAttempt >= U64_MAX then (sh, Leave(AttemptsExhausted))
    else (Shared(sh.nextAttempt + 1, Building(sh.nextAttempt, 0)), Elected(sh.nextAttempt))
  }

  /** One turn of the loop of `get_or_build_with_context`. */
  function ContextPass(sh: Shared, registration: Option<nat>, policyFails: bool): (Shared, Verdict) {
    match sh.phase
    case Ready(meta) =>
      if !policyFails then (sh, Leave(Success(meta)))
      else if registration.Some? then (sh, Release(registration.value, Uncached))
      else (sh, Leave(Uncached))
    case Failed(_, error, _) =>
      if registration.Some? then (sh, Release(registration.value, Cached(error)))
      else (sh, Leave(if policyFails then Uncached else Cached(error)))
    case Building(attempt, waiters) =>
      var sh' := if registration == Some(attempt) then sh else sh.(phase := Building(attempt, waiters + 1));
      (sh', if policyFails then Release(attempt, Uncached) else Park(Some(attempt)))
    case Absent =>
      if policyFails then (sh, Leave(Uncached)) else Elect(sh)
  }

  /** One turn of the loop of `get_or_build`. */
  function PlainPass(sh: Shared, waitingFor: Option<nat>): (Shared, Verdict) {
    match sh.phase
    case Ready(meta) => (sh, Leave(Success(meta)))
    case Failed(attempt, error, pending) =>
      if waitingFor == Some(attempt) then
        var pending' := WrappingDecrement(pending);
        (sh.(phase := Failed(attempt, error, pending')),
         if pending' == 0 then Announce(Cached(error)) else Leave(Cached(error)))
      else (sh, Leave(Cached(error)))
    case Building(attempt, waiters) =>
      if waitingFor.None? then (sh.(phase := Building(attempt, waiters + 1)), Park(Some(attempt)))
      else (sh, Park(waitingFor))
    case Absent => Elect(sh)
  }

  /** One turn of the loop of `retry_failed`. */
  function RetryPass(sh: Shared): (Shared, Verdict) {
    match sh.phase
    case Failed(_, _, pending) =>
      if pending == 0 then (sh.(phase := Absent), ReenterPlain) else (sh, Park(None))
    case _ => (sh, ReenterPlain)
  }

  /** A builder publishes how its closure ended. A panic is published by the build guard. */
  function PublishPass(sh: Shared, attempt: nat, end: BuildEnd): (Shared, Verdict) {
    if sh.phase.Building? && sh.phase.attempt == attempt then
      match end
      case Built(meta) => (sh.(phase := Ready(meta)), Announce(Success(meta)))
      case Cacheable(error) => (sh.(phase := Failed(attempt, error, sh.phase.waiters)), Announce(Cached(error)))
      case Transient => (sh.(phase := Absent), Announce(Uncached))
      case Panics => (sh.(phase := Failed(attempt, BuilderPanicked, sh.phase.waiters)), Announce(Unwound))
    else (sh, if end.Panics? then Leave(Unwound) else AttemptChanged)
  }

  /** Dropping an active waiter registration; the flag asks for a `notify_all`. */
  function DropPass(sh: Shared, attempt: nat): (Shared, bool) {
    match sh.phase
    case Building(active, waiters) =>
      (if active == attempt then sh.(phase := Building(active, WrappingDecrement(waiters))) else sh, false)
    case Failed(failed, error, pending) =>
      if failed == attempt then
        (sh.(phase := Failed(failed, error, WrappingDecrement(pending))), WrappingDecrement(pending) == 0)
      else (sh, false)
    case _ => (sh, false)
  }

  /** The mutex-guarded record, updated in place by each locked section. */
  class MetadataState {
    var nextAttempt: nat
    var phase: Phase

    constructor ()
      ensures Value() == Shared(1, Absent)
    {
      nextAttempt, phase := 1, Absent;
    }

    function Value(): Shared
      reads this
    {
      Shared(nextAttempt, phase)
    }

    method TryElect() returns (verdict: Verdict)
      modifies this
      ensures (Value(), verdict) == Elect(old(Value()))
    {
      if nextAttempt >= U64_MAX {
        return Leave(AttemptsExhausted);
      }
      var attempt := nextAttempt;
      nextAttempt := nextAttempt + 1;
      phase := Building(attempt, 0);
      verdict := Elected(attempt);
    }

    method ContextTurn(registration: Option<nat>, policyFails: bool) returns (verdict: Verdict)
      modifies this
      ensures (Value(), verdict) == ContextPass(old(Value()), registration, policyFails)
    {
      match phase
      case Ready(meta) =>
        if !policyFails {
          verdict := Leave(Success(meta));
        } else if registration.Some? {
          verdict := Release(registration.value, Uncached);
        } else {
          verdict := Leave(Uncached);
        }
      case Failed(_, error, _) =>
        if registration.Some? {
          verdict := Release(registration.value, Cached(error));
        } else {
          verdict := Leave(if policyFails then Uncached else Cached(error));
        }
      case Building(attempt, waiters) =>
        // A registration on an older attempt is disarmed and replaced.
        if registration != Some(attempt) {
          phase := Building(attempt, waiters + 1);
        }
        verdict := if policyFails then Release(attempt, Uncached) else Park(Some(attempt));
      case Absent =>
        if policyFails {
          verdict := Leave(Uncached);
        } else {
          verdict := TryElect();
        }
    }

    method PlainTurn(waitingFor: Option<nat>) returns (verdict: Verdict)
      modifies this
      ensures (Value(), verdict) == PlainPass(old(Value()), waitingFor)
    {
      match phase
      case Ready(meta) => verdict := Leave(Success(meta));
      case Failed(attempt, error, pending) =>
        verdict := Leave(Cached(error));
        if waitingFor == Some(attempt) {
          phase := Failed(attempt, error, WrappingDecrement(pending));
          if phase.pending == 0 {
            verdict := Announce(Cached(error));
          }
        }
      case Building(attempt, waiters) =>
        if waitingFor.None? {
          phase := Building(attempt, waiters + 1);
          verdict := Park(Some(attempt));
        } else {
          verdict := Park(waitingFor);
        }
      case Absent => verdict := TryElect();
    }

    method RetryTurn() returns (verdict: Verdict)
      modifies this
      ensures (Value(), verdict) == RetryPass(old(Value()))
    {
      if phase.Failed? && phase.pending > 0 {
        verdict := Park(None);
      } else {
        if phase.Failed? {
          phase := Absent;
        }
        verdict := ReenterPlain;
      }
    }

    method Publish(attempt: nat, end: BuildEnd) returns (verdict: Verdict)
      modifies this
      ensures (Value(), verdict) == PublishPass(old(Value()), attempt, end)
    {
      if !phase.Building? || phase.attempt != attempt {
        return if end.Panics? then Leave(Unwound) else AttemptChanged;
      }
      var waiters := phase.waiters;
      match end
      case Built(meta) => phase := Ready(meta); verdict := Announce(Success(meta));
      case Cacheable(error) => phase := Failed(attempt, error, waiters); verdict := Announce(Cached(error));
      case Transient => phase := Absent; verdict := Announce(Uncached);
      case Panics => phase := Failed(attempt, BuilderPanicked, waiters); verdict := Announce(Unwound);
    }

    method DropRegistration(attempt: nat) returns (notify: bool)
      modifies this
      ensures (Value(), notify) == DropPass(old(Value()), attempt)
    {
      notify := false;
      if phase.Building? && phase.attempt == attempt {
        phase := Building(attempt, WrappingDecrement(phase.waiters));
      } else if phase.Failed? && phase.attempt == attempt {
        phase := Failed(attempt, phase.error, WrappingDecrement(phase.pending));
        notify := phase.pending == 0;
      }
    }
  }
}
