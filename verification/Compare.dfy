/** The merge of two signal timelines (src/query/compare.rs). */
module Compare {
  import opened Wrappers
  import opened Words
  import opened Decimals
  import opened Values

  const CONTEXT_CHECK_INTERVAL: nat := 4096

  datatype Change = Change(time: u64, value: ChangeValue)

  type Timeline = seq<Change>

  datatype Mismatch = Mismatch(signal: string, time: nat, value1: ChangeValue, value2: ChangeValue, isUnknown: bool)

  datatype Options = Options(maxMismatches: Option<nat>, ignoreUnknown: bool)

  // ------------------------------------------------------------------ matching values

  predicate EqIgnoreAsciiCase(a: string, b: string) {
    Lower(a) == Lower(b)
  }

  predicate IsUnknown(v: ChangeValue) {
    v.Text? && (EqIgnoreAsciiCase(v.text, "x") || EqIgnoreAsciiCase(v.text, "z"))
  }

  predicate ValuesMatch(a: ChangeValue, b: ChangeValue, ignoreUnknown: bool) {
    || (ignoreUnknown && (IsUnknown(a) || IsUnknown(b)))
    || (match (a, b)
        case (Integer(i), Integer(j)) => i == j
        case (Float(p, _), Float(q, _)) => p == q
        case (Text(s), Text(t)) => EqIgnoreAsciiCase(s, t)
        case _ => Normalize(a) == Normalize(b))
  }

  const UNKNOWN := Text("x")

  function MismatchAt(signal: string, time: nat, a: ChangeValue, b: ChangeValue): Mismatch {
    Mismatch(signal, time, a, b, IsUnknown(a) || IsUnknown(b))
  }

  // ------------------------------------------------------------------ the pointwise specification

  /** The latest value before `time` in timeline order, initially unknown. */
  function ValueBefore(tl: Timeline, time: nat): ChangeValue {
    if tl == [] then UNKNOWN
    else if tl[|tl| - 1].time < time then tl[|tl| - 1].value
    else ValueBefore(tl[..|tl| - 1], time)
  }

  function ValueAt(tl: Timeline, time: nat): ChangeValue {
    ValueBefore(tl, time + 1)
  }

  predicate Stamped(tl: Timeline, time: nat) {
    exists i :: 0 <= i < |tl| && tl[i].time == time
  }

  /** The two timelines disagree at an instant at which one of them changes. */
  predicate Differ(first: Timeline, second: Timeline, ignoreUnknown: bool, time: nat) {
    && (Stamped(first, time) || Stamped(second, time))
    && !ValuesMatch(ValueAt(first, time), ValueAt(second, time), ignoreUnknown)
  }

  /** Every disagreement at an instant in `[lo, hi)`, in time order. */
  function Pointwise(signal: string, first: Timeline, second: Timeline, ignoreUnknown: bool, lo: nat, hi: nat):
      seq<Mismatch>
    decreases hi - lo
  {
    if lo >= hi then []
    else
      (if Differ(first, second, ignoreUnknown, lo)
       then [MismatchAt(signal, lo, ValueAt(first, lo), ValueAt(second, lo))] else [])
      + Pointwise(signal, first, second, ignoreUnknown, lo + 1, hi)
  }

  /** `max_mismatches` is tested after a mismatch has been recorded, so zero still keeps one. */
  function Cut(ms: seq<Mismatch>, cap: Option<nat>): seq<Mismatch> {
    if cap.None? then ms
    else
      var keep := if cap.value == 0 then 1 else cap.value;
      if |ms| <= keep then ms else ms[..keep]
  }

  // ------------------------------------------------------------------ the merge

  function TimeFrom(tl: Timeline, i: nat): u64 {
    if i < |tl| then tl[i].time else U64_MAX
  }

  function NextTime(first: Timeline, second: Timeline, i: nat, j: nat): u64 {
    if TimeFrom(first, i) < TimeFrom(second, j) then TimeFrom(first, i) else TimeFrom(second, j)
  }

  /** The end of the run of entries at `time` that starts at `i`. */
  function Skip(tl: Timeline, i: nat, time: nat): (j: nat)
    requires i <= |tl|
    ensures i <= j <= |tl|
    ensures i < |tl| && tl[i].time == time ==> i < j
    decreases |tl| - i
  {
    if i < |tl| && tl[i].time == time then Skip(tl, i + 1, time) else i
  }

  /** The value after that run. */
  function Latest(tl: Timeline, i: nat, time: nat, current: ChangeValue): ChangeValue
    requires i <= |tl|
    decreases |tl| - i
  {
    if i < |tl| && tl[i].time == time then Latest(tl, i + 1, time, tl[i].value) else current
  }

  function Merge(signal: string, first: Timeline, second: Timeline, options: Options, i: nat, j: nat,
                 current1: ChangeValue, current2: ChangeValue, count: nat): seq<Mismatch>
    requires i <= |first| && j <= |second|
    decreases |first| - i + |second| - j
  {
    if i == |first| && j == |second| then []
    else
      var time := NextTime(first, second, i, j);
      if time == U64_MAX then []
      else
        var value1, value2 := Latest(first, i, time, current1), Latest(second, j, time, current2);
        var i', j' := Skip(first, i, time), Skip(second, j, time);
        if ValuesMatch(value1, value2, options.ignoreUnknown) then
          Merge(signal, first, second, options, i', j', value1, value2, count)
        else
          [MismatchAt(signal, time, value1, value2)] +
          if options.maxMismatches.Some? && count + 1 >= options.maxMismatches.value then []
          else Merge(signal, first, second, options, i', j', value1, value2, count + 1)
  }

  /** One round of the merge. */
  lemma MergeRound(signal: string, first: Timeline, second: Timeline, options: Options, i: nat, j: nat,
                   current1: ChangeValue, current2: ChangeValue, count: nat, time: nat)
    requires i <= |first| && j <= |second| && (i < |first| || j < |second|)
    requires time == NextTime(first, second, i, j) < U64_MAX
    ensures var value1, value2 := Latest(first, i, time, current1), Latest(second, j, time, current2);
            var i', j' := Skip(first, i, time), Skip(second, j, time);
            Merge(signal, first, second, options, i, j, current1, current2, count) ==
            if ValuesMatch(value1, value2, options.ignoreUnknown) then
              Merge(signal, first, second, options, i', j', value1, value2, count)
            else
              [MismatchAt(signal, time, value1, value2)] +
              if options.maxMismatches.Some? && count + 1 >= options.maxMismatches.value then []
              else Merge(signal, first, second, options, i', j', value1, value2, count + 1)
  {
  }

  function Report(signal: string, first: Timeline, second: Timeline, options: Options): seq<Mismatch> {
    Merge(signal, first, second, options, 0, 0, UNKNOWN, UNKNOWN, 0)
  }

  /** The inner loops of the merge: the run of entries at `time`, with a policy check at every
      4096th unit of work. */
  method DrainRun(tl: Timeline, start: nat, time: u64, initial: ChangeValue, work: nat, context: QueryContext)
    returns (ok: bool, i: nat, current: ChangeValue, work': nat)
    requires start <= |tl|
    modifies context
    ensures ok ==>
              i == Skip(tl, start, time) && current == Latest(tl, start, time, initial) && work' == work + (i - start)
    ensures old(context.checksLeft).None? ==> ok && context.checksLeft.None?
    ensures old(context.checksLeft) == Some(0) ==>
              context.checksLeft == Some(0) && (ok && work < CONTEXT_CHECK_INTERVAL ==> work' < CONTEXT_CHECK_INTERVAL)
  {
    i, current, work' := start, initial, work;
    while i < |tl| && tl[i].time == time
      invariant start <= i <= |tl| && work' == work + (i - start)
      invariant Skip(tl, i, time) == Skip(tl, start, time)
      invariant Latest(tl, i, time, current) == Latest(tl, start, time, initial)
      invariant old(context.checksLeft).None? ==> context.checksLeft.None?
      invariant old(context.checksLeft) == Some(0) ==>
                  context.checksLeft == Some(0) && (work < CONTEXT_CHECK_INTERVAL ==> work' < CONTEXT_CHECK_INTERVAL)
    {
      work' := work' + 1;
      if work' % CONTEXT_CHECK_INTERVAL == 0 {
        ok := context.Check();
        if !ok {
          return;
        }
      }
      current := tl[i].value;
      i := i + 1;
    }
    ok := true;
  }

  ghost predicate AllBelow(tl: Timeline, hi: nat) {
    forall k | 0 <= k < |tl| :: tl[k].time < hi
  }

  lemma Recorded(before: seq<Mismatch>, m: Mismatch, rest: seq<Mismatch>)
    ensures before + ([m] + rest) == before + [m] + rest
  {
  }

  /** Both runs of one round. */
  method DrainBoth(first: Timeline, second: Timeline, i: nat, j: nat, time: u64, current1: ChangeValue,
                   current2: ChangeValue, work: nat, context: QueryContext)
    returns (ok: bool, i': nat, j': nat, value1: ChangeValue, value2: ChangeValue, work': nat)
    requires i <= |first| && j <= |second|
    modifies context
    ensures ok ==>
              && i' == Skip(first, i, time) && value1 == Latest(first, i, time, current1)
              && j' == Skip(second, j, time) && value2 == Latest(second, j, time, current2)
              && work' == work + (i' - i) + (j' - j)
    ensures old(context.checksLeft).None? ==> ok && context.checksLeft.None?
    ensures old(context.checksLeft) == Some(0) ==>
              context.checksLeft == Some(0) && (ok && work < CONTEXT_CHECK_INTERVAL ==> work' < CONTEXT_CHECK_INTERVAL)
  {
    ok, i', value1, work' := DrainRun(first, i, time, current1, work, context);
    j', value2 := j, current2;
    if ok {
      ok, j', value2, work' := DrainRun(second, j, time, current2, work', context);
    }
  }

  /** The loop of `compare_signal_timeline`. The merge terminates on every pair of timelines; a
      failing policy check leaves a prefix of the report. Once cancelled it records no mismatch,
      and it only succeeds if it drained fewer than 4096 entries. */
  method CompareTimeline(signal: string, first: Timeline, second: Timeline, options: Options, before: seq<Mismatch>,
                         context: QueryContext)
    returns (r: Result<nat, QueryError>, mismatches: seq<Mismatch>)
    modifies context
    ensures r.Ok? ==> mismatches == before + Report(signal, first, second, options)
                      && r.value == |Report(signal, first, second, options)|
    ensures r.Err? ==> r.error == Cancelled && before <= mismatches
                       && mismatches <= before + Report(signal, first, second, options)
    ensures old(context.checksLeft).None? ==> r.Ok? && context.checksLeft.None?
    ensures old(context.checksLeft) == Some(0) ==> mismatches == before
    ensures old(context.checksLeft) == Some(0) && r.Ok? && AllBelow(first, U64_MAX) && AllBelow(second, U64_MAX) ==>
              |first| + |second| < CONTEXT_CHECK_INTERVAL
  {
    ghost var all := before + Report(signal, first, second, options);
    mismatches := before;
    var i, j, count, work := 0, 0, 0, 0;
    var current1, current2 := UNKNOWN, UNKNOWN;
    while i < |first| || j < |second|
      invariant 0 <= i <= |first| && 0 <= j <= |second| && work == i + j
      invariant before <= mismatches && |mismatches| == |before| + count
      invariant mismatches + Merge(signal, first, second, options, i, j, current1, current2, count) == all
      invariant old(context.checksLeft).None? ==> context.checksLeft.None?
      invariant old(context.checksLeft) == Some(0) ==>
                  context.checksLeft == Some(0) && mismatches == before && work < CONTEXT_CHECK_INTERVAL
      decreases |first| - i + |second| - j
    {
      var time1 := if i < |first| then first[i].time else U64_MAX;
      var time2 := if j < |second| then second[j].time else U64_MAX;
      var time := if time1 < time2 then time1 else time2;
      if time == U64_MAX {
        break;
      }
      ghost var rest := Merge(signal, first, second, options, i, j, current1, current2, count);
      ghost var sofar := mismatches;
      MergeRound(signal, first, second, options, i, j, current1, current2, count, time);
      var ok;
      ok, i, j, current1, current2, work := DrainBoth(first, second, i, j, time, current1, current2, work, context);
      if !ok {
        return Err(Cancelled), mismatches;
      }
      if !ValuesMatch(current1, current2, options.ignoreUnknown) {
        ok := context.Check();
        if !ok {
          return Err(Cancelled), mismatches;
        }
        var m := MismatchAt(signal, time, current1, current2);
        mismatches := mismatches + [m];
        count := count + 1;
        if options.maxMismatches.Some? && count >= options.maxMismatches.value {
          assert rest == [m];
          break;
        }
        Recorded(sofar, m, Merge(signal, first, second, options, i, j, current1, current2, count));
      }
    }
    return Ok(count), mismatches;
  }
}
