/** The merge report equals its pointwise specification. */
module CompareTheorems {
  import opened Wrappers
  import opened Words
  import opened Decimals
  import opened Values
  import opened Compare

  predicate NonDecreasing(tl: Timeline) {
    forall i, j | 0 <= i <= j < |tl| :: tl[i].time <= tl[j].time
  }

  /** The entries before `i` are exactly those before `time`. */
  predicate SplitsAt(tl: Timeline, i: nat, time: nat) {
    && i <= |tl|
    && (forall k | 0 <= k < i :: tl[k].time < time)
    && (forall k | i <= k < |tl| :: tl[k].time >= time)
  }

  lemma {:induction false} ValueBeforeSplit(tl: Timeline, i: nat, time: nat)
    requires SplitsAt(tl, i, time)
    ensures ValueBefore(tl, time) == if i == 0 then UNKNOWN else tl[i - 1].value
  {
    if tl != [] && tl[|tl| - 1].time >= time {
      var init := tl[..|tl| - 1];
      assert i <= |init|;
      forall k | 0 <= k < |init| ensures init[k] == tl[k] {
      }
      ValueBeforeSplit(init, i, time);
    }
  }

  lemma {:induction false} DrainFrom(tl: Timeline, i: nat, k: nat, time: nat, current: ChangeValue)
    requires NonDecreasing(tl) && SplitsAt(tl, i, time)
    requires i <= k <= |tl| && forall n | i <= n < k :: tl[n].time == time
    ensures SplitsAt(tl, Skip(tl, k, time), time + 1)
    ensures Latest(tl, k, time, current) == if Skip(tl, k, time) == k then current else tl[Skip(tl, k, time) - 1].value
    decreases |tl| - k
  {
    if k < |tl| && tl[k].time == time {
      DrainFrom(tl, i, k + 1, time, tl[k].value);
    }
  }

  /** Draining the run at `time` moves the split to the next instant. */
  lemma {:induction false} DrainSplits(tl: Timeline, i: nat, time: nat, current: ChangeValue)
    requires NonDecreasing(tl) && SplitsAt(tl, i, time)
    ensures SplitsAt(tl, Skip(tl, i, time), time + 1)
    ensures Latest(tl, i, time, current) == if Skip(tl, i, time) == i then current else tl[Skip(tl, i, time) - 1].value
    decreases |tl| - i
  {
    DrainFrom(tl, i, i, time, current);
  }

  lemma DrainReachesValue(tl: Timeline, i: nat, time: nat, current: ChangeValue)
    requires NonDecreasing(tl) && SplitsAt(tl, i, time) && current == ValueBefore(tl, time)
    ensures SplitsAt(tl, Skip(tl, i, time), time + 1)
    ensures Latest(tl, i, time, current) == ValueAt(tl, time)
  {
    DrainSplits(tl, i, time, current);
    ValueBeforeSplit(tl, i, time);
    ValueBeforeSplit(tl, Skip(tl, i, time), time + 1);
  }

  /** Nothing happens in a timeline between two instants with the same split. */
  lemma SplitAdvances(tl: Timeline, i: nat, lo: nat, time: nat)
    requires NonDecreasing(tl) && SplitsAt(tl, i, lo) && lo <= time && (i < |tl| ==> time <= tl[i].time)
    ensures SplitsAt(tl, i, time) && ValueBefore(tl, time) == ValueBefore(tl, lo)
    ensures forall t | lo <= t < time :: !Stamped(tl, t)
    ensures Stamped(tl, time) <==> i < |tl| && tl[i].time == time
  {
    forall k | 0 <= k < i ensures tl[k].time < time {
    }
    ValueBeforeSplit(tl, i, lo);
    ValueBeforeSplit(tl, i, time);
  }

  lemma {:induction false} QuietInterval(signal: string, first: Timeline, second: Timeline, ignoreUnknown: bool,
                                         lo: nat, time: nat, hi: nat)
    requires lo <= time <= hi && forall t | lo <= t < time :: !Stamped(first, t) && !Stamped(second, t)
    ensures Pointwise(signal, first, second, ignoreUnknown, lo, hi) ==
            Pointwise(signal, first, second, ignoreUnknown, time, hi)
    decreases time - lo
  {
    if lo >= time {
    } else {
      assert !Stamped(first, lo) && !Stamped(second, lo);
      QuietInterval(signal, first, second, ignoreUnknown, lo + 1, time, hi);
    }
  }

  /** What is left of the cap after `count` mismatches. */
  function Left(options: Options, count: nat): Option<nat> {
    if options.maxMismatches.None? then None
    else Some(if options.maxMismatches.value <= count then 0 else options.maxMismatches.value - count)
  }

  lemma CutStep(m: Mismatch, rest: seq<Mismatch>, options: Options, count: nat)
    ensures Cut([m] + rest, Left(options, count)) ==
            [m] + if options.maxMismatches.Some? && count + 1 >= options.maxMismatches.value then []
                  else Cut(rest, Left(options, count + 1))
  {
  }

  ghost predicate Ready(tl: Timeline, i: nat, lo: nat, current: ChangeValue) {
    NonDecreasing(tl) && SplitsAt(tl, i, lo) && current == ValueBefore(tl, lo)
  }

  /** What one round does in one timeline. */
  lemma RoundInTimeline(tl: Timeline, i: nat, lo: nat, current: ChangeValue, time: nat)
    requires Ready(tl, i, lo, current) && lo <= time && (i < |tl| ==> time <= tl[i].time)
    ensures Ready(tl, Skip(tl, i, time), time + 1, Latest(tl, i, time, current))
    ensures Latest(tl, i, time, current) == ValueAt(tl, time)
    ensures forall t | lo <= t < time :: !Stamped(tl, t)
    ensures Stamped(tl, time) <==> i < |tl| && tl[i].time == time
  {
    SplitAdvances(tl, i, lo, time);
    DrainReachesValue(tl, i, time, current);
  }

  lemma PointwiseStep(signal: string, first: Timeline, second: Timeline, ignoreUnknown: bool, time: nat, hi: nat)
    requires time < hi && (Stamped(first, time) || Stamped(second, time))
    ensures var value1, value2 := ValueAt(first, time), ValueAt(second, time);
            Pointwise(signal, first, second, ignoreUnknown, time, hi) ==
            (if ValuesMatch(value1, value2, ignoreUnknown) then [] else [MismatchAt(signal, time, value1, value2)])
            + Pointwise(signal, first, second, ignoreUnknown, time + 1, hi)
  {
  }

  /** One round of the merge against the specification. */
  lemma RoundIsPointwise(signal: string, first: Timeline, second: Timeline, ignoreUnknown: bool, i: nat, j: nat,
                         current1: ChangeValue, current2: ChangeValue, lo: nat, hi: nat, time: nat)
    requires Ready(first, i, lo, current1) && Ready(second, j, lo, current2) && (i < |first| || j < |second|)
    requires time == NextTime(first, second, i, j) < hi
    ensures Ready(first, Skip(first, i, time), time + 1, Latest(first, i, time, current1))
    ensures Ready(second, Skip(second, j, time), time + 1, Latest(second, j, time, current2))
    ensures var value1, value2 := Latest(first, i, time, current1), Latest(second, j, time, current2);
            Pointwise(signal, first, second, ignoreUnknown, lo, hi) ==
            (if ValuesMatch(value1, value2, ignoreUnknown) then [] else [MismatchAt(signal, time, value1, value2)])
            + Pointwise(signal, first, second, ignoreUnknown, time + 1, hi)
  {
    RoundInTimeline(first, i, lo, current1, time);
    RoundInTimeline(second, j, lo, current2, time);
    QuietInterval(signal, first, second, ignoreUnknown, lo, time, hi);
    PointwiseStep(signal, first, second, ignoreUnknown, time, hi);
  }

  lemma NothingLeft(signal: string, first: Timeline, second: Timeline, ignoreUnknown: bool, current1: ChangeValue,
                    current2: ChangeValue, lo: nat, hi: nat)
    requires Ready(first, |first|, lo, current1) && Ready(second, |second|, lo, current2) && lo <= hi
    ensures Pointwise(signal, first, second, ignoreUnknown, lo, hi) == []
  {
    SplitAdvances(first, |first|, lo, hi);
    SplitAdvances(second, |second|, lo, hi);
    QuietInterval(signal, first, second, ignoreUnknown, lo, hi, hi);
  }

  lemma NextTimeInRange(first: Timeline, second: Timeline, i: nat, j: nat, lo: nat, hi: nat)
    requires i <= |first| && j <= |second| && (i < |first| || j < |second|)
    requires AllBelow(first, hi) && AllBelow(second, hi) && hi <= U64_MAX
    ensures NextTime(first, second, i, j) < hi
  {
  }

  /** Where the merge stands: everything before instant `lo` has been drained. */
  datatype Cursor = Cursor(i: nat, j: nat, current1: ChangeValue, current2: ChangeValue, count: nat, lo: nat)

  ghost predicate At(first: Timeline, second: Timeline, c: Cursor, hi: nat) {
    && Ready(first, c.i, c.lo, c.current1) && Ready(second, c.j, c.lo, c.current2)
    && c.lo <= hi <= U64_MAX && AllBelow(first, hi) && AllBelow(second, hi)
  }

  function MergeAt(signal: string, first: Timeline, second: Timeline, options: Options, c: Cursor): seq<Mismatch>
    requires c.i <= |first| && c.j <= |second|
  {
    Merge(signal, first, second, options, c.i, c.j, c.current1, c.current2, c.count)
  }

  function Expected(signal: string, first: Timeline, second: Timeline, options: Options, c: Cursor, hi: nat):
      seq<Mismatch>
  {
    Cut(Pointwise(signal, first, second, options.ignoreUnknown, c.lo, hi), Left(options, c.count))
  }

  function Advance(first: Timeline, second: Timeline, options: Options, c: Cursor): Cursor
    requires c.i <= |first| && c.j <= |second|
  {
    var time := NextTime(first, second, c.i, c.j);
    var value1, value2 := Latest(first, c.i, time, c.current1), Latest(second, c.j, time, c.current2);
    Cursor(Skip(first, c.i, time), Skip(second, c.j, time), value1, value2,
           if ValuesMatch(value1, value2, options.ignoreUnknown) then c.count else c.count + 1, time + 1)
  }

  lemma AdvanceStays(signal: string, first: Timeline, second: Timeline, options: Options, c: Cursor, hi: nat)
    requires At(first, second, c, hi) && (c.i < |first| || c.j < |second|)
    ensures At(first, second, Advance(first, second, options, c), hi)
    ensures var c' := Advance(first, second, options, c);
            |first| - c'.i + |second| - c'.j < |first| - c.i + |second| - c.j
  {
    NextTimeInRange(first, second, c.i, c.j, c.lo, hi);
    RoundIsPointwise(signal, first, second, options.ignoreUnknown, c.i, c.j, c.current1, c.current2, c.lo, hi,
                     NextTime(first, second, c.i, c.j));
  }

  /** The mismatch of the round at `c`, if any. */
  function Found(signal: string, first: Timeline, second: Timeline, options: Options, c: Cursor): seq<Mismatch>
    requires c.i <= |first| && c.j <= |second|
  {
    var c' := Advance(first, second, options, c);
    if ValuesMatch(c'.current1, c'.current2, options.ignoreUnknown) then []
    else [MismatchAt(signal, NextTime(first, second, c.i, c.j), c'.current1, c'.current2)]
  }

  lemma PointwiseFinds(signal: string, first: Timeline, second: Timeline, options: Options, c: Cursor, hi: nat)
    requires At(first, second, c, hi) && (c.i < |first| || c.j < |second|)
    ensures Pointwise(signal, first, second, options.ignoreUnknown, c.lo, hi) ==
            Found(signal, first, second, options, c)
            + Pointwise(signal, first, second, options.ignoreUnknown, Advance(first, second, options, c).lo, hi)
  {
    NextTimeInRange(first, second, c.i, c.j, c.lo, hi);
    RoundIsPointwise(signal, first, second, options.ignoreUnknown, c.i, c.j, c.current1, c.current2, c.lo, hi,
                     NextTime(first, second, c.i, c.j));
  }

  predicate CapReached(options: Options, count: nat) {
    options.maxMismatches.Some? && count >= options.maxMismatches.value
  }

  lemma CutFound(found: seq<Mismatch>, rest: seq<Mismatch>, options: Options, count: nat)
    requires |found| <= 1
    ensures Cut(found + rest, Left(options, count)) ==
            if found == [] then Cut(rest, Left(options, count))
            else found + if CapReached(options, count + 1) then [] else Cut(rest, Left(options, count + 1))
  {
    if found == [] {
      assert found + rest == rest;
    } else {
      CutStep(found[0], rest, options, count);
    }
  }

  /** The round of the merge in terms of cursors. */
  lemma MergeFinds(signal: string, first: Timeline, second: Timeline, options: Options, c: Cursor)
    requires c.i <= |first| && c.j <= |second| && (c.i < |first| || c.j < |second|)
             && NextTime(first, second, c.i, c.j) < U64_MAX
    ensures var c', found := Advance(first, second, options, c), Found(signal, first, second, options, c);
            && (found == [] ==> c'.count == c.count) && (found != [] ==> c'.count == c.count + 1)
            && MergeAt(signal, first, second, options, c) ==
               if found == [] then MergeAt(signal, first, second, options, c')
               else found + if CapReached(options, c'.count) then [] else MergeAt(signal, first, second, options, c')
  {
    MergeRound(signal, first, second, options, c.i, c.j, c.current1, c.current2, c.count,
               NextTime(first, second, c.i, c.j));
  }

  /** If the specification of the remaining rounds is `rest`, this round prepends its mismatch. */
  lemma RoundCuts(signal: string, first: Timeline, second: Timeline, options: Options, c: Cursor, rest: seq<Mismatch>)
    requires c.i <= |first| && c.j <= |second| && (c.i < |first| || c.j < |second|)
             && NextTime(first, second, c.i, c.j) < U64_MAX
    requires var c' := Advance(first, second, options, c);
             MergeAt(signal, first, second, options, c') == Cut(rest, Left(options, c'.count))
    ensures MergeAt(signal, first, second, options, c) ==
            Cut(Found(signal, first, second, options, c) + rest, Left(options, c.count))
  {
    MergeFinds(signal, first, second, options, c);
    CutFound(Found(signal, first, second, options, c), rest, options, c.count);
  }

  lemma AdvanceExpected(signal: string, first: Timeline, second: Timeline, options: Options, c: Cursor, hi: nat)
    requires At(first, second, c, hi) && (c.i < |first| || c.j < |second|)
    requires var c' := Advance(first, second, options, c);
             MergeAt(signal, first, second, options, c') == Expected(signal, first, second, options, c', hi)
    ensures MergeAt(signal, first, second, options, c) == Expected(signal, first, second, options, c, hi)
  {
    var c' := Advance(first, second, options, c);
    NextTimeInRange(first, second, c.i, c.j, c.lo, hi);
    PointwiseFinds(signal, first, second, options, c, hi);
    RoundCuts(signal, first, second, options, c, Pointwise(signal, first, second, options.ignoreUnknown, c'.lo, hi));
  }

  lemma {:induction false} MergeIsPointwise(signal: string, first: Timeline, second: Timeline, options: Options,
                                            c: Cursor, hi: nat)
    requires At(first, second, c, hi)
    ensures MergeAt(signal, first, second, options, c) == Expected(signal, first, second, options, c, hi)
    decreases |first| - c.i + |second| - c.j
  {
    if c.i == |first| && c.j == |second| {
      NothingLeft(signal, first, second, options.ignoreUnknown, c.current1, c.current2, c.lo, hi);
    } else {
      AdvanceStays(signal, first, second, options, c, hi);
      MergeIsPointwise(signal, first, second, options, Advance(first, second, options, c), hi);
      AdvanceExpected(signal, first, second, options, c, hi);
    }
  }

  /** For non-decreasing timelines with times below 2^64 - 1, the report is every disagreement of
      the two latest values, in time order, cut to the first max(1, m) when m is the cap. */
  lemma ReportIsPointwise(signal: string, first: Timeline, second: Timeline, options: Options, hi: nat)
    requires NonDecreasing(first) && NonDecreasing(second) && hi <= U64_MAX
    requires AllBelow(first, hi) && AllBelow(second, hi)
    ensures Report(signal, first, second, options) ==
            Cut(Pointwise(signal, first, second, options.ignoreUnknown, 0, hi), options.maxMismatches)
  {
    ValueBeforeSplit(first, 0, 0);
    ValueBeforeSplit(second, 0, 0);
    MergeIsPointwise(signal, first, second, options, Cursor(0, 0, UNKNOWN, UNKNOWN, 0, 0), hi);
  }

  /** The pointwise list is empty exactly when the timelines agree everywhere. */
  lemma {:induction false} PointwiseEmpty(signal: string, first: Timeline, second: Timeline, ignoreUnknown: bool,
                                          lo: nat, hi: nat)
    ensures Pointwise(signal, first, second, ignoreUnknown, lo, hi) == [] <==>
            forall t | lo <= t < hi :: !Differ(first, second, ignoreUnknown, t)
    decreases hi - lo
  {
    if lo >= hi {
    } else {
      PointwiseEmpty(signal, first, second, ignoreUnknown, lo + 1, hi);
    }
  }

  // ------------------------------------------------------------------ which values match

  /** The value is one of the texts x and z, in either case. */
  predicate Undefined(v: ChangeValue) {
    v.Text? && (SameUpToCase(v.text, "x") || SameUpToCase(v.text, "z"))
  }

  lemma UndefinedIsUnknown(v: ChangeValue)
    ensures IsUnknown(v) <==> Undefined(v)
  {
    if v.Text? {
      NormalizedTextsAgree(v.text, "x");
      NormalizedTextsAgree(v.text, "z");
    }
  }

  /** Two floats agree on their bits, any other two values on their normal forms. */
  predicate Agree(a: ChangeValue, b: ChangeValue) {
    if a.Float? && b.Float? then a.bits == b.bits else Normalize(a) == Normalize(b)
  }

  /** Two values match exactly when they agree, or when unknown values are ignored and one of them
      is unknown. */
  lemma ValuesMatchExactly(a: ChangeValue, b: ChangeValue, ignoreUnknown: bool)
    ensures ValuesMatch(a, b, ignoreUnknown) <==> Agree(a, b) || (ignoreUnknown && (Undefined(a) || Undefined(b)))
  {
    UndefinedIsUnknown(a);
    UndefinedIsUnknown(b);
    if a.Integer? && b.Integer? {
      ShowIsCanonical(a.i);
      ShowIsCanonical(b.i);
    }
  }

  /** The value of an ordered timeline at an instant is that of its last entry up to then, and x
      before its first entry. */
  lemma ValueAtExactly(tl: Timeline, time: nat, i: nat)
    requires NonDecreasing(tl) && i <= |tl|
    requires (i > 0 ==> tl[i - 1].time <= time) && (i < |tl| ==> tl[i].time > time)
    ensures ValueAt(tl, time) == if i == 0 then Text("x") else tl[i - 1].value
  {
    ValueBeforeSplit(tl, i, time + 1);
  }

  /** What a comparison must record at an instant. */
  ghost predicate MustReport(m: Mismatch, signal: string, first: Timeline, second: Timeline, ignoreUnknown: bool) {
    && m.signal == signal && (Stamped(first, m.time) || Stamped(second, m.time))
    && m.value1 == ValueAt(first, m.time) && m.value2 == ValueAt(second, m.time)
    && !Agree(m.value1, m.value2) && !(ignoreUnknown && (Undefined(m.value1) || Undefined(m.value2)))
    && (m.isUnknown <==> Undefined(m.value1) || Undefined(m.value2))
  }

  ghost predicate TimesAscend(ms: seq<Mismatch>, lo: nat, hi: nat) {
    && (forall i | 0 <= i < |ms| :: lo <= ms[i].time < hi)
    && (forall i, j | 0 <= i < j < |ms| :: ms[i].time < ms[j].time)
  }

  lemma MustReportNow(m: Mismatch, signal: string, first: Timeline, second: Timeline, ignoreUnknown: bool, time: nat)
    requires m.time == time
    ensures MustReport(m, signal, first, second, ignoreUnknown) <==>
            Differ(first, second, ignoreUnknown, time)
            && m == MismatchAt(signal, time, ValueAt(first, time), ValueAt(second, time))
  {
    var a, b := ValueAt(first, time), ValueAt(second, time);
    ValuesMatchExactly(a, b, ignoreUnknown);
    UndefinedIsUnknown(a);
    UndefinedIsUnknown(b);
  }

  lemma {:induction false} PointwiseAscends(signal: string, first: Timeline, second: Timeline, ignoreUnknown: bool,
                                            lo: nat, hi: nat)
    ensures TimesAscend(Pointwise(signal, first, second, ignoreUnknown, lo, hi), lo, hi)
    decreases hi - lo
  {
    if lo < hi {
      PointwiseAscends(signal, first, second, ignoreUnknown, lo + 1, hi);
    }
  }

  lemma {:induction false} PointwiseExactly(signal: string, first: Timeline, second: Timeline, ignoreUnknown: bool,
                                            lo: nat, hi: nat, m: Mismatch)
    ensures m in Pointwise(signal, first, second, ignoreUnknown, lo, hi) <==>
            lo <= m.time < hi && MustReport(m, signal, first, second, ignoreUnknown)
    decreases hi - lo
  {
    if lo < hi {
      PointwiseExactly(signal, first, second, ignoreUnknown, lo + 1, hi, m);
      if m.time == lo {
        MustReportNow(m, signal, first, second, ignoreUnknown, lo);
      }
    }
  }

  /** Without a cap, the report of two ordered timelines holds, in strictly ascending time order,
      exactly the mismatches there are: at an instant of either timeline at which the two latest
      values do not match, with both values and whether one of them is unknown. */
  lemma ReportIsExact(signal: string, first: Timeline, second: Timeline, ignoreUnknown: bool, hi: nat, m: Mismatch)
    requires NonDecreasing(first) && NonDecreasing(second) && hi <= U64_MAX
    requires AllBelow(first, hi) && AllBelow(second, hi)
    ensures var report := Report(signal, first, second, Options(None, ignoreUnknown));
            && (m in report <==> m.time < hi && MustReport(m, signal, first, second, ignoreUnknown))
            && TimesAscend(report, 0, hi)
  {
    ReportIsPointwise(signal, first, second, Options(None, ignoreUnknown), hi);
    PointwiseExactly(signal, first, second, ignoreUnknown, 0, hi, m);
    PointwiseAscends(signal, first, second, ignoreUnknown, 0, hi);
  }

  // ------------------------------------------------------------------ arbitrary timelines

  lemma MatchesItself(v: ChangeValue, ignoreUnknown: bool)
    ensures ValuesMatch(v, v, ignoreUnknown)
  {
  }

  lemma {:induction false} MergeOfEqualsFrom(signal: string, tl: Timeline, options: Options, i: nat,
                                             current: ChangeValue, count: nat)
    requires i <= |tl|
    ensures Merge(signal, tl, tl, options, i, i, current, current, count) == []
    decreases |tl| - i
  {
    if i < |tl| && tl[i].time != U64_MAX {
      MatchesItself(Latest(tl, i, tl[i].time, current), options.ignoreUnknown);
      MergeOfEqualsFrom(signal, tl, options, Skip(tl, i, tl[i].time), Latest(tl, i, tl[i].time, current), count);
    }
  }

  /** A timeline compared with itself has no mismatches, even when its times go backwards. */
  lemma SelfComparisonIsEmpty(signal: string, tl: Timeline, options: Options)
    ensures Report(signal, tl, tl, options) == []
  {
    MergeOfEqualsFrom(signal, tl, options, 0, UNKNOWN, 0);
  }

  function Swapped(m: Mismatch): Mismatch {
    Mismatch(m.signal, m.time, m.value2, m.value1, m.isUnknown)
  }

  function SwapAll(ms: seq<Mismatch>): seq<Mismatch> {
    if ms == [] then [] else [Swapped(ms[0])] + SwapAll(ms[1..])
  }

  lemma MatchSymmetric(a: ChangeValue, b: ChangeValue, ignoreUnknown: bool)
    ensures ValuesMatch(a, b, ignoreUnknown) == ValuesMatch(b, a, ignoreUnknown)
  {
  }

  lemma SwapCons(signal: string, time: nat, value1: ChangeValue, value2: ChangeValue, rest: seq<Mismatch>)
    ensures SwapAll([MismatchAt(signal, time, value1, value2)] + rest) ==
            [MismatchAt(signal, time, value2, value1)] + SwapAll(rest)
  {
    assert ([MismatchAt(signal, time, value1, value2)] + rest)[1..] == rest;
  }

  lemma {:induction false} MergeSwaps(signal: string, first: Timeline, second: Timeline, options: Options, i: nat,
                                      j: nat, current1: ChangeValue, current2: ChangeValue, count: nat)
    requires i <= |first| && j <= |second|
    ensures Merge(signal, second, first, options, j, i, current2, current1, count) ==
            SwapAll(Merge(signal, first, second, options, i, j, current1, current2, count))
    decreases |first| - i + |second| - j
  {
    var time := NextTime(first, second, i, j);
    if (i == |first| && j == |second|) || time == U64_MAX {
    } else {
      var value1, value2 := Latest(first, i, time, current1), Latest(second, j, time, current2);
      var i', j' := Skip(first, i, time), Skip(second, j, time);
      var matched := ValuesMatch(value1, value2, options.ignoreUnknown);
      MergeRound(signal, first, second, options, i, j, current1, current2, count, time);
      MergeRound(signal, second, first, options, j, i, current2, current1, count, time);
      MatchSymmetric(value1, value2, options.ignoreUnknown);
      MergeSwaps(signal, first, second, options, i', j', value1, value2, if matched then count else count + 1);
      if !matched {
        SwapCons(signal, time, value1, value2,
                 if CapReached(options, count + 1) then []
                 else Merge(signal, first, second, options, i', j', value1, value2, count + 1));
      }
    }
  }

  /** Swapping the inputs swaps the two sides of every mismatch and changes nothing else. */
  lemma ComparisonIsSymmetric(signal: string, first: Timeline, second: Timeline, options: Options)
    ensures Report(signal, second, first, options) == SwapAll(Report(signal, first, second, options))
  {
    MergeSwaps(signal, first, second, options, 0, 0, UNKNOWN, UNKNOWN, 0);
  }

  // ------------------------------------------------------------------ the cap

  /** With a cap of `m`, no report on any two timelines has more than `m` mismatches. */
  ghost predicate Caps(m: nat) {
    forall signal, first, second, ignoreUnknown ::
      |Report(signal, first, second, Options(Some(m), ignoreUnknown))| <= m
  }

  /** From `count` mismatches on, the merge adds those that the cap leaves, and one in any case. */
  lemma {:induction false} MergeIsCapped(signal: string, first: Timeline, second: Timeline, options: Options, i: nat,
                                         j: nat, current1: ChangeValue, current2: ChangeValue, count: nat)
    requires i <= |first| && j <= |second| && options.maxMismatches.Some?
    ensures var m := options.maxMismatches.value;
            |Merge(signal, first, second, options, i, j, current1, current2, count)| <=
                if m <= count then 1 else m - count
    decreases |first| - i + |second| - j
  {
    var time := NextTime(first, second, i, j);
    if (i == |first| && j == |second|) || time == U64_MAX {
    } else {
      MergeRound(signal, first, second, options, i, j, current1, current2, count, time);
      var value1, value2 := Latest(first, i, time, current1), Latest(second, j, time, current2);
      var count' := if ValuesMatch(value1, value2, options.ignoreUnknown) then count else count + 1;
      MergeIsCapped(signal, first, second, options, Skip(first, i, time), Skip(second, j, time), value1, value2,
                    count');
    }
  }

  /** With a cap of zero, one change against an empty timeline is still reported. */
  lemma ZeroCapReports()
    ensures |Report("s", [Change(0, Text("0"))], [], Options(Some(0), false))| == 1
  {
    var first, second, options := [Change(0, Text("0"))], [], Options(Some(0), false);
    MergeRound("s", first, second, options, 0, 0, UNKNOWN, UNKNOWN, 0, 0);
    assert Skip(first, 1, 0) == 1 && Latest(first, 1, 0, Text("0")) == Text("0");
    assert Lower("0")[0] != Lower("x")[0];
  }

  /** The cap is respected on all timelines, ordered or not, exactly when it is not zero. */
  lemma CapsExactly(m: nat)
    ensures Caps(m) <==> m > 0
  {
    if m == 0 {
      ZeroCapReports();
    } else {
      forall signal, first, second, ignoreUnknown
        ensures |Report(signal, first, second, Options(Some(m), ignoreUnknown))| <= m
      {
        MergeIsCapped(signal, first, second, Options(Some(m), ignoreUnknown), 0, 0, UNKNOWN, UNKNOWN, 0);
      }
    }
  }

  // ------------------------------------------------------------------ all common signals

  type Timelines = map<string, Timeline>

  function TimelineOf(values: Timelines, signal: string): Timeline {
    if signal in values then values[signal] else []
  }

  function ReportAll(signals: seq<string>, values1: Timelines, values2: Timelines, options: Options): seq<Mismatch> {
    if signals == [] then []
    else
      var last := signals[|signals| - 1];
      ReportAll(signals[..|signals| - 1], values1, values2, options)
      + Report(last, TimelineOf(values1, last), TimelineOf(values2, last), options)
  }

  function SignalsWithMismatches(signals: seq<string>, values1: Timelines, values2: Timelines, options: Options): nat {
    if signals == [] then 0
    else
      var last := signals[|signals| - 1];
      SignalsWithMismatches(signals[..|signals| - 1], values1, values2, options)
      + if Report(last, TimelineOf(values1, last), TimelineOf(values2, last), options) == [] then 0 else 1
  }

  datatype Comparison = Comparison(mismatches: seq<Mismatch>, totalMismatches: nat, signalsWithMismatches: nat,
                                   passed: bool)

  /** `validate_complete` of a provider. */
  method ValidateComplete(current: bool, context: QueryContext) returns (error: Option<QueryError>)
    modifies context
    ensures error.Some? ==> error.value == Cancelled || (error.value == StaleSource && !current)
    ensures error.None? ==> current
    ensures old(context.checksLeft).None? ==> context.checksLeft.None? && error != Some(Cancelled)
    ensures old(context.checksLeft) == Some(0) ==> error == Some(Cancelled)
  {
    var ok := context.Check();
    if !ok {
      return Some(Cancelled);
    }
    if !current {
      return Some(StaleSource);
    }
    ok := context.Check();
    return if ok then None else Some(Cancelled);
  }

  /** The counting loop of `compare_providers` over the collected timelines, and the validation of
      both sources before the result is published. */
  method CompareSignals(signals: seq<string>, values1: Timelines, values2: Timelines, options: Options, current1: bool,
                        current2: bool, context: QueryContext)
    returns (r: Result<Comparison, QueryError>)
    modifies context
    ensures r.Ok? ==>
              && r.value.mismatches == ReportAll(signals, values1, values2, options)
              && r.value.totalMismatches == |r.value.mismatches|
              && r.value.signalsWithMismatches == SignalsWithMismatches(signals, values1, values2, options)
              && (r.value.passed <==> r.value.mismatches == [])
    ensures r.Ok? ==> current1 && current2
    ensures r.Err? ==> r.error == Cancelled || (r.error == StaleSource && !(current1 && current2))
    ensures old(context.checksLeft).None? ==> r != Err(Cancelled)
    ensures old(context.checksLeft) == Some(0) ==> r == Err(Cancelled)
  {
    var mismatches: seq<Mismatch>, touched := [], 0;
    var i := 0;
    while i < |signals|
      invariant 0 <= i <= |signals|
      invariant mismatches == ReportAll(signals[..i], values1, values2, options)
      invariant touched == SignalsWithMismatches(signals[..i], values1, values2, options)
      invariant old(context.checksLeft).None? ==> context.checksLeft.None?
      invariant old(context.checksLeft) == Some(0) ==> i == 0 && context.checksLeft == Some(0)
    {
      var ok := context.Check();
      if !ok {
        return Err(Cancelled);
      }
      var count;
      count, mismatches := CompareTimeline(signals[i], TimelineOf(values1, signals[i]), TimelineOf(values2, signals[i]),
                                           options, mismatches, context);
      if count.Err? {
        return Err(count.error);
      }
      if count.value > 0 {
        touched := touched + 1;
      }
      assert signals[..i + 1][..i] == signals[..i];
      i := i + 1;
    }
    assert signals[..i] == signals;
    var ok := context.Check();
    if !ok {
      return Err(Cancelled);
    }
    var error := ValidateComplete(current1, context);
    if error.Some? {
      return Err(error.value);
    }
    error := ValidateComplete(current2, context);
    if error.Some? {
      return Err(error.value);
    }
    ok := context.Check();
    if !ok {
      return Err(Cancelled);
    }
    return Ok(Comparison(mismatches, |mismatches|, touched, mismatches == []));
  }

  ghost predicate Ordered(values: Timelines, hi: nat) {
    forall s | s in values :: NonDecreasing(values[s]) && AllBelow(values[s], hi)
  }

  ghost predicate AgreeOn(signal: string, values1: Timelines, values2: Timelines, ignoreUnknown: bool, hi: nat) {
    forall t | 0 <= t < hi :: !Differ(TimelineOf(values1, signal), TimelineOf(values2, signal), ignoreUnknown, t)
  }

  lemma SignalPassesIffAgrees(signal: string, values1: Timelines, values2: Timelines, options: Options, hi: nat)
    requires Ordered(values1, hi) && Ordered(values2, hi) && hi <= U64_MAX
    ensures Report(signal, TimelineOf(values1, signal), TimelineOf(values2, signal), options) == [] <==>
            AgreeOn(signal, values1, values2, options.ignoreUnknown, hi)
  {
    var tl1, tl2 := TimelineOf(values1, signal), TimelineOf(values2, signal);
    ReportIsPointwise(signal, tl1, tl2, options, hi);
    PointwiseEmpty(signal, tl1, tl2, options.ignoreUnknown, 0, hi);
  }

  lemma {:induction false} ReportAllEmpty(signals: seq<string>, values1: Timelines, values2: Timelines,
                                          options: Options)
    ensures ReportAll(signals, values1, values2, options) == [] <==>
            forall k | 0 <= k < |signals| ::
              Report(signals[k], TimelineOf(values1, signals[k]), TimelineOf(values2, signals[k]), options) == []
  {
    if signals == [] {
    } else {
      ReportAllEmpty(signals[..|signals| - 1], values1, values2, options);
      assert forall k | 0 <= k < |signals| - 1 :: signals[..|signals| - 1][k] == signals[k];
    }
  }

  /** A comparison passes exactly when every compared signal agrees at every instant, with or
      without a mismatch cap. */
  lemma PassesIffAllAgree(signals: seq<string>, values1: Timelines, values2: Timelines, options: Options, hi: nat)
    requires Ordered(values1, hi) && Ordered(values2, hi) && hi <= U64_MAX
    ensures ReportAll(signals, values1, values2, options) == [] <==>
            forall k | 0 <= k < |signals| :: AgreeOn(signals[k], values1, values2, options.ignoreUnknown, hi)
  {
    ReportAllEmpty(signals, values1, values2, options);
    forall k | 0 <= k < |signals|
      ensures AgreeOn(signals[k], values1, values2, options.ignoreUnknown, hi) <==>
              Report(signals[k], TimelineOf(values1, signals[k]), TimelineOf(values2, signals[k]), options) == []
    {
      SignalPassesIffAgrees(signals[k], values1, values2, options, hi);
    }
  }
}
