/** Finding an occurrence and counting toggles, in the iterator form of the VCD back end and the
    visitor form of the FST back end (src/query/ops.rs, src/opened/waveform.rs). */
module Ops {
  import opened Wrappers
  import opened Words
  import opened Decimals
  import opened Values
  import opened Extraction
  import opened ExtractionTheorems
  import opened Occurrences
  import opened FstVisit

  // ------------------------------------------------------------------ the n-th occurrence

  /** The next item of an extraction, in terms of its rows and its first error. */
  method NextItem(iter: OpenedTimeValueIter, ghost seen: seq<TimeValue>, ghost all: Output)
    returns (r: Option<Result<TimeValue, QueryError>>)
    requires iter.Valid() && Reading(seen, iter.Remaining(), all)
    modifies iter, iter.stream, iter.context
    ensures iter.Valid()
    ensures r.None? ==> seen == OkRows(all) && FirstError(all) == None
    ensures r.Some? && r.value.Err? ==>
              r.value.error == Cancelled || (seen == OkRows(all) && FirstError(all) == Some(r.value.error))
    ensures r.Some? && r.value.Ok? ==>
              && old(iter.Remaining()) == [r.value] + iter.Remaining()
              && Reading(seen + [r.value.value], iter.Remaining(), all)
    ensures old(iter.context.checksLeft).None? ==> iter.context.checksLeft.None? && r != Some(Err(Cancelled))
  {
    ghost var before := iter.Remaining();
    r := iter.Next();
    if r.Some? && r.value.Ok? {
      assert before == [r.value] + iter.Remaining();
      ReadingRow(seen, r.value.value, iter.Remaining(), all);
    } else if r != Some(Err(Cancelled)) {
      ReadingEnds(seen, before, all);
    }
  }

  /** What the loop has found after the rows `before` is the answer. */
  lemma HitIsAnswer(before: seq<TimeValue>, event: TimeValue, rest: Output, all: Output, hit: TimeValue -> bool, n: nat,
                    current: bool)
    requires Reading(before + [event], rest, all) && hit(event) && n == |Matches(before, hit)| + 1
    ensures Answer(all, hit, n, current) == if current then Ok(Some(event)) else Err(StaleSource)
  {
    NthIsFound(before, event, OkRows(rest), hit);
  }

  /** `validate_current_generation` before an event is reported. */
  method Validated(event: TimeValue, current: bool, context: QueryContext)
    returns (r: Result<Option<TimeValue>, QueryError>)
    modifies context
    ensures r == Err(Cancelled) || r == if current then Ok(Some(event)) else Err(StaleSource)
    ensures old(context.checksLeft).None? ==> context.checksLeft.None? && r != Err(Cancelled)
  {
    var ok := context.Check();
    if !ok {
      return Err(Cancelled);
    }
    if !current {
      return Err(StaleSource);
    }
    ok := context.Check();
    return if ok then Ok(Some(event)) else Err(Cancelled);
  }

  /** The iterator form: the n-th hit is reported only if the source is still current when it has
      been found. */
  method FindByIterator(iter: OpenedTimeValueIter, target: string, occurrence: nat, current: bool)
    returns (r: Result<Option<TimeValue>, QueryError>)
    requires iter.Valid()
    modifies iter, iter.stream, iter.context
    ensures r == Answer(old(iter.Remaining()), Hits(target), occurrence, current) || r == Err(Cancelled)
    ensures old(iter.context.checksLeft).None? ==>
              iter.context.checksLeft.None? && r == Answer(old(iter.Remaining()), Hits(target), occurrence, current)
  {
    if occurrence < 1 {
      return Err(ParseFailure);
    }
    ghost var all, seen: seq<TimeValue>, hit := iter.Remaining(), [], Hits(target);
    var count := 0;
    while true
      invariant iter.Valid() && Reading(seen, iter.Remaining(), all)
      invariant old(iter.context.checksLeft).None? ==> iter.context.checksLeft.None?
      invariant count == |Matches(seen, hit)| < occurrence
      decreases |iter.Remaining()|
    {
      ghost var before := seen;
      var next := NextItem(iter, seen, all);
      if next.None? {
        return Ok(None);
      }
      if next.value.Err? {
        return Err(next.value.error);
      }
      var event := next.value.value;
      seen := seen + [event];
      MatchesAppend(before, event, hit);
      if Normalize(event.value) == target {
        count := count + 1;
        if count == occurrence {
          HitIsAnswer(before, event, iter.Remaining(), all, hit, occurrence, current);
          r := Validated(event, current, iter.context);
          return;
        }
      }
    }
  }

  /** Why a search is refused before the source is touched. */
  function FindRefusal(names: Names, signal: string, occurrence: nat, limits: Limits): Option<QueryError> {
    if occurrence == 0 then Some(ParseFailure)
    else if signal !in names then Some(MissingSignals([signal]))
    else SignalLimit(limits, 1)
  }

  lemma OneTarget(names: Names, signal: string)
    requires signal in names
    ensures Missing(names, [signal]) == []
  {
    assert [signal][..0] == [];
  }

  lemma StaleAnswer(output: Output, hit: TimeValue -> bool, n: nat, current: bool)
    requires n > 0
    ensures output == [Err(StaleSource)] ==> Answer(output, hit, n, current) == Err(StaleSource)
    ensures output == [] ==> Answer(output, hit, n, current) == Ok(None)
  {
  }

  lemma {:induction false} Resolvable(names: Names, targets: seq<string>) returns (selection: Selection)
    ensures Resolves(selection, names, targets)
  {
    if targets == [] {
      selection := map[];
    } else {
      var n := |targets| - 1;
      selection := Resolvable(names, targets[..n]);
      assert targets[..n + 1] == targets;
      if targets[n] in names {
        ResolvesStep(selection, names, targets, n);
        var id := names[targets[n]].id;
        var bound := if id in selection then selection[id] else [];
        selection := selection[id := bound + [Binding(n, targets[n], names[targets[n]].size)]];
      } else {
        ResolvesSkip(selection, names, targets, n);
      }
    }
  }

  function VcdAnswer(body: Body, q: Query, limits: Limits, source: Source, target: string, occurrence: nat):
      Result<Option<TimeValue>, QueryError>
  {
    Answer(VcdQuery(body, q, limits, source), Hits(target), occurrence, source.atEnd)
  }

  ghost predicate VcdFinds(names: Names, signal: string, target: string, occurrence: nat, window: TimeWindow,
                           body: Body, source: Source, limits: Limits, r: Result<Option<TimeValue>, QueryError>)
  {
    if FindRefusal(names, signal, occurrence, limits).Some? then
      r == Err(FindRefusal(names, signal, occurrence, limits).value)
    else exists selection ::
      Resolves(selection, names, [signal])
      && r == VcdAnswer(body, Query(selection, window, limits.maxCommands, source.atEnd), limits, source, target,
                        occurrence)
  }

  /** `find_nth_occurrence` of the VCD back end. */
  method FindVcd(names: Names, signal: string, target: string, occurrence: nat, window: TimeWindow, body: Body,
                 source: Source, context: QueryContext)
    returns (r: Result<Option<TimeValue>, QueryError>)
    modifies context
    ensures old(context.checksLeft).None? ==>
              VcdFinds(names, signal, target, occurrence, window, body, source, context.limits, r)
    ensures r == Err(Cancelled) || VcdFinds(names, signal, target, occurrence, window, body, source, context.limits, r)
  {
    if occurrence < 1 {
      return Err(ParseFailure);
    }
    var ok := context.Check();
    if !ok {
      return Err(Cancelled);
    }
    if signal !in names {
      return Err(MissingSignals([signal]));
    }
    OneTarget(names, signal);
    var extraction := Extract(names, [signal], window, body, source, context);
    if extraction.Err? {
      if extraction.error != Cancelled && SignalLimit(context.limits, 1).None? {
        ghost var selection := Resolvable(names, [signal]);
        StaleAnswer([Err(StaleSource)], Hits(target), occurrence, source.atEnd);
        assert Err(StaleSource) ==
          VcdAnswer(body, Query(selection, window, context.limits.maxCommands, source.atEnd), context.limits, source,
                    target, occurrence);
      }
      return Err(extraction.error);
    }
    ghost var q := extraction.value.stream.query;
    r := FindByIterator(extraction.value, target, occurrence, source.atEnd);
    assert r != Err(Cancelled) ==> r == VcdAnswer(body, q, context.limits, source, target, occurrence);
  }

  lemma WatchedAnswers(visitor: RowVisitor, all: Output, current: bool, visited: Result<(), QueryError>)
    requires visitor.stopAfter.Some? && visitor.stopAfter.value > 0 && Watched(visitor, all, current, visited)
    ensures Answer(all, visitor.hit, visitor.stopAfter.value, current) ==
            if visited.Err? then Err(visited.error) else Ok(visitor.found)
  {
  }

  function FstAnswer(changes: seq<SelectedChange>, selection: Selection, window: TimeWindow, limits: Limits,
                     source: Source, target: string, occurrence: nat): Result<Option<TimeValue>, QueryError>
  {
    Answer(FstQuery(changes, selection, window, limits, source), Hits(target), occurrence, source.atEnd)
  }

  ghost predicate FstFinds(names: Names, signal: string, target: string, occurrence: nat, window: TimeWindow,
                           changes: seq<SelectedChange>, source: Source, limits: Limits,
                           r: Result<Option<TimeValue>, QueryError>)
  {
    if FindRefusal(names, signal, occurrence, limits).Some? then
      r == Err(FindRefusal(names, signal, occurrence, limits).value)
    else exists selection ::
      Resolves(selection, names, [signal])
      && r == FstAnswer(changes, selection, window, limits, source, target, occurrence)
  }

  /** What a stopped or finished visit reports is the answer from its output. */
  lemma VisitAnswers(names: Names, signal: string, target: string, occurrence: nat, window: TimeWindow,
                     changes: seq<SelectedChange>, source: Source, limits: Limits, visitor: RowVisitor,
                     visited: Result<(), QueryError>, r: Result<Option<TimeValue>, QueryError>)
    requires occurrence > 0 && signal in names && Missing(names, [signal]) == []
    requires visitor.hit == Hits(target) && visitor.stopAfter == Some(occurrence)
    requires VisitComesTo(names, [signal], window, changes, source, limits, visitor, visited)
    requires r == if visited.Err? then Err(visited.error) else Ok(visitor.found)
    ensures FstFinds(names, signal, target, occurrence, window, changes, source, limits, r)
  {
    if SignalLimit(limits, 1).None? {
      if Preliminary(names, [signal], window, limits, source).Some? {
        var selection := Resolvable(names, [signal]);
        StaleAnswer(FstQuery(changes, selection, window, limits, source), Hits(target), occurrence, source.atEnd);
        assert r == FstAnswer(changes, selection, window, limits, source, target, occurrence);
      } else {
        var selection :| Resolves(selection, names, [signal])
                         && Watched(visitor, Visited(changes, selection, window, limits, source.atEnd), source.atEnd,
                                    visited);
        WatchedAnswers(visitor, Visited(changes, selection, window, limits, source.atEnd), source.atEnd, visited);
        assert r == FstAnswer(changes, selection, window, limits, source, target, occurrence);
      }
    }
  }

  /** `find_nth_occurrence` of the FST back end: a visitor counts hits and stops the visit at the
      n-th. */
  method FindFst(names: Names, signal: string, target: string, occurrence: nat, window: TimeWindow,
                 changes: seq<SelectedChange>, source: Source, context: QueryContext)
    returns (r: Result<Option<TimeValue>, QueryError>)
    requires |changes| <= U64_MAX
    modifies context
    ensures old(context.checksLeft).None? ==>
              FstFinds(names, signal, target, occurrence, window, changes, source, context.limits, r)
    ensures r == Err(Cancelled)
            || FstFinds(names, signal, target, occurrence, window, changes, source, context.limits, r)
  {
    if occurrence == 0 {
      return Err(ParseFailure);
    }
    if signal !in names {
      return Err(MissingSignals([signal]));
    }
    OneTarget(names, signal);
    var visitor := new RowVisitor(Hits(target), Some(occurrence));
    var visited := Visit(names, [signal], window, changes, source, context, visitor);
    r := if visited.Err? then Err(visited.error) else Ok(visitor.found);
    if VisitComesTo(names, [signal], window, changes, source, context.limits, visitor, visited) {
      VisitAnswers(names, signal, target, occurrence, window, changes, source, context.limits, visitor, visited, r);
    }
  }

  lemma InvertedVcdIsStale(body: Body, q: Query, limits: Limits, source: Source)
    requires WellFormed(body) && q.maxCommands.None? && Inverted(q.window)
    requires q.sourceFresh == source.atEnd && !(source.atStart && source.atEnd)
    ensures VcdQuery(body, q, limits, source) == [Err(StaleSource)]
  {
    ExtractionIsFilter(body, q);
    InvertedFilterIsEmpty(body, 0, Halt(body, q.window), q.selection, q.window);
  }

  /** The two back ends answer a search alike exactly unless the window is inverted and the source
      has changed. */
  lemma SearchesAgreeExactly(body: Body, q: Query, limits: Limits, source: Source, target: string, occurrence: nat)
    requires WellFormed(body) && TimesNeverDecrease(body) && q.maxCommands.None? && limits.maxCommands.None?
    requires q.sourceFresh == source.atEnd && occurrence > 0
    ensures FstAnswer(SelectedChanges(body, 0, q.selection), q.selection, q.window, limits, source, target,
                      occurrence) ==
            VcdAnswer(body, q, limits, source, target, occurrence) <==>
            !(Inverted(q.window) && !(source.atStart && source.atEnd))
  {
    QueriesAgreeExactly(body, q, limits, source);
    if Inverted(q.window) && !(source.atStart && source.atEnd) {
      InvertedVcdIsStale(body, q, limits, source);
      StaleAnswer([], Hits(target), occurrence, source.atEnd);
      StaleAnswer([Err(StaleSource)], Hits(target), occurrence, source.atEnd);
    }
  }

  /** On a source that has changed every search fails, except the one for an inverted window on an
      FST file. */
  lemma ChangedSourceIsNotSearched(body: Body, changes: seq<SelectedChange>, q: Query, limits: Limits, source: Source,
                                   target: string, occurrence: nat)
    requires !(source.atStart && source.atEnd) && q.sourceFresh == source.atEnd && occurrence > 0
    ensures VcdAnswer(body, q, limits, source, target, occurrence).Err?
    ensures FstAnswer(changes, q.selection, q.window, limits, source, target, occurrence).Err? <==> !Inverted(q.window)
  {
    ChangedSourceIsNoticed(body, changes, q, limits, source);
  }

  // ------------------------------------------------------------------ formatting

  function HexChar(d: nat): char
    requires d < 16
  {
    if d < 10 then '0' + d as char else 'a' + (d - 10) as char
  }

  function Hex(n: nat): string {
    if n < 16 then [HexChar(n)] else Hex(n / 16) + [HexChar(n % 16)]
  }

  function PadZeros(text: string, width: nat): string
    decreases width - |text|
  {
    if |text| >= width then text else PadZeros(['0'] + text, width)
  }

  /** `format_value_for_signal`. */
  function Formatted(value: ChangeValue, size: nat): string {
    if size > 1 && value.Integer? then "0x" + PadZeros(Hex(value.i), (size + 3) / 4) else Display(value)
  }

  function HexDigitValue(c: char): nat {
    if '0' <= c <= '9' then c as nat - '0' as nat
    else if 'a' <= c <= 'f' then 10 + (c as nat - 'a' as nat)
    else 0
  }

  predicate IsHex(text: string) {
    forall i | 0 <= i < |text| :: '0' <= text[i] <= '9' || 'a' <= text[i] <= 'f'
  }

  function HexValue(text: string): nat {
    if text == "" then 0 else 16 * HexValue(text[..|text| - 1]) + HexDigitValue(text[|text| - 1])
  }

  lemma {:induction false} HexHasValue(n: nat)
    ensures Hex(n) != "" && IsHex(Hex(n)) && HexValue(Hex(n)) == n
    ensures Hex(n)[0] == '0' ==> n == 0
  {
    if n >= 16 {
      HexHasValue(n / 16);
      assert Hex(n)[..|Hex(n)| - 1] == Hex(n / 16);
    } else {
      assert HexValue(Hex(n)[..0]) == 0;
    }
  }

  lemma {:induction false} LeadingZero(text: string)
    ensures HexValue(['0'] + text) == HexValue(text)
  {
    if text == "" {
      assert ['0'][..0] == "";
    } else {
      assert (['0'] + text)[..|text|] == ['0'] + text[..|text| - 1];
      LeadingZero(text[..|text| - 1]);
    }
  }

  lemma {:induction false} PaddingKeeps(text: string, width: nat)
    requires IsHex(text)
    ensures IsHex(PadZeros(text, width)) && HexValue(PadZeros(text, width)) == HexValue(text)
    ensures |PadZeros(text, width)| == if |text| < width then width else |text|
    ensures |text| >= width ==> PadZeros(text, width) == text
    decreases width - |text|
  {
    if |text| < width {
      LeadingZero(text);
      PaddingKeeps(['0'] + text, width);
    }
  }

  /** A value of a signal of several bits is written after `0x` as its lower-case hexadecimal digits,
      padded with zeros to one digit for every four bits and to no more. */
  lemma FormattedExactly(n: nat, size: nat)
    requires size > 1
    ensures var text, width := Formatted(Integer(n), size), (size + 3) / 4;
            && |text| >= 2 + width && text[..2] == "0x" && IsHex(text[2..]) && HexValue(text[2..]) == n
            && (|text| > 2 + width && n > 0 ==> text[2] != '0')
  {
    HexHasValue(n);
    PaddingKeeps(Hex(n), (size + 3) / 4);
    var digits := PadZeros(Hex(n), (size + 3) / 4);
    assert ("0x" + digits)[2..] == digits;
  }

  /** Two values of one signal are formatted alike exactly when they are equal. */
  lemma FormattedInjective(a: nat, b: nat, size: nat)
    ensures Formatted(Integer(a), size) == Formatted(Integer(b), size) <==> a == b
  {
    if size > 1 {
      FormattedExactly(a, size);
      FormattedExactly(b, size);
    } else {
      ShowIsCanonical(a);
      ShowIsCanonical(b);
    }
  }

  // ------------------------------------------------------------------ toggles

  /** The number of adjacent unequal values. */
  function Toggles(values: seq<string>): nat {
    if |values| < 2 then 0
    else Toggles(values[..|values| - 1]) + if values[|values| - 2] != values[|values| - 1] then 1 else 0
  }

  /** The same, but an empty value is no baseline for its successor. */
  function TogglesFromNonEmpty(values: seq<string>): nat {
    if |values| < 2 then 0
    else
      TogglesFromNonEmpty(values[..|values| - 1])
      + if values[|values| - 2] != "" && values[|values| - 2] != values[|values| - 1] then 1 else 0
  }

  predicate ChangesAt(values: seq<string>, i: nat) {
    0 < i < |values| && values[i - 1] != values[i]
  }

  /** The positions at which a value differs from its predecessor. */
  function Changes(values: seq<string>): set<nat> {
    set i: nat | i < |values| && ChangesAt(values, i)
  }

  /** The positions at which a value differs from a non-empty predecessor. */
  function ChangesFromNonEmpty(values: seq<string>): set<nat> {
    set i: nat | i < |values| && ChangesAt(values, i) && values[i - 1] != ""
  }

  lemma ChangesAppend(init: seq<string>, v: string)
    requires init != []
    ensures var values, last := init + [v], init[|init| - 1];
            && Changes(values) == Changes(init) + (if last != v then {|init|} else {})
            && ChangesFromNonEmpty(values) ==
               ChangesFromNonEmpty(init) + (if last != "" && last != v then {|init|} else {})
  {
    var values := init + [v];
    forall i | 0 <= i < |init| ensures ChangesAt(values, i) == ChangesAt(init, i) {
    }
    assert ChangesAt(values, |init|) <==> init[|init| - 1] != v;
  }

  lemma ToggleAppend(values: seq<string>, v: string)
    ensures Toggles(values + [v]) == Toggles(values) + if values != [] && values[|values| - 1] != v then 1 else 0
    ensures TogglesFromNonEmpty(values + [v]) == TogglesFromNonEmpty(values)
            + if values != [] && values[|values| - 1] != "" && values[|values| - 1] != v then 1 else 0
  {
    assert (values + [v])[..|values|] == values;
  }

  /** The two counts are those of the positions at which the value changes. */
  lemma {:induction false} TogglesCountChanges(values: seq<string>)
    ensures Toggles(values) == |Changes(values)|
    ensures TogglesFromNonEmpty(values) == |ChangesFromNonEmpty(values)|
  {
    if |values| < 2 {
      assert Changes(values) == {} && ChangesFromNonEmpty(values) == {};
    } else {
      var init, v := values[..|values| - 1], values[|values| - 1];
      assert values == init + [v];
      TogglesCountChanges(init);
      ToggleAppend(init, v);
      ChangesAppend(init, v);
      assert |init| !in Changes(init) && |init| !in ChangesFromNonEmpty(init);
    }
  }

  predicate ResumesAfterEmpty(values: seq<string>) {
    exists i :: 0 <= i < |values| - 1 && values[i] == "" && values[i + 1] != ""
  }

  lemma ResumesAppend(init: seq<string>, v: string)
    ensures ResumesAfterEmpty(init + [v]) <==>
            ResumesAfterEmpty(init) || (init != [] && init[|init| - 1] == "" && v != "")
  {
    var values := init + [v];
    if ResumesAfterEmpty(init) {
      var i :| 0 <= i < |init| - 1 && init[i] == "" && init[i + 1] != "";
      assert values[i] == "" && values[i + 1] != "";
    }
    if init != [] && init[|init| - 1] == "" && v != "" {
      assert values[|init| - 1] == "" && values[|init| - 1 + 1] != "";
    }
  }

  /** The two definitions agree exactly when no empty value is followed by a non-empty one. */
  lemma {:induction false} ToggleFormsAgree(values: seq<string>)
    ensures TogglesFromNonEmpty(values) <= Toggles(values)
    ensures TogglesFromNonEmpty(values) == Toggles(values) <==> !ResumesAfterEmpty(values)
  {
    if values == [] {
    } else {
      var init, v := values[..|values| - 1], values[|values| - 1];
      assert values == init + [v];
      ToggleFormsAgree(init);
      ToggleAppend(init, v);
      ResumesAppend(init, v);
    }
  }

  type Sizes = map<string, nat>

  function SizeOf(sizes: Sizes, signal: string): nat {
    if signal in sizes then sizes[signal] else 1
  }

  /** The formatted values of one signal, in event order. */
  function ValuesOf(events: seq<TimeValue>, sizes: Sizes, signal: string): seq<string> {
    if events == [] then []
    else
      ValuesOf(events[..|events| - 1], sizes, signal)
      + if events[|events| - 1].signal == signal
        then [Formatted(events[|events| - 1].value, SizeOf(sizes, signal))] else []
  }

  function Bumped(counts: map<string, nat>, signal: string, toggled: bool): map<string, nat> {
    if toggled && signal in counts then counts[signal := counts[signal] + 1] else counts
  }

  function Zeroes(targets: seq<string>): map<string, nat> {
    map name | name in targets :: 0
  }

  /** The counters and last values of the VCD loop after one more formatted value. */
  function VcdStep(tally: (map<string, nat>, map<string, string>), signal: string, formatted: string):
      (map<string, nat>, map<string, string>)
  {
    (Bumped(tally.0, signal, signal in tally.1 && tally.1[signal] != "" && tally.1[signal] != formatted),
     tally.1[signal := formatted])
  }

  function VcdAfter(events: seq<TimeValue>, targets: seq<string>, sizes: Sizes):
      (map<string, nat>, map<string, string>)
  {
    if events == [] then (Zeroes(targets), map name | name in targets :: "")
    else
      var e := events[|events| - 1];
      VcdStep(VcdAfter(events[..|events| - 1], targets, sizes), e.signal, Formatted(e.value, SizeOf(sizes, e.signal)))
  }

  /** The counters and previous values of the FST visitor after one more formatted value. */
  function FstStep(tally: (map<string, nat>, map<string, string>), signal: string, formatted: string):
      (map<string, nat>, map<string, string>)
  {
    (Bumped(tally.0, signal, signal in tally.1 && tally.1[signal] != formatted), tally.1[signal := formatted])
  }

  function FstAfter(events: seq<TimeValue>, targets: seq<string>, sizes: Sizes):
      (map<string, nat>, map<string, string>)
  {
    if events == [] then (Zeroes(targets), map[])
    else
      var e := events[|events| - 1];
      FstStep(FstAfter(events[..|events| - 1], targets, sizes), e.signal, Formatted(e.value, SizeOf(sizes, e.signal)))
  }

  predicate VcdTally(count: nat, last: string, values: seq<string>) {
    count == TogglesFromNonEmpty(values) && last == if values == [] then "" else values[|values| - 1]
  }

  predicate FstTally(count: nat, previous: Option<string>, values: seq<string>) {
    count == Toggles(values) && previous == if values == [] then None else Some(values[|values| - 1])
  }

  function Lookup(previous: map<string, string>, name: string): Option<string> {
    if name in previous then Some(previous[name]) else None
  }

  lemma {:induction false} VcdAfterTallies(events: seq<TimeValue>, targets: seq<string>, sizes: Sizes, name: string)
    requires name in targets
    ensures var tally := VcdAfter(events, targets, sizes);
            name in tally.0 && name in tally.1 && VcdTally(tally.0[name], tally.1[name], ValuesOf(events, sizes, name))
  {
    if events == [] {
    } else {
      var e := events[|events| - 1];
      var values := ValuesOf(events[..|events| - 1], sizes, name);
      VcdAfterTallies(events[..|events| - 1], targets, sizes, name);
      ToggleAppend(values, Formatted(e.value, SizeOf(sizes, e.signal)));
      assert e.signal != name ==> ValuesOf(events, sizes, name) == values;
    }
  }

  lemma {:induction false} FstAfterTallies(events: seq<TimeValue>, targets: seq<string>, sizes: Sizes, name: string)
    requires name in targets
    ensures var tally := FstAfter(events, targets, sizes);
            name in tally.0 && FstTally(tally.0[name], Lookup(tally.1, name), ValuesOf(events, sizes, name))
  {
    if events == [] {
    } else {
      var e := events[|events| - 1];
      var values := ValuesOf(events[..|events| - 1], sizes, name);
      FstAfterTallies(events[..|events| - 1], targets, sizes, name);
      ToggleAppend(values, Formatted(e.value, SizeOf(sizes, e.signal)));
      assert e.signal != name ==> ValuesOf(events, sizes, name) == values;
    }
  }

  /** The result of a toggle count over an output: its first error, or for every requested name
      the count `tally` makes of the values of its rows. */
  ghost predicate Counted(r: Result<map<string, nat>, QueryError>, all: Output, targets: seq<string>, sizes: Sizes,
                          tally: seq<string> -> nat) {
    if FirstError(all).Some? then r == Err(FirstError(all).value)
    else
      && r.Ok? && r.value.Keys == Zeroes(targets).Keys
      && forall name | name in targets :: name in r.value && r.value[name] == tally(ValuesOf(OkRows(all), sizes, name))
  }

  /** The body of the counting loop. */
  method TallyEvent(signal: string, formatted: string, counts: map<string, nat>, last: map<string, string>)
    returns (counts': map<string, nat>, last': map<string, string>)
    ensures (counts', last') == VcdStep((counts, last), signal, formatted) && counts'.Keys == counts.Keys
  {
    counts', last' := counts, last;
    if signal in last && last[signal] != "" && last[signal] != formatted {
      if signal in counts {
        counts' := counts[signal := counts[signal] + 1];
      }
    }
    last' := last[signal := formatted];
  }

  lemma VcdAfterAppend(seen: seq<TimeValue>, e: TimeValue, targets: seq<string>, sizes: Sizes)
    ensures VcdAfter(seen + [e], targets, sizes) ==
            VcdStep(VcdAfter(seen, targets, sizes), e.signal, Formatted(e.value, SizeOf(sizes, e.signal)))
  {
    assert (seen + [e])[..|seen|] == seen;
  }

  lemma VcdCounted(counts: map<string, nat>, last: map<string, string>, all: Output, targets: seq<string>, sizes: Sizes)
    requires FirstError(all).None? && counts.Keys == Zeroes(targets).Keys
             && (counts, last) == VcdAfter(OkRows(all), targets, sizes)
    ensures Counted(Ok(counts), all, targets, sizes, TogglesFromNonEmpty)
  {
    forall name | name in targets
      ensures name in counts && counts[name] == TogglesFromNonEmpty(ValuesOf(OkRows(all), sizes, name))
    {
      VcdAfterTallies(OkRows(all), targets, sizes, name);
    }
  }

  /** The counting loop over an extraction. */
  method TallyExtraction(iter: OpenedTimeValueIter, targets: seq<string>, sizes: Sizes)
    returns (r: Result<map<string, nat>, QueryError>)
    requires iter.Valid()
    modifies iter, iter.stream, iter.context
    ensures r == Err(Cancelled) || Counted(r, old(iter.Remaining()), targets, sizes, TogglesFromNonEmpty)
    ensures old(iter.context.checksLeft).None? ==>
              Counted(r, old(iter.Remaining()), targets, sizes, TogglesFromNonEmpty)
  {
    var counts := Zeroes(targets);
    var last: map<string, string> := map name | name in targets :: "";
    ghost var all, seen: seq<TimeValue> := iter.Remaining(), [];
    while true
      invariant iter.Valid() && Reading(seen, iter.Remaining(), all)
      invariant old(iter.context.checksLeft).None? ==> iter.context.checksLeft.None?
      invariant counts.Keys == Zeroes(targets).Keys
      invariant (counts, last) == VcdAfter(seen, targets, sizes)
      decreases |iter.Remaining()|
    {
      var next := NextItem(iter, seen, all);
      if next.None? {
        VcdCounted(counts, last, all, targets, sizes);
        return Ok(counts);
      }
      if next.value.Err? {
        return Err(next.value.error);
      }
      var event := next.value.value;
      VcdAfterAppend(seen, event, targets, sizes);
      seen := seen + [event];
      counts, last := TallyEvent(event.signal, Formatted(event.value, SizeOf(sizes, event.signal)), counts, last);
    }
  }

  /** What the VCD back end answers: the refusal of the request, or the counts of what the query
      yields. */
  ghost predicate VcdCounts(names: Names, targets: seq<string>, window: TimeWindow, body: Body, source: Source,
                            sizes: Sizes, limits: Limits, r: Result<map<string, nat>, QueryError>)
  {
    var refusal := Refusal(names, targets, limits);
    if refusal.Some? then r == Err(refusal.value)
    else exists selection ::
      && Resolves(selection, names, targets)
      && Counted(r, VcdQuery(body, Query(selection, window, limits.maxCommands, source.atEnd), limits, source),
                 targets, sizes, TogglesFromNonEmpty)
  }

  lemma StaleCounts(targets: seq<string>, sizes: Sizes, tally: seq<string> -> nat)
    ensures Counted(Err(StaleSource), [Err(StaleSource)], targets, sizes, tally)
  {
  }

  /** `count_toggles` of the VCD back end. */
  method CountTogglesVcd(names: Names, targets: seq<string>, window: TimeWindow, body: Body, source: Source,
                         sizes: Sizes, context: QueryContext)
    returns (r: Result<map<string, nat>, QueryError>)
    modifies context
    ensures r == Err(Cancelled) || VcdCounts(names, targets, window, body, source, sizes, context.limits, r)
    ensures old(context.checksLeft).None? ==>
              VcdCounts(names, targets, window, body, source, sizes, context.limits, r)
    ensures old(context.checksLeft) == Some(0) ==> r == Err(Cancelled)
  {
    var error := context.CheckSignalCount(|targets|);
    if error.Some? {
      return Err(error.value);
    }
    var extraction := Extract(names, targets, window, body, source, context);
    if extraction.Err? {
      if Refusal(names, targets, context.limits).None? && extraction.error != Cancelled {
        ghost var selection := Resolvable(names, targets);
        StaleCounts(targets, sizes, TogglesFromNonEmpty);
        assert VcdQuery(body, Query(selection, window, context.limits.maxCommands, source.atEnd), context.limits,
                        source)
            == [Err(StaleSource)];
      }
      return Err(extraction.error);
    }
    ghost var q := extraction.value.stream.query;
    r := TallyExtraction(extraction.value, targets, sizes);
    assert r != Err(Cancelled) ==>
        Counted(r, VcdQuery(body, q, context.limits, source), targets, sizes, TogglesFromNonEmpty);
  }

  /** The closure of the FST `count_toggles`, run over the rows of a visit; a name not yet counted
      starts from zero. */
  method TallyRows(rows: seq<TimeValue>, targets: seq<string>, sizes: Sizes) returns (counts: map<string, nat>)
    requires forall k | 0 <= k < |rows| :: rows[k].signal in targets
    ensures counts.Keys == Zeroes(targets).Keys
    ensures forall name | name in targets :: name in counts && counts[name] == Toggles(ValuesOf(rows, sizes, name))
  {
    counts := Zeroes(targets);
    var previous: map<string, string> := map[];
    for k := 0 to |rows|
      invariant counts.Keys == Zeroes(targets).Keys
      invariant (counts, previous) == FstAfter(rows[..k], targets, sizes)
    {
      assert rows[..k + 1][..k] == rows[..k];
      var signal := rows[k].signal;
      var formatted := Formatted(rows[k].value, SizeOf(sizes, signal));
      if signal in previous && previous[signal] != formatted {
        counts := counts[signal := counts[signal] + 1];
      }
      previous := previous[signal := formatted];
    }
    assert rows[..|rows|] == rows;
    forall name | name in targets
      ensures name in counts && counts[name] == Toggles(ValuesOf(rows, sizes, name))
    {
      FstAfterTallies(rows, targets, sizes, name);
    }
  }

  ghost predicate FstCounts(names: Names, targets: seq<string>, window: TimeWindow, changes: seq<SelectedChange>,
                            source: Source, sizes: Sizes, limits: Limits, r: Result<map<string, nat>, QueryError>)
  {
    var early := Preliminary(names, targets, window, limits, source);
    if early.Some? then
      (if early.value.Err? then r == Err(early.value.error) else Counted(r, [], targets, sizes, Toggles))
    else exists selection ::
      Resolves(selection, names, targets)
      && Counted(r, Visited(changes, selection, window, limits, source.atEnd), targets, sizes, Toggles)
  }

  ghost predicate OnlyNames(rows: seq<TimeValue>, targets: seq<string>) {
    forall k | 0 <= k < |rows| :: rows[k].signal in targets
  }

  lemma {:induction false} BoundNames(names: Names, targets: seq<string>, id: IdCode)
    ensures forall k | 0 <= k < |BindingsFor(names, targets, id)| :: BindingsFor(names, targets, id)[k].name in targets
  {
    if targets == [] {
    } else {
      BoundNames(names, targets[..|targets| - 1], id);
    }
  }

  lemma {:induction false} ExpandedNames(selection: Selection, changes: seq<SelectedChange>, names: Names,
                                         targets: seq<string>)
    requires Resolves(selection, names, targets)
    ensures OnlyNames(ExpandAll(selection, changes), targets)
  {
    if changes == [] {
    } else {
      BoundNames(names, targets, changes[0].id);
      ExpandedNames(selection, changes[1..], names, targets);
    }
  }

  lemma {:induction false} EmittedNames(due: seq<TimeValue>, end: Option<QueryError>, rows: nat, bytes: nat,
                                        limits: Limits, targets: seq<string>)
    requires OnlyNames(due, targets)
    ensures OnlyNames(OkRows(Emit(due, end, rows, bytes, limits)), targets)
    decreases |due|
  {
    if due == [] {
    } else {
      EmittedNames(due[1..], end, SaturatingAdd(rows, 1), SaturatingAdd(bytes, EventBytes(due[0])), limits, targets);
      var later := Emit(due[1..], end, SaturatingAdd(rows, 1), SaturatingAdd(bytes, EventBytes(due[0])), limits);
      assert ([Ok(due[0])] + later)[1..] == later;
    }
  }

  lemma VisitedNames(changes: seq<SelectedChange>, selection: Selection, window: TimeWindow, limits: Limits,
                     current: bool, names: Names, targets: seq<string>)
    requires Resolves(selection, names, targets)
    ensures OnlyNames(OkRows(Visited(changes, selection, window, limits, current)), targets)
  {
    var (rest, end) := Later(changes, 0, selection, window, limits, current);
    var readable := if limits.maxCommands.Some? && limits.maxCommands.value < |changes| then limits.maxCommands.value
                    else |changes|;
    ExpandedNames(selection, InWindow(changes[0..readable], window), names, targets);
    EmittedNames(rest, end, 0, 0, limits, targets);
  }

  lemma RowsAreRequested(names: Names, targets: seq<string>, window: TimeWindow, changes: seq<SelectedChange>,
                         source: Source, limits: Limits, visitor: RowVisitor, visited: Result<(), QueryError>)
    requires visitor.stopAfter.None? && VisitComesTo(names, targets, window, changes, source, limits, visitor, visited)
    ensures OnlyNames(visitor.seen, targets)
  {
    if Preliminary(names, targets, window, limits, source).None? {
      var selection :| Resolves(selection, names, targets)
                       && Watched(visitor, Visited(changes, selection, window, limits, source.atEnd), source.atEnd,
                                  visited);
      VisitedNames(changes, selection, window, limits, source.atEnd, names, targets);
    }
  }

  lemma VisitCounts(names: Names, targets: seq<string>, window: TimeWindow, changes: seq<SelectedChange>,
                    source: Source, sizes: Sizes, limits: Limits, visitor: RowVisitor, visited: Result<(), QueryError>,
                    counts: map<string, nat>)
    requires visitor.stopAfter.None? && visited.Ok?
             && VisitComesTo(names, targets, window, changes, source, limits, visitor, visited)
    requires counts.Keys == Zeroes(targets).Keys
    requires forall name | name in targets ::
              name in counts && counts[name] == Toggles(ValuesOf(visitor.seen, sizes, name))
    ensures FstCounts(names, targets, window, changes, source, sizes, limits, Ok(counts))
  {
    if Preliminary(names, targets, window, limits, source).None? {
      var selection :| Resolves(selection, names, targets)
                       && Watched(visitor, Visited(changes, selection, window, limits, source.atEnd), source.atEnd,
                                  visited);
      assert Counted(Ok(counts), Visited(changes, selection, window, limits, source.atEnd), targets, sizes, Toggles);
    }
  }

  /** `count_toggles` of the FST back end. */
  method CountTogglesFst(names: Names, targets: seq<string>, window: TimeWindow, changes: seq<SelectedChange>,
                         source: Source, sizes: Sizes, context: QueryContext)
    returns (r: Result<map<string, nat>, QueryError>)
    requires |changes| <= U64_MAX
    modifies context
    ensures r == Err(Cancelled) || FstCounts(names, targets, window, changes, source, sizes, context.limits, r)
    ensures old(context.checksLeft).None? ==>
              FstCounts(names, targets, window, changes, source, sizes, context.limits, r)
  {
    var visitor := new RowVisitor(_ => false, None);
    var visited := Visit(names, targets, window, changes, source, context, visitor);
    if visited.Err? {
      return Err(visited.error);
    }
    RowsAreRequested(names, targets, window, changes, source, context.limits, visitor, visited);
    var counts := TallyRows(visitor.seen, targets, sizes);
    VisitCounts(names, targets, window, changes, source, sizes, context.limits, visitor, visited, counts);
    return Ok(counts);
  }

  /** The two back ends count the same toggles of a signal exactly when its formatted values never
      go from empty to non-empty. */
  lemma BackEndsAgree(events: seq<TimeValue>, sizes: Sizes, signal: string)
    ensures TogglesFromNonEmpty(ValuesOf(events, sizes, signal)) == Toggles(ValuesOf(events, sizes, signal)) <==>
            !ResumesAfterEmpty(ValuesOf(events, sizes, signal))
  {
    ToggleFormsAgree(ValuesOf(events, sizes, signal));
  }

  /** No requested name has an empty formatted value followed by a non-empty one. */
  ghost predicate NeverResumes(rows: seq<TimeValue>, targets: seq<string>, sizes: Sizes) {
    forall name | name in targets :: !ResumesAfterEmpty(ValuesOf(rows, sizes, name))
  }

  /** Two counts of the same output, one in each form, are equal exactly when the output ends with
      an error, which both report, or no requested name resumes after an empty value. */
  lemma CountsOfOneOutput(all: Output, targets: seq<string>, sizes: Sizes, fst: Result<map<string, nat>, QueryError>,
                          vcd: Result<map<string, nat>, QueryError>)
    requires Counted(fst, all, targets, sizes, Toggles)
    requires Counted(vcd, all, targets, sizes, TogglesFromNonEmpty)
    ensures fst == vcd <==> FirstError(all).Some? || NeverResumes(OkRows(all), targets, sizes)
  {
    if FirstError(all).None? {
      forall name | name in targets
        ensures fst.value[name] == vcd.value[name] <==> !ResumesAfterEmpty(ValuesOf(OkRows(all), sizes, name))
      {
        BackEndsAgree(OkRows(all), sizes, name);
      }
      assert forall name :: name in Zeroes(targets) <==> name in targets;
      if NeverResumes(OkRows(all), targets, sizes) {
        assert forall name | name in fst.value :: name in targets;
        assert fst.value == vcd.value;
      }
    }
  }

  /** Of the same request on an ordered body, the two back ends count the same exactly when the
      window is not inverted or the source has not changed, and the query ends with an error or
      no requested name has an empty formatted value followed by a non-empty one. */
  lemma CountsAgreeExactly(body: Body, q: Query, limits: Limits, source: Source, targets: seq<string>, sizes: Sizes,
                           fst: Result<map<string, nat>, QueryError>, vcd: Result<map<string, nat>, QueryError>)
    requires WellFormed(body) && TimesNeverDecrease(body) && q.maxCommands.None? && limits.maxCommands.None?
    requires q.sourceFresh == source.atEnd
    requires Counted(fst, FstQuery(SelectedChanges(body, 0, q.selection), q.selection, q.window, limits, source),
                     targets, sizes, Toggles)
    requires Counted(vcd, VcdQuery(body, q, limits, source), targets, sizes, TogglesFromNonEmpty)
    ensures var all := VcdQuery(body, q, limits, source);
            fst == vcd <==>
            && !(Inverted(q.window) && !(source.atStart && source.atEnd))
            && (FirstError(all).Some? || NeverResumes(OkRows(all), targets, sizes))
  {
    QueriesAgreeExactly(body, q, limits, source);
    if Inverted(q.window) && !(source.atStart && source.atEnd) {
      InvertedVcdIsStale(body, q, limits, source);
    } else {
      CountsOfOneOutput(VcdQuery(body, q, limits, source), targets, sizes, fst, vcd);
    }
  }

  /** A selection is determined by the request. */
  lemma ResolvesOnce(s1: Selection, s2: Selection, names: Names, targets: seq<string>)
    requires Resolves(s1, names, targets) && Resolves(s2, names, targets)
    ensures s1 == s2
  {
    assert forall id :: id in s1 <==> BindingsFor(names, targets, id) != [];
    assert forall id :: id in s2 <==> BindingsFor(names, targets, id) != [];
  }

  /** The answer of the FST back end to a request that neither back end refuses counts what its
      query yields. */
  lemma FstCountsQuery(names: Names, targets: seq<string>, window: TimeWindow, changes: seq<SelectedChange>,
                       source: Source, sizes: Sizes, limits: Limits, selection: Selection,
                       r: Result<map<string, nat>, QueryError>)
    requires Refusal(names, targets, limits).None? && Resolves(selection, names, targets)
    requires FstCounts(names, targets, window, changes, source, sizes, limits, r)
    ensures Counted(r, FstQuery(changes, selection, window, limits, source), targets, sizes, Toggles)
  {
    if Preliminary(names, targets, window, limits, source).Some? {
      StaleCounts(targets, sizes, Toggles);
    } else {
      var s2 :| Resolves(s2, names, targets)
                && Counted(r, Visited(changes, s2, window, limits, source.atEnd), targets, sizes, Toggles);
      ResolvesOnce(selection, s2, names, targets);
    }
  }

  /** The same for whole requests: whatever the two back ends answer to a request that neither
      refuses, on a file with the same changes. */
  lemma CountRequestsAgreeExactly(names: Names, targets: seq<string>, window: TimeWindow, body: Body, source: Source,
                                  sizes: Sizes, limits: Limits, selection: Selection,
                                  fst: Result<map<string, nat>, QueryError>, vcd: Result<map<string, nat>, QueryError>)
    requires WellFormed(body) && TimesNeverDecrease(body) && limits.maxCommands.None?
    requires Refusal(names, targets, limits).None? && Resolves(selection, names, targets)
    requires FstCounts(names, targets, window, SelectedChanges(body, 0, selection), source, sizes, limits, fst)
    requires VcdCounts(names, targets, window, body, source, sizes, limits, vcd)
    ensures var all := VcdQuery(body, Query(selection, window, None, source.atEnd), limits, source);
            fst == vcd <==>
            && !(Inverted(window) && !(source.atStart && source.atEnd))
            && (FirstError(all).Some? || NeverResumes(OkRows(all), targets, sizes))
  {
    var q := Query(selection, window, None, source.atEnd);
    FstCountsQuery(names, targets, window, SelectedChanges(body, 0, selection), source, sizes, limits, selection, fst);
    var s2 :| Resolves(s2, names, targets)
              && Counted(vcd, VcdQuery(body, Query(s2, window, limits.maxCommands, source.atEnd), limits, source),
                         targets, sizes, TogglesFromNonEmpty);
    ResolvesOnce(selection, s2, names, targets);
    CountsAgreeExactly(body, q, limits, source, targets, sizes, fst, vcd);
  }

  lemma {:induction false} ExpandAllAppend(selection: Selection, changes: seq<SelectedChange>, c: SelectedChange)
    ensures ExpandAll(selection, changes + [c]) == ExpandAll(selection, changes) + Expand(selection, c)
  {
    if changes == [] {
      assert [c][1..] == [] && [] + [c] == [c];
      assert ExpandAll(selection, [c]) == Expand(selection, c) + ExpandAll(selection, []);
    } else {
      assert (changes + [c])[1..] == changes[1..] + [c];
      ExpandAllAppend(selection, changes[1..], c);
    }
  }

  /** A body whose only signal takes an empty and then a non-empty text, as a string change or an
      FST string may: one count is 0, the other 1. */
  lemma EmptyTextSplitsCounts()
    ensures var body: Body := [Parsed(StringChange(7, "")), Parsed(StringChange(7, "a"))];
            var q := Query(map[7 := [Binding(0, "s", 1)]], TimeWindow(None, None), None, true);
            var values := ValuesOf(ExpandAll(q.selection, Decode(body, 0, 0, q).changes), map["s" := 1], "s");
            values == ["", "a"] && TogglesFromNonEmpty(values) == 0 && Toggles(values) == 1
  {
    var body: Body := [Parsed(StringChange(7, "")), Parsed(StringChange(7, "a"))];
    var q := Query(map[7 := [Binding(0, "s", 1)]], TimeWindow(None, None), None, true);
    var first, second := SelectedChange(7, 0, Text("")), SelectedChange(7, 0, Text("a"));
    assert Decode(body, 2, 0, q).changes == [];
    assert Decode(body, 1, 0, q).changes == [second];
    assert Decode(body, 0, 0, q).changes == [first, second];
    assert [first, second] == [] + [first] + [second];
    ExpandAllAppend(q.selection, [], first);
    ExpandAllAppend(q.selection, [first], second);
    var rows := ExpandAll(q.selection, [first, second]);
    assert rows == [TimeValue("s", 0, Text("")), TimeValue("s", 0, Text("a"))];
    assert rows[..1] == [TimeValue("s", 0, Text(""))] && rows[..1][..0] == [];
    assert ValuesOf(rows[..1], map["s" := 1], "s") == [""];
    ToggleAppend([""], "a");
    assert [""] + ["a"] == ["", "a"];
  }

  // ------------------------------------------------------------------ duplicate requested names

  function Copies(v: string, n: nat): seq<string> {
    seq(n, _ => v)
  }

  /** Every value `n` times in a row. */
  function Repeated(values: seq<string>, n: nat): seq<string> {
    if values == [] then [] else Repeated(values[..|values| - 1], n) + Copies(values[|values| - 1], n)
  }

  lemma LastRepeats(values: seq<string>, v: string)
    requires values != [] && values[|values| - 1] == v
    ensures Toggles(values + [v]) == Toggles(values) && TogglesFromNonEmpty(values + [v]) == TogglesFromNonEmpty(values)
  {
    ToggleAppend(values, v);
  }

  lemma {:induction false} TogglesOfCopies(values: seq<string>, v: string, n: nat)
    requires n > 0
    ensures Toggles(values + Copies(v, n)) == Toggles(values + [v])
    ensures TogglesFromNonEmpty(values + Copies(v, n)) == TogglesFromNonEmpty(values + [v])
  {
    if n == 1 {
      assert Copies(v, 1) == [v];
    } else {
      var shorter := values + Copies(v, n - 1);
      TogglesOfCopies(values, v, n - 1);
      assert values + Copies(v, n) == shorter + [v] && shorter[|shorter| - 1] == v;
      LastRepeats(shorter, v);
    }
  }

  lemma {:induction false} RepeatedEndsAlike(values: seq<string>, n: nat)
    requires n > 0 && values != []
    ensures Repeated(values, n) != [] && Repeated(values, n)[|Repeated(values, n)| - 1] == values[|values| - 1]
  {
  }

  lemma RepeatedAppend(values: seq<string>, v: string, n: nat)
    ensures Repeated(values + [v], n) == Repeated(values, n) + Copies(v, n)
  {
    assert (values + [v])[..|values|] == values;
  }

  /** Repeating the last value does not change whether it differs from what went before. */
  lemma RepetitionStep(init: seq<string>, v: string, n: nat)
    requires n > 0
    requires Toggles(Repeated(init, n)) == Toggles(init)
    requires TogglesFromNonEmpty(Repeated(init, n)) == TogglesFromNonEmpty(init)
    ensures Toggles(Repeated(init + [v], n)) == Toggles(init + [v])
    ensures TogglesFromNonEmpty(Repeated(init + [v], n)) == TogglesFromNonEmpty(init + [v])
  {
    RepeatedAppend(init, v, n);
    TogglesOfCopies(Repeated(init, n), v, n);
    ToggleAppend(init, v);
    ToggleAppend(Repeated(init, n), v);
    if init != [] {
      RepeatedEndsAlike(init, n);
    }
  }

  /** Requesting a name n times repeats each of its values n times, and that changes neither
      count. */
  lemma {:induction false} RepetitionKeepsToggles(values: seq<string>, n: nat)
    requires n > 0
    ensures Toggles(Repeated(values, n)) == Toggles(values)
    ensures TogglesFromNonEmpty(Repeated(values, n)) == TogglesFromNonEmpty(values)
  {
    if values == [] {
    } else {
      var init, v := values[..|values| - 1], values[|values| - 1];
      assert values == init + [v];
      RepetitionKeepsToggles(init, n);
      RepetitionStep(init, v, n);
    }
  }

  /** How often a name is bound to an identifier. */
  function Multiplicity(bindings: seq<Binding>, name: string): nat {
    if bindings == [] then 0
    else Multiplicity(bindings[..|bindings| - 1], name) + if bindings[|bindings| - 1].name == name then 1 else 0
  }

  lemma {:induction false} ValuesConcat(a: seq<TimeValue>, b: seq<TimeValue>, sizes: Sizes, signal: string)
    ensures ValuesOf(a + b, sizes, signal) == ValuesOf(a, sizes, signal) + ValuesOf(b, sizes, signal)
  {
    if b == [] {
      assert a + b == a;
    } else {
      assert (a + b)[..|a + b| - 1] == a + b[..|b| - 1];
      ValuesConcat(a, b[..|b| - 1], sizes, signal);
    }
  }

  lemma {:induction false} ExpandedValues(bindings: seq<Binding>, time: u64, value: ChangeValue, sizes: Sizes,
                                          name: string)
    ensures ValuesOf(RowsFor(bindings, time, value), sizes, name) ==
            Copies(Formatted(value, SizeOf(sizes, name)), Multiplicity(bindings, name))
  {
    var rows := RowsFor(bindings, time, value);
    if bindings != [] {
      assert rows[..|rows| - 1] == RowsFor(bindings[..|bindings| - 1], time, value);
      ExpandedValues(bindings[..|bindings| - 1], time, value, sizes, name);
    }
  }

  /** The formatted values of the changes of an identifier, under one of its names. */
  function ChangesOf(changes: seq<SelectedChange>, sizes: Sizes, name: string, id: IdCode): seq<string> {
    if changes == [] then []
    else
      ChangesOf(changes[..|changes| - 1], sizes, name, id)
      + if changes[|changes| - 1].id == id then [Formatted(changes[|changes| - 1].value, SizeOf(sizes, name))] else []
  }

  /** The values of a name in an extraction, when only identifier `id` carries that name: those of
      the identifier's changes, each repeated as often as the name was requested. */
  lemma {:induction false} ExtractedValues(selection: Selection, changes: seq<SelectedChange>, sizes: Sizes,
                                           name: string, id: IdCode)
    requires id in selection
    requires forall other | other in selection && other != id :: Multiplicity(selection[other], name) == 0
    ensures ValuesOf(ExpandAll(selection, changes), sizes, name) ==
            Repeated(ChangesOf(changes, sizes, name, id), Multiplicity(selection[id], name))
  {
    if changes == [] {
    } else {
      var init, c := changes[..|changes| - 1], changes[|changes| - 1];
      assert changes == init + [c];
      ExtractedValues(selection, init, sizes, name, id);
      ExpandAllAppend(selection, init, c);
      ValuesConcat(ExpandAll(selection, init), Expand(selection, c), sizes, name);
      if c.id == id {
        ExpandedValues(selection[id], c.time, c.value, sizes, name);
        RepeatedAppend(ChangesOf(init, sizes, name, id), Formatted(c.value, SizeOf(sizes, name)),
                       Multiplicity(selection[id], name));
      } else if c.id in selection {
        ExpandedValues(selection[c.id], c.time, c.value, sizes, name);
        assert ValuesOf(Expand(selection, c), sizes, name) == [];
      }
      assert c.id != id ==> ChangesOf(changes, sizes, name, id) == ChangesOf(init, sizes, name, id);
    }
  }

  lemma MultiplicityAppend(bindings: seq<Binding>, b: Binding, name: string)
    ensures Multiplicity(bindings + [b], name) == Multiplicity(bindings, name) + if b.name == name then 1 else 0
  {
    assert (bindings + [b])[..|bindings|] == bindings;
  }

  /** A requested name is bound to its own identifier only, as often as it was requested. */
  lemma {:induction false} MultiplicityOfRequest(names: Names, targets: seq<string>, name: string, id: IdCode)
    requires name in names
    ensures Multiplicity(BindingsFor(names, targets, id), name) ==
            if names[name].id == id then multiset(targets)[name] else 0
  {
    if targets == [] {
    } else {
      var init, last := targets[..|targets| - 1], targets[|targets| - 1];
      MultiplicityOfRequest(names, init, name, id);
      assert multiset(targets)[name] == multiset(init)[name] + if last == name then 1 else 0 by {
        assert targets == init + [last];
      }
      if last in names && names[last].id == id {
        MultiplicityAppend(BindingsFor(names, init, id), Binding(|init|, last, names[last].size), name);
      } else {
        assert BindingsFor(names, targets, id) == BindingsFor(names, init, id);
      }
    }
  }

  /** The toggle counts of a requested name do not depend on how often it was requested: they are
      those of the changes of its identifier. */
  lemma DuplicatesKeepCounts(names: Names, targets: seq<string>, selection: Selection, changes: seq<SelectedChange>,
                             sizes: Sizes, name: string)
    requires Resolves(selection, names, targets) && name in targets && name in names
    ensures var values, once := ValuesOf(ExpandAll(selection, changes), sizes, name),
                                ChangesOf(changes, sizes, name, names[name].id);
            Toggles(values) == Toggles(once) && TogglesFromNonEmpty(values) == TogglesFromNonEmpty(once)
  {
    var id := names[name].id;
    MultiplicityOfRequest(names, targets, name, id);
    assert BindingsFor(names, targets, id) != [];
    forall other | other in selection && other != id ensures Multiplicity(selection[other], name) == 0 {
      MultiplicityOfRequest(names, targets, name, other);
    }
    ExtractedValues(selection, changes, sizes, name, id);
    RepetitionKeepsToggles(ChangesOf(changes, sizes, name, id), Multiplicity(selection[id], name));
  }
}
