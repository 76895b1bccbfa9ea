/** The visitor of the FST back end: the same rows and budgets as the VCD iterator
    (src/opened/fst.rs). */
module FstVisit {
  import opened Wrappers
  import opened Words
  import opened Decimals
  import opened Values
  import opened Extraction
  import opened ExtractionTheorems
  import opened Occurrences

  /** The changes inside the window, in file order. */
  function InWindow(changes: seq<SelectedChange>, window: TimeWindow): seq<SelectedChange> {
    if changes == [] then []
    else (if Contains(window, changes[0].time) then [changes[0]] else []) + InWindow(changes[1..], window)
  }

  predicate WorkExceeds(limits: Limits, work: nat) {
    limits.maxCommands.Some? && work > limits.maxCommands.value
  }

  /** The rows due from change `k` on and how the visit ends. */
  function Later(changes: seq<SelectedChange>, k: nat, selection: Selection, window: TimeWindow, limits: Limits,
                 current: bool): (seq<TimeValue>, Option<QueryError>)
    requires k <= |changes|
  {
    var readable := if limits.maxCommands.Some? && limits.maxCommands.value < |changes|
                    then (if limits.maxCommands.value < k then k else limits.maxCommands.value) else |changes|;
    (ExpandAll(selection, InWindow(changes[k..readable], window)),
     if readable < |changes| then Some(LimitExceeded(Commands, limits.maxCommands.value, readable + 1))
     else if current then None else Some(StaleSource))
  }

  /** What the visitor still emits for the changes from `k` on. */
  function VisitFrom(changes: seq<SelectedChange>, k: nat, selection: Selection, window: TimeWindow, limits: Limits,
                     current: bool, rows: nat, bytes: nat): Output
    requires k <= |changes|
  {
    var (rest, end) := Later(changes, k, selection, window, limits, current);
    Emit(rest, end, rows, bytes, limits)
  }

  lemma EmitHead(due: seq<TimeValue>, rest: seq<TimeValue>, end: Option<QueryError>, rows: nat, bytes: nat,
                 limits: Limits)
    requires due != []
    ensures var rows', bytes' := SaturatingAdd(rows, 1), SaturatingAdd(bytes, EventBytes(due[0]));
            Emit(due + rest, end, rows, bytes, limits) ==
            if limits.maxRows.Some? && rows' > limits.maxRows.value then
              [Err(LimitExceeded(Rows, limits.maxRows.value, rows'))]
            else if limits.maxResultBytes.Some? && bytes' > limits.maxResultBytes.value then
              [Err(LimitExceeded(ResultBytes, limits.maxResultBytes.value, bytes'))]
            else [Ok(due[0])] + Emit(due[1..] + rest, end, rows', bytes', limits)
  {
    assert (due + rest)[1..] == due[1..] + rest;
  }

  // ------------------------------------------------------------------ visitors

  /** The visitor of an extraction keeps every row; that of a search also counts hits and stops
      the visit at the one it looks for. */
  class RowVisitor {
    const hit: TimeValue -> bool
    const stopAfter: Option<nat>
    var seen: seq<TimeValue>
    var count: nat
    var found: Option<TimeValue>

    constructor (hit: TimeValue -> bool, stopAfter: Option<nat>)
      requires stopAfter != Some(0)
      ensures this.hit == hit && this.stopAfter == stopAfter && seen == [] && Searching()
    {
      this.hit, this.stopAfter := hit, stopAfter;
      seen, count, found := [], 0, None;
    }

    /** Fewer hits than wanted have been seen. */
    predicate Searching()
      reads this
    {
      count == |Matches(seen, hit)| && found == None && (stopAfter.Some? ==> count < stopAfter.value)
    }

    method Accept(row: TimeValue) returns (more: bool)
      requires Searching()
      modifies this
      ensures seen == old(seen) + [row]
      ensures more ==> Searching()
      ensures !more ==> hit(row) && stopAfter == Some(|Matches(old(seen), hit)| + 1) && found == Some(row)
    {
      MatchesAppend(seen, row, hit);
      seen := seen + [row];
      if hit(row) {
        count := count + 1;
        if stopAfter == Some(count) {
          found := Some(row);
          return false;
        }
      }
      return true;
    }
  }

  datatype Turn = Continue | Stop | Fail(error: QueryError)

  /** What a visitor knows when the visit of an output is over. */
  ghost predicate Reported(visitor: RowVisitor, all: Output, turn: Turn)
    reads visitor
  {
    match turn
    case Continue => false
    case Stop => visitor.seen <= OkRows(all) && visitor.stopAfter.Some? && visitor.stopAfter.value > 0
                 && visitor.found.Some? && Nth(OkRows(all), visitor.hit, visitor.stopAfter.value) == visitor.found
    case Fail(error) => visitor.seen == OkRows(all) && FirstError(all) == Some(error) && visitor.Searching()
  }

  /** The inner loop over the names bound to one handle; what is left of the output after it is
      that of `rest`. */
  method VisitNames(due: seq<TimeValue>, ghost rest: seq<TimeValue>, ghost end: Option<QueryError>, rows: nat,
                    bytes: nat, limits: Limits, visitor: RowVisitor, ghost all: Output)
    returns (turn: Turn, rows': nat, bytes': nat)
    requires visitor.Searching() && Reading(visitor.seen, Emit(due + rest, end, rows, bytes, limits), all)
    modifies visitor
    ensures turn == Continue ==>
              visitor.Searching() && Reading(visitor.seen, Emit(rest, end, rows', bytes', limits), all)
    ensures turn != Continue ==> Reported(visitor, all, turn)
    ensures old(visitor.seen) <= visitor.seen
  {
    rows', bytes' := rows, bytes;
    assert due[0..] == due;
    for k := 0 to |due|
      invariant visitor.Searching() && old(visitor.seen) <= visitor.seen
      invariant Reading(visitor.seen, Emit(due[k..] + rest, end, rows', bytes', limits), all)
    {
      ghost var output := Emit(due[k..] + rest, end, rows', bytes', limits);
      EmitHead(due[k..], rest, end, rows', bytes', limits);
      assert due[k..][1..] == due[k + 1..];
      var nextRows := SaturatingAdd(rows', 1);
      if limits.maxRows.Some? && nextRows > limits.maxRows.value {
        ReadingEnds(visitor.seen, output, all);
        return Fail(LimitExceeded(Rows, limits.maxRows.value, nextRows)), rows', bytes';
      }
      var nextBytes := SaturatingAdd(bytes', EventBytes(due[k]));
      if limits.maxResultBytes.Some? && nextBytes > limits.maxResultBytes.value {
        ReadingEnds(visitor.seen, output, all);
        return Fail(LimitExceeded(ResultBytes, limits.maxResultBytes.value, nextBytes)), rows', bytes';
      }
      bytes', rows' := nextBytes, nextRows;
      ghost var later := Emit(due[k + 1..] + rest, end, rows', bytes', limits);
      ReadingRow(visitor.seen, due[k], later, all);
      if visitor.hit(due[k]) {
        SearchFinds(visitor.seen, due[k], later, all, visitor.hit);
      }
      var more := visitor.Accept(due[k]);
      if !more {
        return Stop, rows', bytes';
      }
    }
    assert due[|due|..] + rest == rest;
    return Continue, rows', bytes';
  }

  // ------------------------------------------------------------------ the visit

  /** A window whose start lies after its end. */
  predicate Inverted(window: TimeWindow) {
    window.start.Some? && window.end.Some? && window.start.value > window.end.value
  }

  /** Everything a visit that has been admitted yields to a visitor that never stops it; the
      final validation finds the source current or not. */
  function Visited(changes: seq<SelectedChange>, selection: Selection, window: TimeWindow, limits: Limits,
                   current: bool): Output {
    VisitFrom(changes, 0, selection, window, limits, current, 0, 0)
  }

  /** How a visit ends: a stopped one only has to find the source current. */
  function Outcome(turn: Turn, current: bool): Result<(), QueryError> {
    match turn
    case Fail(error) => Err(error)
    case _ => if current then Ok(()) else Err(StaleSource)
  }

  /** What a visitor has seen of an output, and how the visit ended. */
  ghost predicate Watched(visitor: RowVisitor, all: Output, current: bool, r: Result<(), QueryError>)
    reads visitor
  {
    if visitor.found.Some? then Reported(visitor, all, Stop) && r == Outcome(Stop, current)
    else
      && visitor.Searching() && visitor.seen == OkRows(all)
      && r == if FirstError(all).Some? then Err(FirstError(all).value) else Ok(())
  }

  lemma CommandLimitEnds(changes: seq<SelectedChange>, k: nat, selection: Selection, window: TimeWindow, limits: Limits,
                         current: bool, rows: nat, bytes: nat)
    requires k < |changes| && !WorkExceeds(limits, k) && WorkExceeds(limits, k + 1)
    ensures VisitFrom(changes, k, selection, window, limits, current, rows, bytes) ==
            [Err(LimitExceeded(Commands, limits.maxCommands.value, k + 1))]
  {
    assert changes[k..k] == [];
  }

  lemma VisitEnds(changes: seq<SelectedChange>, selection: Selection, window: TimeWindow, limits: Limits, current: bool,
                  rows: nat, bytes: nat)
    requires !WorkExceeds(limits, |changes|)
    ensures VisitFrom(changes, |changes|, selection, window, limits, current, rows, bytes) ==
            if current then [] else [Err(StaleSource)]
  {
    assert changes[|changes|..|changes|] == [];
  }

  lemma VisitStep(changes: seq<SelectedChange>, k: nat, selection: Selection, window: TimeWindow, limits: Limits,
                  current: bool, rows: nat, bytes: nat)
    requires k < |changes| && !WorkExceeds(limits, k + 1)
    ensures var (rest, end) := Later(changes, k + 1, selection, window, limits, current);
            VisitFrom(changes, k, selection, window, limits, current, rows, bytes) ==
            Emit(if Contains(window, changes[k].time) then Expand(selection, changes[k]) + rest else rest,
                 end, rows, bytes, limits)
  {
    var readable := if limits.maxCommands.Some? && limits.maxCommands.value < |changes| then limits.maxCommands.value
                    else |changes|;
    var tail := changes[k..readable];
    assert tail[0] == changes[k] && tail[1..] == changes[k + 1..readable];
    var later := InWindow(tail[1..], window);
    if Contains(window, changes[k].time) {
      assert ([tail[0]] + later)[1..] == later;
    } else {
      assert [] + later == later;
    }
  }

  /** The callback of the reader over all changes. A cancelled visit has seen a prefix of the rows. */
  method VisitChanges(changes: seq<SelectedChange>, selection: Selection, window: TimeWindow, current: bool,
                      context: QueryContext, visitor: RowVisitor)
    returns (r: Result<(), QueryError>)
    requires |changes| <= U64_MAX && visitor.Searching() && visitor.seen == []
    modifies context, visitor
    ensures var all := Visited(changes, selection, window, context.limits, current);
            Watched(visitor, all, current, r) || (r == Err(Cancelled) && visitor.seen <= OkRows(all))
    ensures old(context.checksLeft).None? ==>
              context.checksLeft.None?
                  && Watched(visitor, Visited(changes, selection, window, context.limits, current), current, r)
    ensures old(context.checksLeft) == Some(0) ==> r == Err(Cancelled)
  {
    var limits := context.limits;
    var rows, bytes, work, turn := 0, 0, 0, Continue;
    ghost var all := Visited(changes, selection, window, limits, current);
    ReadingStarts(all);
    for k := 0 to |changes|
      invariant old(context.checksLeft).None? ==> context.checksLeft.None?
      invariant old(context.checksLeft) == Some(0) ==> context.checksLeft == Some(0)
      invariant work == k && !WorkExceeds(limits, k)
      invariant visitor.Searching()
      invariant Reading(visitor.seen, VisitFrom(changes, k, selection, window, limits, current, rows, bytes), all)
    {
      work := SaturatingAdd(work, 1);
      var ok := context.Check();
      if !ok {
        return Err(Cancelled);
      }
      if WorkExceeds(limits, work) {
        CommandLimitEnds(changes, k, selection, window, limits, current, rows, bytes);
        ReadingEnds(visitor.seen, VisitFrom(changes, k, selection, window, limits, current, rows, bytes), all);
        return Err(LimitExceeded(Commands, limits.maxCommands.value, work));
      }
      VisitStep(changes, k, selection, window, limits, current, rows, bytes);
      if Contains(window, changes[k].time) {
        ghost var (rest, end) := Later(changes, k + 1, selection, window, limits, current);
        turn, rows, bytes := VisitNames(Expand(selection, changes[k]), rest, end, rows, bytes, limits, visitor, all);
        if turn.Fail? {
          return Err(turn.error);
        }
        if turn.Stop? {
          break;
        }
      }
    }
    if turn != Stop {
      VisitEnds(changes, selection, window, limits, current, rows, bytes);
      ReadingEnds(visitor.seen, VisitFrom(changes, |changes|, selection, window, limits, current, rows, bytes), all);
    }
    var ok := context.Check();
    if !ok {
      return Err(Cancelled);
    }
    return if current then Ok(()) else Err(StaleSource);
  }

  // ------------------------------------------------------------------ the whole query

  lemma {:induction false} MissingPrefix(names: Names, targets: seq<string>, n: nat)
    requires n <= |targets|
    ensures Missing(names, targets[..n]) <= Missing(names, targets)
  {
    if n == |targets| {
      assert targets[..n] == targets;
    } else {
      MissingPrefix(names, targets[..|targets| - 1], n);
      assert targets[..|targets| - 1][..n] == targets[..n];
    }
  }

  /** The loop over the targets; the first unknown name is the error. */
  method ResolveHandles(names: Names, targets: seq<string>) returns (r: Result<Selection, QueryError>)
    ensures r.Ok? ==> Missing(names, targets) == [] && Resolves(r.value, names, targets)
    ensures r.Err? ==> Missing(names, targets) != [] && r.error == MissingSignals([Missing(names, targets)[0]])
  {
    var byHandle: Selection := map[];
    for n := 0 to |targets|
      invariant Gathered(byHandle, [], names, targets[..n])
    {
      GatherStep(byHandle, [], names, targets, n);
      if targets[n] !in names {
        MissingPrefix(names, targets, n + 1);
        return Err(MissingSignals([targets[n]]));
      }
      var id := names[targets[n]].id;
      var bound := if id in byHandle then byHandle[id] else [];
      byHandle := byHandle[id := bound + [Binding(n, targets[n], names[targets[n]].size)]];
    }
    assert targets[..|targets|] == targets;
    return Ok(byHandle);
  }

  /** What a visit comes to before it is admitted to the source, if it is not: the signal limit,
      then at once success for an inverted window, then the first unknown name, then a source that
      is not current. */
  function Preliminary(names: Names, targets: seq<string>, window: TimeWindow, limits: Limits, source: Source):
      Option<Result<(), QueryError>>
  {
    if SignalLimit(limits, |targets|).Some? then Some(Err(SignalLimit(limits, |targets|).value))
    else if Inverted(window) then Some(Ok(()))
    else if Missing(names, targets) != [] then Some(Err(MissingSignals([Missing(names, targets)[0]])))
    else if !source.atStart then Some(Err(StaleSource))
    else None
  }

  ghost predicate VisitComesTo(names: Names, targets: seq<string>, window: TimeWindow, changes: seq<SelectedChange>,
                               source: Source, limits: Limits, visitor: RowVisitor, r: Result<(), QueryError>)
    reads visitor
  {
    var early := Preliminary(names, targets, window, limits, source);
    if early.Some? then r == early.value && visitor.seen == [] && visitor.Searching()
    else exists selection ::
      Resolves(selection, names, targets)
      && Watched(visitor, Visited(changes, selection, window, limits, source.atEnd), source.atEnd, r)
  }

  /** `visit_changes_until_with_context`, for a file that the parser reads to its end. */
  method Visit(names: Names, targets: seq<string>, window: TimeWindow, changes: seq<SelectedChange>, source: Source,
               context: QueryContext, visitor: RowVisitor)
    returns (r: Result<(), QueryError>)
    requires |changes| <= U64_MAX && visitor.Searching() && visitor.seen == []
    modifies context, visitor
    ensures VisitComesTo(names, targets, window, changes, source, context.limits, visitor, r) || r == Err(Cancelled)
    ensures old(context.checksLeft).None? ==>
              context.checksLeft.None?
                  && VisitComesTo(names, targets, window, changes, source, context.limits, visitor, r)
    ensures old(context.checksLeft) == Some(0) ==> r == Err(Cancelled)
  {
    var error := context.CheckSignalCount(|targets|);
    if error.Some? {
      return Err(error.value);
    }
    if Inverted(window) {
      return Ok(());
    }
    var selection := ResolveHandles(names, targets);
    if selection.Err? {
      return Err(selection.error);
    }
    var ok := context.Check();
    if !ok {
      return Err(Cancelled);
    }
    if !source.atStart {
      return Err(StaleSource);
    }
    r := VisitChanges(changes, selection.value, window, source.atEnd, context, visitor);
  }

  /** Where a request is refused before anything is read, the two back ends report the same error
      exactly if the signal limit is exceeded, or the window is not inverted and one name only is
      unknown: the FST back end accepts an inverted window first and names no second name. */
  lemma RefusalsAgreeExactly(names: Names, targets: seq<string>, window: TimeWindow, limits: Limits, source: Source)
    requires Refusal(names, targets, limits).Some?
    ensures Preliminary(names, targets, window, limits, source) == Some(Err(Refusal(names, targets, limits).value)) <==>
            || (limits.maxSignals.Some? && |targets| > limits.maxSignals.value)
            || (!(window.start.Some? && window.end.Some? && window.end.value < window.start.value)
                && |Missing(names, targets)| == 1)
  {
    RefusalExactly(names, targets, limits, "");
    var missing := Missing(names, targets);
    if missing != [] {
      assert |missing| == 1 <==> missing == [missing[0]];
    }
  }

  /** Without row and byte limits, a command limit c lets the rows of the first c changes through
      and fails exactly when there are more; otherwise it is not seen. */
  lemma CallbackLimitCuts(changes: seq<SelectedChange>, selection: Selection, window: TimeWindow, limits: Limits,
                          current: bool, c: nat)
    requires limits.maxRows.None? && limits.maxResultBytes.None? && limits.maxCommands == Some(c)
    ensures var visited := Visited(changes, selection, window, limits, current);
            if |changes| > c then
              && OkRows(visited) == ExpandAll(selection, InWindow(changes[..c], window))
              && FirstError(visited) == Some(LimitExceeded(Commands, c, c + 1))
            else
              && OkRows(visited) == ExpandAll(selection, InWindow(changes, window))
              && FirstError(visited) == if current then None else Some(StaleSource)
  {
    var (due, end) := Later(changes, 0, selection, window, limits, current);
    EmitUnlimited(due, end, 0, 0, limits);
    RowsAndEnd(due, end);
    assert changes[0..|changes|] == changes;
  }

  // ------------------------------------------------------------------ agreement with the VCD back end

  /** Every change of a selected identifier in a VCD body, whatever its time. */
  function SelectedChanges(body: Body, pos: nat, selection: Selection): seq<SelectedChange>
    requires pos <= |body|
    decreases |body| - pos
  {
    if pos == |body| then []
    else
      (if body[pos].Parsed? && Converted(body[pos].command).Some?
       && Converted(body[pos].command).value.0 in selection then
         [SelectedChange(Converted(body[pos].command).value.0, TimeBefore(body, pos),
                         Converted(body[pos].command).value.1)]
       else [])
      + SelectedChanges(body, pos + 1, selection)
  }

  lemma {:induction false} WindowIsFilter(body: Body, pos: nat, selection: Selection, window: TimeWindow)
    requires pos <= |body|
    ensures ExpandAll(selection, InWindow(SelectedChanges(body, pos, selection), window)) ==
            Filter(body, pos, |body|, selection, window)
    decreases |body| - pos
  {
    if pos >= |body| {
    } else {
      WindowIsFilter(body, pos + 1, selection, window);
      var rest := SelectedChanges(body, pos + 1, selection);
      if body[pos].Parsed? && Converted(body[pos].command).Some? && Converted(body[pos].command).value.0 in selection {
        var (id, value) := Converted(body[pos].command).value;
        var head := SelectedChange(id, TimeBefore(body, pos), value);
        assert ([head] + rest)[1..] == rest;
        var later := InWindow(rest, window);
        assert ([head] + later)[1..] == later && [] + later == later;
      } else {
        assert [] + rest == rest;
      }
    }
  }

  lemma {:induction false} InvertedFilterIsEmpty(body: Body, lo: nat, hi: nat, selection: Selection, window: TimeWindow)
    requires Inverted(window) && hi <= |body|
    ensures Filter(body, lo, hi, selection, window) == []
    decreases hi - lo
  {
    if lo >= hi {
    } else {
      InvertedFilterIsEmpty(body, lo + 1, hi, selection, window);
    }
  }

  /** An admitted visit of an FST file that holds the changes of an error-free VCD body with
      non-decreasing timestamps yields the same output as that body: same rows, same order, same
      row and byte limits, same final validation. */
  lemma BackEndsExtractAlike(body: Body, q: Query, limits: Limits)
    requires WellFormed(body) && TimesNeverDecrease(body) && q.maxCommands.None? && limits.maxCommands.None?
    ensures Visited(SelectedChanges(body, 0, q.selection), q.selection, q.window, limits, q.sourceFresh) ==
            Extracted(body, q, limits)
  {
    ExtractionIsFilter(body, q);
    EarlyStopIsExact(body, q.selection, q.window);
    WindowIsFilter(body, 0, q.selection, q.window);
    var changes := SelectedChanges(body, 0, q.selection);
    assert changes[0..|changes|] == changes;
  }

  /** All a query on an FST file yields, from the request on: nothing for an inverted window. */
  function FstQuery(changes: seq<SelectedChange>, selection: Selection, window: TimeWindow, limits: Limits,
                    source: Source): Output {
    if Inverted(window) then []
    else if !source.atStart then [Err(StaleSource)]
    else Visited(changes, selection, window, limits, source.atEnd)
  }

  function VcdQuery(body: Body, q: Query, limits: Limits, source: Source): Output {
    if !source.atStart then [Err(StaleSource)] else Extracted(body, q, limits)
  }

  /** Of the same request, the two back ends yield the same exactly unless the window is inverted
      and the source has changed: then the FST back end reports success and the VCD back end a
      stale source. */
  lemma QueriesAgreeExactly(body: Body, q: Query, limits: Limits, source: Source)
    requires WellFormed(body) && TimesNeverDecrease(body) && q.maxCommands.None? && limits.maxCommands.None?
    requires q.sourceFresh == source.atEnd
    ensures FstQuery(SelectedChanges(body, 0, q.selection), q.selection, q.window, limits, source) ==
            VcdQuery(body, q, limits, source) <==>
            !(Inverted(q.window) && !(source.atStart && source.atEnd))
  {
    BackEndsExtractAlike(body, q, limits);
    if Inverted(q.window) && source.atStart {
      ExtractionIsFilter(body, q);
      InvertedFilterIsEmpty(body, 0, Halt(body, q.window), q.selection, q.window);
    }
  }

  lemma {:induction false} EmitEndsWithError(due: seq<TimeValue>, end: Option<QueryError>, rows: nat, bytes: nat,
                                             limits: Limits)
    requires end.Some?
    ensures FirstError(Emit(due, end, rows, bytes, limits)).Some?
    decreases |due|
  {
    if due != [] {
      var rows', bytes' := SaturatingAdd(rows, 1), SaturatingAdd(bytes, EventBytes(due[0]));
      EmitEndsWithError(due[1..], end, rows', bytes', limits);
      RowThenRest(due[0], Emit(due[1..], end, rows', bytes', limits));
    }
  }

  lemma {:induction false} DecodeOfChangedSource(body: Body, pos: nat, time: u64, q: Query)
    requires !q.sourceFresh
    ensures Decode(body, pos, time, q).end.Some?
    decreases |body| - pos
  {
    if pos < |body| && body[pos].Parsed? {
      DecodeOfChangedSource(body, pos + 1, if body[pos].command.Timestamp? then body[pos].command.time else time, q);
    }
  }

  /** No query comes to an end without an error on a source that has changed, except the one for an
      inverted window on an FST file. */
  lemma ChangedSourceIsNoticed(body: Body, changes: seq<SelectedChange>, q: Query, limits: Limits, source: Source)
    requires !(source.atStart && source.atEnd) && q.sourceFresh == source.atEnd
    ensures FirstError(VcdQuery(body, q, limits, source)).Some?
    ensures FirstError(FstQuery(changes, q.selection, q.window, limits, source)).Some? <==> !Inverted(q.window)
  {
    if source.atStart {
      var d := Decode(body, 0, 0, q);
      DecodeOfChangedSource(body, 0, 0, q);
      EmitEndsWithError(ExpandAll(q.selection, d.changes), d.end, 0, 0, limits);
      var (due, end) := Later(changes, 0, q.selection, q.window, limits, source.atEnd);
      EmitEndsWithError(due, end, 0, 0, limits);
    }
  }
}
