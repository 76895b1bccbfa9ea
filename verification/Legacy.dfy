/** The legacy extraction iterator and the body scan for time bounds (src/lib.rs). */
module Legacy {
  import opened Wrappers
  import opened Words
  import opened Decimals
  import opened Values
  import opened Extraction
  import opened ExtractionTheorems

  type TargetMap = map<IdCode, seq<string>>

  function BindingNames(bindings: seq<Binding>): seq<string> {
    seq(|bindings|, i requires 0 <= i < |bindings| => bindings[i].name)
  }

  /** The map lists, for every identifier with a requested name, its names in request order. */
  ghost predicate Maps(mapping: TargetMap, names: Names, targets: seq<string>) {
    && (forall id | id in mapping :: mapping[id] == BindingNames(BindingsFor(names, targets, id)) != [])
    && (forall id :: BindingsFor(names, targets, id) != [] ==> id in mapping)
  }

  lemma BindingsStep(names: Names, targets: seq<string>, n: nat, id: IdCode)
    requires n < |targets|
    ensures BindingsFor(names, targets[..n + 1], id) == BindingsFor(names, targets[..n], id)
            + if targets[n] in names && names[targets[n]].id == id
               then [Binding(n, targets[n], names[targets[n]].size)] else []
  {
    assert targets[..n + 1][..n] == targets[..n];
  }

  lemma NamesAppend(bindings: seq<Binding>, b: Binding)
    ensures BindingNames(bindings + [b]) == BindingNames(bindings) + [b.name]
  {
  }

  lemma MapsStep(mapping: TargetMap, mapping': TargetMap, names: Names, targets: seq<string>, n: nat)
    requires n < |targets| && targets[n] in names && Maps(mapping, names, targets[..n])
    requires var id := names[targets[n]].id;
             mapping' == mapping[id := (if id in mapping then mapping[id] else []) + [targets[n]]]
    ensures Maps(mapping', names, targets[..n + 1])
  {
    var id := names[targets[n]].id;
    forall i ensures i in mapping' ==> mapping'[i] == BindingNames(BindingsFor(names, targets[..n + 1], i)) != []
             ensures BindingsFor(names, targets[..n + 1], i) != [] ==> i in mapping'
    {
      BindingsStep(names, targets, n, i);
      NamesAppend(BindingsFor(names, targets[..n], i), Binding(n, targets[n], names[targets[n]].size));
    }
  }

  lemma MapsSkip(mapping: TargetMap, names: Names, targets: seq<string>, n: nat)
    requires n < |targets| && targets[n] !in names && Maps(mapping, names, targets[..n])
    ensures Maps(mapping, names, targets[..n + 1])
  {
    forall i ensures BindingsFor(names, targets[..n + 1], i) == BindingsFor(names, targets[..n], i) {
      BindingsStep(names, targets, n, i);
    }
  }

  /** `build_target_map`. */
  method BuildTargetMap(names: Names, targets: seq<string>) returns (mapping: TargetMap, missing: seq<string>)
    ensures Maps(mapping, names, targets)
    ensures missing == Missing(names, targets)
  {
    mapping, missing := map[], [];
    for n := 0 to |targets|
      invariant Maps(mapping, names, targets[..n])
      invariant missing == Missing(names, targets[..n])
    {
      var name := targets[n];
      MissingStep(names, targets, n);
      if name in names {
        var id := names[name].id;
        ghost var before := mapping;
        mapping := mapping[id := (if id in mapping then mapping[id] else []) + [name]];
        MapsStep(before, mapping, names, targets, n);
      } else {
        MapsSkip(mapping, names, targets, n);
        missing := missing + [name];
      }
    }
    assert targets[..|targets|] == targets;
  }

  function RowsNamed(names: seq<string>, time: u64, value: ChangeValue): seq<TimeValue> {
    seq(|names|, i requires 0 <= i < |names| => TimeValue(names[i], time, value))
  }

  /** Everything the legacy iterator yields from command `pos` on; a malformed command is reported
      and skipped. */
  function LegacyOutput(body: Body, pos: nat, time: u64, mapping: TargetMap, window: TimeWindow): Output
    decreases |body| - pos
  {
    if pos >= |body| then []
    else if body[pos].Malformed? then [Err(ParseFailure)] + LegacyOutput(body, pos + 1, time, mapping, window)
    else if body[pos].command.Timestamp? then
      if After(window, body[pos].command.time) then []
      else LegacyOutput(body, pos + 1, body[pos].command.time, mapping, window)
    else if Converted(body[pos].command).Some? && Converted(body[pos].command).value.0 in mapping then
      var (id, value) := Converted(body[pos].command).value;
      if Contains(window, time)
          then Oks(RowsNamed(mapping[id], time, value)) + LegacyOutput(body, pos + 1, time, mapping, window)
      else if After(window, time) then []
      else LegacyOutput(body, pos + 1, time, mapping, window)
    else LegacyOutput(body, pos + 1, time, mapping, window)
  }

  lemma HeadIsNext(rows: seq<TimeValue>, rest: Output)
    requires rows != []
    ensures Oks(rows) + rest == [Ok(rows[0])] + (Oks(rows[1..]) + rest)
  {
  }

  lemma NothingPending(rest: Output)
    ensures Oks([]) + rest == rest
  {
  }

  class TimeValueIter {
    const body: Body
    const targetMap: TargetMap
    const window: TimeWindow
    var position: nat
    var currentTime: u64
    var finished: bool
    var pending: seq<TimeValue>

    constructor (body: Body, targetMap: TargetMap, window: TimeWindow)
      ensures this.body == body && this.targetMap == targetMap && this.window == window
      ensures Remaining() == LegacyOutput(body, 0, 0, targetMap, window)
    {
      this.body, this.targetMap, this.window := body, targetMap, window;
      position, currentTime, finished, pending := 0, 0, false, [];
      new;
      assert Oks([]) + LegacyOutput(body, 0, 0, targetMap, window) == LegacyOutput(body, 0, 0, targetMap, window);
    }

    ghost function Remaining(): Output
      reads this
    {
      Oks(pending) + if finished then [] else LegacyOutput(body, position, currentTime, targetMap, window)
    }

    method Next() returns (r: Option<Result<TimeValue, QueryError>>)
      modifies this
      ensures r.None? ==> old(Remaining()) == [] && Remaining() == []
      ensures r.Some? ==> old(Remaining()) == [r.value] + Remaining()
    {
      ghost var due := Remaining();
      if pending != [] {
        HeadIsNext(pending, if finished then [] else LegacyOutput(body, position, currentTime, targetMap, window));
        r := Some(Ok(pending[0]));
        pending := pending[1..];
        return;
      }
      if finished {
        return None;
      }
      NothingPending(LegacyOutput(body, position, currentTime, targetMap, window));
      while position < |body|
        invariant pending == [] && !finished && LegacyOutput(body, position, currentTime, targetMap, window) == due
        decreases |body| - position
      {
        var item := body[position];
        position := position + 1;
        if item.Malformed? {
          NothingPending(LegacyOutput(body, position, currentTime, targetMap, window));
          return Some(Err(ParseFailure));
        }
        if item.command.Timestamp? {
          currentTime := item.command.time;
          if After(window, currentTime) {
            finished := true;
            return None;
          }
        } else if Converted(item.command).Some? && Converted(item.command).value.0 in targetMap {
          var (id, value) := Converted(item.command).value;
          if Contains(window, currentTime) {
            var rows := RowsNamed(targetMap[id], currentTime, value);
            if rows != [] {
              HeadIsNext(rows, LegacyOutput(body, position, currentTime, targetMap, window));
              r := Some(Ok(rows[0]));
              pending := rows[1..];
              return;
            }
            NothingPending(LegacyOutput(body, position, currentTime, targetMap, window));
          } else if After(window, currentTime) {
            finished := true;
            return None;
          }
        }
      }
      finished := true;
      return None;
    }
  }

  lemma {:induction false} OksConcat(a: seq<TimeValue>, b: seq<TimeValue>)
    ensures Oks(a + b) == Oks(a) + Oks(b)
  {
    if a == [] {
      assert a + b == b;
    } else {
      assert (a + b)[1..] == a[1..] + b;
      OksConcat(a[1..], b);
    }
  }

  lemma {:induction false} LegacyAgreesFrom(body: Body, pos: nat, time: u64, mapping: TargetMap, q: Query)
    requires WellFormed(body) && q.maxCommands.None? && !After(q.window, time)
    requires mapping.Keys == q.selection.Keys && forall id | id in mapping ::
              mapping[id] == BindingNames(q.selection[id])
    ensures LegacyOutput(body, pos, time, mapping, q.window) ==
            Oks(ExpandAll(q.selection, Decode(body, pos, time, q).changes))
    decreases |body| - pos
  {
    if pos >= |body| {
    } else {
      assert body[pos].Parsed?;
      var command := body[pos].command;
      if command.Timestamp? {
        if !After(q.window, command.time) {
          LegacyAgreesFrom(body, pos + 1, command.time, mapping, q);
        }
      } else {
        LegacyAgreesFrom(body, pos + 1, time, mapping, q);
        if Wanted(q, body[pos], time) {
          var (id, value) := Converted(command).value;
          var rest := Decode(body, pos + 1, time, q);
          assert ([SelectedChange(id, time, value)] + rest.changes)[1..] == rest.changes;
          assert RowsNamed(mapping[id], time, value) == RowsFor(q.selection[id], time, value);
          OksConcat(RowsFor(q.selection[id], time, value), ExpandAll(q.selection, rest.changes));
        }
      }
    }
  }

  /** On a well-formed body, the reusable extraction and the legacy iterator yield the same rows,
      for the selection and the target map of the same request. */
  lemma LegacyAgrees(body: Body, names: Names, targets: seq<string>, mapping: TargetMap, q: Query)
    requires WellFormed(body) && q.maxCommands.None?
    requires Maps(mapping, names, targets) && Resolves(q.selection, names, targets)
    ensures LegacyOutput(body, 0, 0, mapping, q.window) == Oks(ExpandAll(q.selection, Decode(body, 0, 0, q).changes))
  {
    forall id ensures id in mapping <==> id in q.selection {
      assert id in mapping ==> BindingsFor(names, targets, id) != [];
    }
    LegacyAgreesFrom(body, 0, 0, mapping, q);
  }

  // ------------------------------------------------------------------ bodies with malformed commands

  /** The body without its malformed commands. */
  function Sound(body: Body): Body {
    if body == [] then [] else (if body[0].Parsed? then [body[0]] else []) + Sound(body[1..])
  }

  function MalformedCount(body: Body): nat {
    if body == [] then 0 else (if body[0].Malformed? then 1 else 0) + MalformedCount(body[1..])
  }

  /** The rows of an output, whatever errors lie between them. */
  function AllRows(output: Output): seq<TimeValue> {
    if output == [] then []
    else (if output[0].Ok? then [output[0].value] else []) + AllRows(output[1..])
  }

  function ErrorCount(output: Output): nat {
    if output == [] then 0 else (if output[0].Err? then 1 else 0) + ErrorCount(output[1..])
  }

  lemma {:induction false} SoundIsWellFormed(body: Body)
    ensures WellFormed(Sound(body))
  {
    if body != [] {
      SoundIsWellFormed(body[1..]);
    }
  }

  lemma RowInFront(row: TimeValue, rest: Output)
    ensures AllRows([Ok(row)] + rest) == [row] + AllRows(rest) && ErrorCount([Ok(row)] + rest) == ErrorCount(rest)
  {
    assert ([Ok(row)] + rest)[1..] == rest;
  }

  lemma HeadAndRest(rows: seq<TimeValue>, more: seq<TimeValue>)
    requires rows != []
    ensures [rows[0]] + (rows[1..] + more) == rows + more
  {
  }

  lemma {:induction false} RowsInFront(rows: seq<TimeValue>, rest: Output)
    ensures AllRows(Oks(rows) + rest) == rows + AllRows(rest) && ErrorCount(Oks(rows) + rest) == ErrorCount(rest)
  {
    if rows == [] {
      assert Oks(rows) + rest == rest;
    } else {
      var tail := Oks(rows[1..]) + rest;
      RowsInFront(rows[1..], rest);
      HeadIsNext(rows, rest);
      RowInFront(rows[0], tail);
      assert Oks(rows) + rest == [Ok(rows[0])] + tail;
      HeadAndRest(rows, AllRows(rest));
    }
  }

  lemma {:induction false} LegacyShift(body: Body, pos: nat, time: u64, mapping: TargetMap, window: TimeWindow)
    requires pos <= |body|
    ensures LegacyOutput(body, pos, time, mapping, window) == LegacyOutput(body[pos..], 0, time, mapping, window)
    decreases |body| - pos
  {
    if pos < |body| {
      var tail := body[pos..];
      assert tail[1..] == body[pos + 1..];
      var time' := if body[pos].Parsed? && body[pos].command.Timestamp? then body[pos].command.time else time;
      LegacyShift(body, pos + 1, time', mapping, window);
      if pos > 0 {
        LegacyShift(tail, 1, time', mapping, window);
      }
    }
  }

  /** The output of a body by its first command. */
  lemma LegacyHead(body: Body, time: u64, mapping: TargetMap, window: TimeWindow)
    requires body != []
    ensures var rest := body[1..];
            LegacyOutput(body, 0, time, mapping, window) ==
            if body[0].Malformed? then [Err(ParseFailure)] + LegacyOutput(rest, 0, time, mapping, window)
            else LegacyOutput([body[0]] + rest, 0, time, mapping, window)
  {
    LegacyShift(body, 1, time, mapping, window);
    assert body == [body[0]] + body[1..];
  }

  lemma LegacyTail(item: Item, rest: Body, other: Body, time: u64, mapping: TargetMap, window: TimeWindow)
    requires item.Parsed?
    requires forall now: u64 ::
               AllRows(LegacyOutput(rest, 0, now, mapping, window)) ==
               AllRows(LegacyOutput(other, 0, now, mapping, window))
    ensures AllRows(LegacyOutput([item] + rest, 0, time, mapping, window)) ==
            AllRows(LegacyOutput([item] + other, 0, time, mapping, window))
  {
    var now := if item.command.Timestamp? then item.command.time else time;
    LegacyShift([item] + rest, 1, now, mapping, window);
    LegacyShift([item] + other, 1, now, mapping, window);
    assert ([item] + rest)[1..] == rest && ([item] + other)[1..] == other;
    if Converted(item.command).Some? && Converted(item.command).value.0 in mapping {
      var (id, value) := Converted(item.command).value;
      RowsInFront(RowsNamed(mapping[id], time, value), LegacyOutput(rest, 0, time, mapping, window));
      RowsInFront(RowsNamed(mapping[id], time, value), LegacyOutput(other, 0, time, mapping, window));
    }
  }

  lemma {:induction false} MalformedRowsSkip(body: Body, time: u64, mapping: TargetMap, window: TimeWindow)
    ensures AllRows(LegacyOutput(body, 0, time, mapping, window)) ==
            AllRows(LegacyOutput(Sound(body), 0, time, mapping, window))
  {
    if body != [] {
      var rest := body[1..];
      LegacyHead(body, time, mapping, window);
      if body[0].Malformed? {
        MalformedRowsSkip(rest, time, mapping, window);
        assert ([Err(ParseFailure)] + LegacyOutput(rest, 0, time, mapping, window))[1..] ==
            LegacyOutput(rest, 0, time, mapping, window);
        assert [] + Sound(rest) == Sound(rest);
      } else {
        forall now: u64
          ensures AllRows(LegacyOutput(rest, 0, now, mapping, window)) ==
                  AllRows(LegacyOutput(Sound(rest), 0, now, mapping, window))
        {
          MalformedRowsSkip(rest, now, mapping, window);
        }
        LegacyTail(body[0], rest, Sound(rest), time, mapping, window);
      }
    }
  }

  lemma CountHead(body: Body, pos: nat, stop: nat)
    requires pos < stop <= |body|
    ensures MalformedCount(body[pos..stop]) ==
            (if body[pos].Malformed? then 1 else 0) + MalformedCount(body[pos + 1..stop])
  {
    assert body[pos..stop][1..] == body[pos + 1..stop];
  }

  lemma {:induction false} MalformedAreReported(body: Body, pos: nat, time: u64, mapping: TargetMap, window: TimeWindow)
    requires pos <= |body| && !After(window, time)
    ensures ErrorCount(LegacyOutput(body, pos, time, mapping, window)) ==
            MalformedCount(body[pos..Stop(body, pos, window)])
    decreases |body| - pos
  {
    var stop := Stop(body, pos, window);
    if pos < stop {
      CountHead(body, pos, stop);
      if body[pos].Malformed? {
        MalformedAreReported(body, pos + 1, time, mapping, window);
        var rest := LegacyOutput(body, pos + 1, time, mapping, window);
        assert ([Err(ParseFailure)] + rest)[1..] == rest;
      } else {
        var command := body[pos].command;
        var now := if command.Timestamp? then command.time else time;
        MalformedAreReported(body, pos + 1, now, mapping, window);
        if Converted(command).Some? && Converted(command).value.0 in mapping {
          var (id, value) := Converted(command).value;
          RowsInFront(RowsNamed(mapping[id], time, value), LegacyOutput(body, pos + 1, time, mapping, window));
        }
      }
    }
  }

  lemma RowsOfOks(rows: seq<TimeValue>)
    ensures AllRows(Oks(rows)) == rows
  {
    RowsInFront(rows, []);
    assert Oks(rows) + [] == Oks(rows) && rows + [] == rows;
  }

  /** On any body the legacy iterator reports each malformed command before the stop once and skips
      it: its rows are those of the reusable extraction on the body without malformed commands. */
  lemma LegacySkipsMalformed(body: Body, names: Names, targets: seq<string>, mapping: TargetMap, q: Query)
    requires q.maxCommands.None? && Maps(mapping, names, targets) && Resolves(q.selection, names, targets)
    ensures var output := LegacyOutput(body, 0, 0, mapping, q.window);
            && AllRows(output) == ExpandAll(q.selection, Decode(Sound(body), 0, 0, q).changes)
            && ErrorCount(output) == MalformedCount(body[..Stop(body, 0, q.window)])
  {
    SoundIsWellFormed(body);
    MalformedRowsSkip(body, 0, mapping, q.window);
    LegacyAgrees(Sound(body), names, targets, mapping, q);
    RowsOfOks(ExpandAll(q.selection, Decode(Sound(body), 0, 0, q).changes));
    MalformedAreReported(body, 0, 0, mapping, q.window);
    assert body[0..Stop(body, 0, q.window)] == body[..Stop(body, 0, q.window)];
  }

  // ------------------------------------------------------------------ time bounds

  predicate IsEvent(item: Item) {
    item.Parsed? && (item.command.Timestamp? || Converted(item.command).Some?)
  }

  /** The times of all timestamps and changes, in body order. */
  function EventTimes(body: Body, hi: nat): seq<u64>
    requires hi <= |body|
  {
    if hi == 0 then []
    else EventTimes(body, hi - 1) + if IsEvent(body[hi - 1]) then [TimeBefore(body, hi)] else []
  }

  /** `compute_time_bounds_in_place`: the times of the first and the last event. */
  method TimeBounds(body: Body) returns (r: Result<(u64, u64), QueryError>)
    ensures r.Ok? <==> WellFormed(body)
    ensures r.Ok? ==> var times := EventTimes(body, |body|);
                      r.value == if times == [] then (0, 0) else (times[0], times[|times| - 1])
  {
    var current: u64, start: Option<u64>, end: Option<u64> := 0, None, None;
    for k := 0 to |body|
      invariant forall i | 0 <= i < k :: body[i].Parsed?
      invariant current == TimeBefore(body, k)
      invariant var times := EventTimes(body, k);
                if times == [] then start == None && end == None
                else start == Some(times[0]) && end == Some(times[|times| - 1])
    {
      if body[k].Malformed? {
        return Err(ParseFailure);
      }
      if body[k].command.Timestamp? {
        current := body[k].command.time;
      }
      if IsEvent(body[k]) {
        if start.None? {
          start := Some(current);
        }
        end := Some(current);
      }
    }
    var first := if start.Some? then start.value else 0;
    return Ok((first, if end.Some? then end.value else first));
  }

  lemma {:induction false} LastStamp(body: Body, k: nat)
    requires k <= |body|
    ensures TimeBefore(body, k) == 0 || exists i | 0 <= i < k :: body[i] == Parsed(Timestamp(TimeBefore(body, k)))
  {
    if k > 0 && !(body[k - 1].Parsed? && body[k - 1].command.Timestamp?) {
      LastStamp(body, k - 1);
    }
  }

  lemma TimeMonotone(body: Body, k: nat)
    requires TimesNeverDecrease(body) && k < |body|
    ensures TimeBefore(body, k) <= TimeBefore(body, k + 1)
  {
    LastStamp(body, k);
  }

  lemma {:induction false} EventTimesOrdered(body: Body, hi: nat)
    requires TimesNeverDecrease(body) && hi <= |body|
    ensures forall i, j | 0 <= i <= j < |EventTimes(body, hi)| :: EventTimes(body, hi)[i] <= EventTimes(body, hi)[j]
    ensures forall i | 0 <= i < |EventTimes(body, hi)| :: EventTimes(body, hi)[i] <= TimeBefore(body, hi)
  {
    if hi == 0 {
    } else {
      EventTimesOrdered(body, hi - 1);
      TimeMonotone(body, hi - 1);
    }
  }

  /** When timestamps never decrease, every event lies within the bounds. */
  lemma BoundsEncloseEvents(body: Body, i: nat)
    requires TimesNeverDecrease(body) && i < |EventTimes(body, |body|)|
    ensures var times := EventTimes(body, |body|); times[0] <= times[i] <= times[|times| - 1]
  {
    EventTimesOrdered(body, |body|);
  }

  /** A timestamp or a change of any kind. */
  predicate Occurs(item: Item) {
    item.Parsed? && !item.command.Other?
  }

  lemma {:induction false} EventIsListed(body: Body, hi: nat, k: nat)
    requires k < hi <= |body| && Occurs(body[k])
    ensures exists i :: 0 <= i < |EventTimes(body, hi)| && EventTimes(body, hi)[i] == TimeBefore(body, k + 1)
  {
    var before := EventTimes(body, hi - 1);
    if k == hi - 1 {
      assert EventTimes(body, hi)[|before|] == TimeBefore(body, hi);
    } else {
      EventIsListed(body, hi - 1, k);
      var i :| 0 <= i < |before| && before[i] == TimeBefore(body, k + 1);
      assert EventTimes(body, hi)[i] == before[i];
    }
  }

  lemma {:induction false} NoEventNoTime(body: Body, hi: nat)
    requires hi <= |body| && forall i | 0 <= i < hi :: !Occurs(body[i])
    ensures EventTimes(body, hi) == []
  {
    if hi > 0 {
      NoEventNoTime(body, hi - 1);
    }
  }

  lemma {:induction false} FirstTimeStays(body: Body, lo: nat, hi: nat)
    requires lo <= hi <= |body| && EventTimes(body, lo) != []
    ensures EventTimes(body, hi) != [] && EventTimes(body, hi)[0] == EventTimes(body, lo)[0]
  {
    if lo < hi {
      FirstTimeStays(body, lo, hi - 1);
    }
  }

  lemma {:induction false} LastTimeStays(body: Body, lo: nat, hi: nat)
    requires lo <= hi <= |body| && forall i | lo <= i < hi :: !Occurs(body[i])
    ensures EventTimes(body, hi) == EventTimes(body, lo)
  {
    if lo < hi {
      LastTimeStays(body, lo, hi - 1);
    }
  }

  /** In any body the bounds are the time at the first and at the last timestamp or change. */
  lemma BoundsAreFirstAndLast(body: Body, first: nat, last: nat)
    requires first <= last < |body| && Occurs(body[first]) && Occurs(body[last])
    requires forall i | 0 <= i < first || last < i < |body| :: !Occurs(body[i])
    ensures var times := EventTimes(body, |body|);
            && times != [] && times[0] == TimeBefore(body, first + 1)
            && times[|times| - 1] == TimeBefore(body, last + 1)
  {
    NoEventNoTime(body, first);
    assert EventTimes(body, first + 1) == [TimeBefore(body, first + 1)];
    FirstTimeStays(body, first + 1, last + 1);
    LastTimeStays(body, last + 1, |body|);
  }

  /** When timestamps never decrease, every timestamp and every change lies within the bounds. */
  lemma CommandsLieWithinBounds(body: Body, k: nat)
    requires TimesNeverDecrease(body) && k < |body| && Occurs(body[k])
    ensures var times := EventTimes(body, |body|);
            times != [] && times[0] <= TimeBefore(body, k + 1) <= times[|times| - 1]
  {
    EventIsListed(body, |body|, k);
    var i :| 0 <= i < |EventTimes(body, |body|)| && EventTimes(body, |body|)[i] == TimeBefore(body, k + 1);
    BoundsEncloseEvents(body, i);
  }

  // ------------------------------------------------------------------ the scan under a policy

  /** How many commands a scan reads, a malformed one included. */
  function ScanReads(body: Body): nat {
    var bad := FirstMalformed(body, 0);
    if bad < |body| then bad + 1 else bad
  }

  /** What the scan of a body comes to without cancellation: the command limit cuts when one more
      command must be read, a malformed command fails, a changed source fails after the last
      command, and otherwise the result is the pair of bounds of the plain scan. */
  function Scanned(body: Body, maxCommands: Option<nat>, current: bool): Result<(nat, nat), QueryError> {
    var times := EventTimes(body, |body|);
    if maxCommands.Some? && maxCommands.value < ScanReads(body) then
      Err(LimitExceeded(Commands, maxCommands.value, maxCommands.value + 1))
    else if FirstMalformed(body, 0) < |body| then Err(ParseFailure)
    else if !current then Err(StaleSource)
    else Ok(if times == [] then (0, 0) else (times[0], times[|times| - 1]))
  }

  /** A command limit c fails a scan exactly when command c + 1 exists and none before it is
      malformed; otherwise the limit is not seen. */
  lemma ScanLimitExactly(body: Body, c: nat, current: bool)
    ensures if c < |body| && WellFormed(body[..c]) then
              Scanned(body, Some(c), current) == Err(LimitExceeded(Commands, c, c + 1))
            else Scanned(body, Some(c), current) == Scanned(body, None, current)
  {
    if c < |body| && !WellFormed(body[..c]) {
      var i :| 0 <= i < c && !body[..c][i].Parsed?;
      assert body[i].Malformed?;
    }
  }

  /** An unlimited scan of an error-free body yields the times at the first and the last timestamp or
      change, in this order. */
  lemma ScanIsFirstAndLast(body: Body, first: nat, last: nat)
    requires WellFormed(body) && first <= last < |body| && Occurs(body[first]) && Occurs(body[last])
    requires forall i | 0 <= i < first || last < i < |body| :: !Occurs(body[i])
    ensures Scanned(body, None, true) == Ok((TimeBefore(body, first + 1), TimeBefore(body, last + 1)))
  {
    BoundsAreFirstAndLast(body, first, last);
  }

  /** The loop of `compute_metadata_with_context`. */
  method ScanBounds(body: Body, current: bool, context: QueryContext) returns (r: Result<(nat, nat), QueryError>)
    modifies context
    ensures r == Scanned(body, context.limits.maxCommands, current) || r == Err(Cancelled)
    ensures old(context.checksLeft) == Some(0) ==> r == Err(Cancelled)
    ensures old(context.checksLeft).None? ==> r == Scanned(body, context.limits.maxCommands, current)
  {
    var limit := context.limits.maxCommands;
    var ok := context.Check();
    if !ok {
      return Err(Cancelled);
    }
    var now: u64, start: Option<u64>, end: Option<u64> := 0, None, None;
    for k := 0 to |body|
      invariant old(context.checksLeft).None? ==> context.checksLeft.None?
      invariant FirstMalformed(body, k) == FirstMalformed(body, 0)
      invariant limit.Some? ==> k <= limit.value
      invariant now == TimeBefore(body, k)
      invariant var times := EventTimes(body, k);
                if times == [] then start == None && end == None
                else start == Some(times[0]) && end == Some(times[|times| - 1])
    {
      var commands := k + 1;
      if limit.Some? && commands > limit.value {
        return Err(LimitExceeded(Commands, limit.value, commands));
      }
      if body[k].Malformed? {
        return Err(ParseFailure);
      }
      if commands % COMMAND_CHECK_INTERVAL == 0 || body[k].command.Timestamp? {
        ok := context.Check();
        if !ok {
          return Err(Cancelled);
        }
      }
      if body[k].command.Timestamp? {
        now := body[k].command.time;
      }
      if IsEvent(body[k]) {
        if start.None? {
          start := Some(now);
        }
        end := Some(now);
      }
    }
    ok := context.Check();
    if !ok {
      return Err(Cancelled);
    }
    if !current {
      return Err(StaleSource);
    }
    ok := context.Check();
    if !ok {
      return Err(Cancelled);
    }
    var first := if start.Some? then start.value else 0;
    return Ok((first, if end.Some? then end.value else first));
  }
}
