/** Streaming extraction of selected signals from a VCD body
    (src/query/stream.rs, src/query/extract.rs, src/lib.rs). */
module Extraction {
  import opened Wrappers
  import opened Words
  import opened Decimals
  import opened Utf8
  import opened Values

  const COMMAND_CHECK_INTERVAL: nat := 4096

  type IdCode = nat

  /** A body command; `Vector` carries one of 0, 1, x, z per bit. */
  datatype Command =
    | Timestamp(time: u64)
    | Scalar(id: IdCode, bit: char)
    | Vector(id: IdCode, bits: string)
    | Real(id: IdCode, pattern: nat, shown: string)
    | StringChange(id: IdCode, text: string)
    | Other

  /** What the parser yields next. */
  datatype Item = Parsed(command: Command) | Malformed

  type Body = seq<Item>

  datatype TimeValue = TimeValue(signal: string, time: u64, value: ChangeValue)

  datatype SelectedChange = SelectedChange(id: IdCode, time: u64, value: ChangeValue)

  datatype Binding = Binding(requestIndex: nat, name: string, size: nat)

  type Selection = map<IdCode, seq<Binding>>

  datatype SignalInfo = SignalInfo(id: IdCode, size: nat)

  type Names = map<string, SignalInfo>

  // ------------------------------------------------------------------ values

  function BinaryValue(bits: string): nat {
    if bits == "" then 0 else 2 * BinaryValue(bits[..|bits| - 1]) + if bits[|bits| - 1] == '1' then 1 else 0
  }

  predicate Binary(bits: string) {
    forall i | 0 <= i < |bits| :: bits[i] == '0' || bits[i] == '1'
  }

  function VectorValue(bits: string): ChangeValue {
    if Binary(bits) && |bits| <= 128 then Integer(BinaryValue(bits)) else Text(bits)
  }

  /** `vector_to_change_value_selected`; the accumulator stays within 128 bits. */
  method ConvertVector(bits: string) returns (v: ChangeValue)
    ensures v == VectorValue(bits)
    ensures v.Integer? ==> v.i < Power2(|bits|) && |bits| <= 128
  {
    if !Binary(bits) || |bits| > 128 {
      return Text(bits);
    }
    var acc := 0;
    for k := 0 to |bits|
      invariant acc == BinaryValue(bits[..k]) < Power2(k)
    {
      assert bits[..k + 1][..k] == bits[..k];
      acc := 2 * acc + if bits[k] == '1' then 1 else 0;
    }
    assert bits[..|bits|] == bits;
    v := Integer(acc);
  }

  function Converted(command: Command): Option<(IdCode, ChangeValue)> {
    match command
    case Scalar(id, bit) => Some((id, Text([bit])))
    case Vector(id, bits) => Some((id, VectorValue(bits)))
    case Real(id, pattern, shown) => Some((id, Float(pattern, shown)))
    case StringChange(id, text) => Some((id, Text(text)))
    case _ => None
  }

  // ------------------------------------------------------------------ target resolution

  /** The requested names of one identifier, in request order, duplicates kept. */
  function BindingsFor(names: Names, targets: seq<string>, id: IdCode): seq<Binding> {
    if targets == [] then []
    else
      var n := |targets| - 1;
      BindingsFor(names, targets[..n], id)
      + (if targets[n] in names && names[targets[n]].id == id then [Binding(n, targets[n], names[targets[n]].size)]
         else [])
  }

  function Missing(names: Names, targets: seq<string>): seq<string> {
    if targets == [] then []
    else
      var n := |targets| - 1;
      Missing(names, targets[..n]) + if targets[n] in names then [] else [targets[n]]
  }

  /** A selection holds the bindings of every identifier that has any, and nothing else. */
  ghost predicate Resolves(selection: Selection, names: Names, targets: seq<string>) {
    && (forall id | id in selection :: selection[id] == BindingsFor(names, targets, id) != [])
    && (forall id :: BindingsFor(names, targets, id) != [] ==> id in selection)
  }

  lemma MissingStep(names: Names, targets: seq<string>, n: nat)
    requires n < |targets|
    ensures Missing(names, targets[..n + 1]) == Missing(names, targets[..n])
            + (if targets[n] in names then [] else [targets[n]])
  {
    assert targets[..n + 1][..n] == targets[..n];
  }

  lemma ResolvesStep(byId: Selection, names: Names, targets: seq<string>, n: nat)
    requires n < |targets| && Resolves(byId, names, targets[..n]) && targets[n] in names
    ensures var id := names[targets[n]].id;
            Resolves(byId[id := (if id in byId then byId[id] else [])
                          + [Binding(n, targets[n], names[targets[n]].size)]],
                     names, targets[..n + 1])
  {
    assert targets[..n + 1][..n] == targets[..n];
  }

  lemma ResolvesSkip(byId: Selection, names: Names, targets: seq<string>, n: nat)
    requires n < |targets| && Resolves(byId, names, targets[..n]) && targets[n] !in names
    ensures Resolves(byId, names, targets[..n + 1])
  {
    assert targets[..n + 1][..n] == targets[..n];
  }

  /** What the resolution loop has gathered from some targets. */
  ghost predicate Gathered(byId: Selection, missing: seq<string>, names: Names, targets: seq<string>) {
    Resolves(byId, names, targets) && missing == Missing(names, targets)
  }

  lemma GatherStep(byId: Selection, missing: seq<string>, names: Names, targets: seq<string>, n: nat)
    requires n < |targets| && Gathered(byId, missing, names, targets[..n])
    ensures targets[n] in names ==>
              var id := names[targets[n]].id;
              Gathered(byId[id := (if id in byId then byId[id] else [])
                            + [Binding(n, targets[n], names[targets[n]].size)]],
                       missing, names, targets[..n + 1])
    ensures targets[n] !in names ==> Gathered(byId, missing + [targets[n]], names, targets[..n + 1])
  {
    MissingStep(names, targets, n);
    if targets[n] in names {
      ResolvesStep(byId, names, targets, n);
    } else {
      ResolvesSkip(byId, names, targets, n);
    }
  }

  /** Why a request for these targets is refused before the source is touched. */
  function Refusal(names: Names, targets: seq<string>, limits: Limits): Option<QueryError> {
    if SignalLimit(limits, |targets|).Some? then SignalLimit(limits, |targets|)
    else if Missing(names, targets) != [] then Some(MissingSignals(Missing(names, targets)))
    else None
  }

  /** `TargetSelection::resolve`. */
  method Resolve(names: Names, targets: seq<string>, context: QueryContext) returns (r: Result<Selection, QueryError>)
    modifies context
    ensures r.Ok? ==> Refusal(names, targets, context.limits) == None && Resolves(r.value, names, targets)
    ensures r.Err? ==> Refusal(names, targets, context.limits) == Some(r.error) || r.error == Cancelled
    ensures old(context.checksLeft).None? ==> context.checksLeft.None? && r != Err(Cancelled)
    ensures old(context.checksLeft) == Some(0) ==> r == Err(Cancelled)
  {
    var error := context.CheckSignalCount(|targets|);
    if error.Some? {
      return Err(error.value);
    }
    var byId: Selection, missing := map[], [];
    for n := 0 to |targets|
      invariant old(context.checksLeft).None? ==> context.checksLeft.None?
      invariant Gathered(byId, missing, names, targets[..n])
    {
      var ok := context.Check();
      if !ok {
        return Err(Cancelled);
      }
      var name := targets[n];
      GatherStep(byId, missing, names, targets, n);
      if name in names {
        var id := names[name].id;
        byId := byId[id := (if id in byId then byId[id] else []) + [Binding(n, name, names[name].size)]];
      } else {
        missing := missing + [name];
      }
    }
    assert targets[..|targets|] == targets;
    return if missing != [] then Err(MissingSignals(missing)) else Ok(byId);
  }

  // ------------------------------------------------------------------ what the stream yields

  datatype Query = Query(selection: Selection, window: TimeWindow, maxCommands: Option<nat>, sourceFresh: bool)

  datatype Decoded = Decoded(changes: seq<SelectedChange>, end: Option<QueryError>)

  function Completion(q: Query): Decoded {
    Decoded([], if q.sourceFresh then None else Some(StaleSource))
  }

  predicate Wanted(q: Query, item: Item, time: nat) {
    item.Parsed? && Converted(item.command).Some? && Converted(item.command).value.0 in q.selection
        && Contains(q.window, time)
  }

  /** The changes decoded from command `pos` on at time `time`, without cancellation, and how the
      stream ends. */
  function Decode(body: Body, pos: nat, time: u64, q: Query): (d: Decoded)
    ensures forall i | 0 <= i < |d.changes| :: d.changes[i].id in q.selection
    decreases |body| - pos
  {
    if pos >= |body| then Completion(q)
    else if q.maxCommands.Some? && pos + 1 > q.maxCommands.value then
      Decoded([], Some(LimitExceeded(Commands, q.maxCommands.value, pos + 1)))
    else if body[pos].Malformed? then Decoded([], Some(ParseFailure))
    else if body[pos].command.Timestamp? then
      if After(q.window, body[pos].command.time) then Completion(q)
      else Decode(body, pos + 1, body[pos].command.time, q)
    else
      var rest := Decode(body, pos + 1, time, q);
      if Wanted(q, body[pos], time) then
        var change := Converted(body[pos].command).value;
        Decoded([SelectedChange(change.0, time, change.1)] + rest.changes, rest.end)
      else rest
  }

  class SelectedChangeStream {
    const body: Body
    const query: Query
    const context: QueryContext
    var position: nat
    var currentTime: u64
    var commandCount: nat
    var finished: bool

    constructor (body: Body, query: Query, context: QueryContext)
      ensures Valid() && this.body == body && this.query == query && this.context == context
      ensures position == 0 && currentTime == 0 && !finished
    {
      this.body, this.query, this.context := body, query, context;
      position, currentTime, commandCount, finished := 0, 0, 0, false;
    }

    predicate Valid()
      reads this
    {
      position <= |body| && commandCount == position
    }

    /** What is still to come. */
    function Rest(): (d: Decoded)
      reads this
      ensures forall i | 0 <= i < |d.changes| :: d.changes[i].id in query.selection
    {
      if finished then Decoded([], None) else Decode(body, position, currentTime, query)
    }

    /** `finish_success`, with the failure path of its callers. */
    method FinishSuccess() returns (error: Option<QueryError>)
      modifies this`finished, context
      ensures finished
      ensures error == Completion(query).end || error == Some(Cancelled)
      ensures old(context.checksLeft).None? ==> context.checksLeft.None? && error == Completion(query).end
      ensures old(context.checksLeft) == Some(0) ==> error == Some(Cancelled)
    {
      finished := true;
      var ok := context.Check();
      if !ok {
        return Some(Cancelled);
      }
      if !query.sourceFresh {
        return Some(StaleSource);
      }
      ok := context.Check();
      return if ok then None else Some(Cancelled);
    }

    /** The policy checks for the command just read: periodic ones and one per timestamp. */
    method PollItem(item: Item) returns (ok: bool)
      modifies context
      ensures old(context.checksLeft).None? ==> context.checksLeft.None? && ok
      ensures old(context.checksLeft) == Some(0) ==> context.checksLeft == Some(0)
      ensures old(context.checksLeft) == Some(0) && ok ==>
                commandCount % COMMAND_CHECK_INTERVAL != 0 && !(item.Parsed? && item.command.Timestamp?)
    {
      ok := true;
      if commandCount % COMMAND_CHECK_INTERVAL == 0 {
        ok := context.Check();
      }
      if ok && item.Parsed? && item.command.Timestamp? {
        ok := context.Check();
      }
    }

    /** `r` is the head of what the stream had still to yield, or the end of it. */
    predicate Delivers(r: Option<Result<SelectedChange, QueryError>>, rest: Decoded)
      reads this
    {
      match r
      case Some(Ok(change)) => rest.changes != [] && change == rest.changes[0] && !finished
                               && Rest() == Decoded(rest.changes[1..], rest.end)
      case Some(Err(error)) => finished && (error == Cancelled || (rest.changes == [] && rest.end == Some(error)))
      case None => finished && rest == Decoded([], None)
    }

    method Complete() returns (r: Option<Result<SelectedChange, QueryError>>)
      requires Valid()
      modifies this`finished, context
      ensures Valid() && Delivers(r, Completion(query)) && (r.None? || r.value.Err?)
      ensures old(context.checksLeft).None? ==> context.checksLeft.None? && r != Some(Err(Cancelled))
      ensures old(context.checksLeft) == Some(0) ==> r == Some(Err(Cancelled))
    {
      var error := FinishSuccess();
      return if error.Some? then Some(Err(error.value)) else None;
    }

    method Fail(error: QueryError) returns (r: Option<Result<SelectedChange, QueryError>>)
      modifies this`finished
      ensures finished && r == Some(Err(error))
    {
      finished := true;
      return Some(Err(error));
    }

    /** One change of the stream, its error, or its end. A query that has been cancelled ends
        with an error before it reads another 4096 commands. */
    method Next() returns (r: Option<Result<SelectedChange, QueryError>>)
      requires Valid()
      modifies this, context
      ensures Valid() && Delivers(r, old(Rest()))
      ensures old(context.checksLeft).None? ==> context.checksLeft.None? && r != Some(Err(Cancelled))
      ensures old(context.checksLeft) == Some(0) && !old(finished) ==>
                r.Some? && r.value.Err? && position <= old(position) + COMMAND_CHECK_INTERVAL
    {
      if finished {
        return None;
      }
      while position < |body|
        invariant Valid() && !finished
        invariant old(context.checksLeft).None? ==> context.checksLeft.None?
        invariant old(context.checksLeft) == Some(0) ==>
                    context.checksLeft == Some(0)
                    && old(position) <= position
                    && position / COMMAND_CHECK_INTERVAL == old(position) / COMMAND_CHECK_INTERVAL
        invariant Decode(body, position, currentTime, query) == old(Rest())
        decreases |body| - position
      {
        var item := body[position];
        position, commandCount := position + 1, commandCount + 1;
        var ok := PollItem(item);
        if !ok {
          r := Fail(Cancelled);
          return;
        }
        if query.maxCommands.Some? && commandCount > query.maxCommands.value {
          r := Fail(LimitExceeded(Commands, query.maxCommands.value, commandCount));
          return;
        }
        if item.Malformed? {
          r := Fail(ParseFailure);
          return;
        }
        if item.command.Timestamp? {
          currentTime := item.command.time;
          if After(query.window, currentTime) {
            r := Complete();
            return;
          }
        } else if Wanted(query, item, currentTime) {
          ok := context.Check();
          if !ok {
            r := Fail(Cancelled);
            return;
          }
          var change := Converted(item.command).value;
          return Some(Ok(SelectedChange(change.0, currentTime, change.1)));
        }
      }
      r := Complete();
    }
  }

  // ------------------------------------------------------------------ rows and budgets

  function RowsFor(bindings: seq<Binding>, time: u64, value: ChangeValue): seq<TimeValue> {
    seq(|bindings|, i requires 0 <= i < |bindings| => TimeValue(bindings[i].name, time, value))
  }

  function Expand(selection: Selection, change: SelectedChange): seq<TimeValue> {
    if change.id in selection then RowsFor(selection[change.id], change.time, change.value) else []
  }

  function ExpandAll(selection: Selection, changes: seq<SelectedChange>): seq<TimeValue> {
    if changes == [] then [] else Expand(selection, changes[0]) + ExpandAll(selection, changes[1..])
  }

  /** `logical_event_bytes`. */
  function EventBytes(row: TimeValue): nat {
    Utf8Bytes(row.signal) + 8 + match row.value
                                case Integer(_) => 16
                                case Float(_, _) => 8
                                case Text(text) => Utf8Bytes(text)
  }

  type Output = seq<Result<TimeValue, QueryError>>

  /** What is emitted for the rows still due after `rows` rows and `bytes` bytes. */
  function Emit(due: seq<TimeValue>, end: Option<QueryError>, rows: nat, bytes: nat, limits: Limits): Output {
    if due == [] then (if end.Some? then [Err(end.value)] else [])
    else
      var rows', bytes' := SaturatingAdd(rows, 1), SaturatingAdd(bytes, EventBytes(due[0]));
      if limits.maxRows.Some? && rows' > limits.maxRows.value then
        [Err(LimitExceeded(Rows, limits.maxRows.value, rows'))]
      else if limits.maxResultBytes.Some? && bytes' > limits.maxResultBytes.value then
        [Err(LimitExceeded(ResultBytes, limits.maxResultBytes.value, bytes'))]
      else [Ok(due[0])] + Emit(due[1..], end, rows', bytes', limits)
  }

  /** `r` is the head of the output `before` and `after` is its tail; or the query was cancelled
      and nothing is left. After an error nothing is left. */
  predicate Takes(r: Option<Result<TimeValue, QueryError>>, before: Output, after: Output) {
    match r
    case None => before == [] && after == []
    case Some(Ok(row)) => before != [] && before[0] == Ok(row) && after == before[1..]
    case Some(Err(error)) => after == [] && (error == Cancelled || before == [Err(error)])
  }

  class OpenedTimeValueIter {
    const stream: SelectedChangeStream
    const context: QueryContext
    var pending: seq<TimeValue>
    var rows: nat
    var logicalBytes: nat
    var terminated: bool

    constructor (stream: SelectedChangeStream)
      requires stream.Valid() && !stream.finished
      requires forall id | id in stream.query.selection :: stream.query.selection[id] != []
      ensures Valid() && this.stream == stream && context == stream.context
      ensures Remaining() ==
              Emit(ExpandAll(stream.query.selection, stream.Rest().changes), stream.Rest().end, 0, 0, context.limits)
    {
      this.stream, this.context := stream, stream.context;
      pending, rows, logicalBytes, terminated := [], 0, 0, false;
      new;
      assert pending + ExpandAll(stream.query.selection, stream.Rest().changes) ==
          ExpandAll(stream.query.selection, stream.Rest().changes);
    }

    ghost predicate Valid()
      reads this, stream
    {
      && stream.Valid() && context == stream.context
      && (forall id | id in stream.query.selection :: stream.query.selection[id] != [])
    }

    /** Everything the iterator has still to yield if the query is not cancelled. */
    ghost function Remaining(): Output
      reads this, stream
    {
      if terminated then []
      else Emit(pending + ExpandAll(stream.query.selection, stream.Rest().changes), stream.Rest().end,
                rows, logicalBytes, context.limits)
    }

    method EmitPending() returns (r: Option<Result<TimeValue, QueryError>>)
      requires Valid() && !terminated
      modifies this, context
      ensures Valid()
      ensures old(context.checksLeft).None? ==> context.checksLeft.None? && r != Some(Err(Cancelled))
      ensures old(context.checksLeft) == Some(0) && old(pending) != [] ==> r == Some(Err(Cancelled))
      ensures old(pending) == [] ==> r == None && unchanged(this)
      ensures old(pending) != [] ==> Takes(r, old(Remaining()), Remaining()) && r.Some?
    {
      if pending == [] {
        return None;
      }
      var event := pending[0];
      ghost var due := pending + ExpandAll(stream.query.selection, stream.Rest().changes);
      assert due[1..] == pending[1..] + ExpandAll(stream.query.selection, stream.Rest().changes);
      pending := pending[1..];
      var ok := context.Check();
      if !ok {
        terminated, pending := true, [];
        return Some(Err(Cancelled));
      }
      var nextRows := SaturatingAdd(rows, 1);
      if context.limits.maxRows.Some? && nextRows > context.limits.maxRows.value {
        terminated, pending := true, [];
        return Some(Err(LimitExceeded(Rows, context.limits.maxRows.value, nextRows)));
      }
      var nextBytes := SaturatingAdd(logicalBytes, EventBytes(event));
      if context.limits.maxResultBytes.Some? && nextBytes > context.limits.maxResultBytes.value {
        terminated, pending := true, [];
        return Some(Err(LimitExceeded(ResultBytes, context.limits.maxResultBytes.value, nextBytes)));
      }
      rows, logicalBytes := nextRows, nextBytes;
      return Some(Ok(event));
    }

    method Next() returns (r: Option<Result<TimeValue, QueryError>>)
      requires Valid()
      modifies this, stream, context
      ensures Valid()
      ensures Takes(r, old(Remaining()), Remaining())
      ensures old(context.checksLeft).None? ==> context.checksLeft.None? && r != Some(Err(Cancelled))
      ensures old(context.checksLeft) == Some(0) ==> r.None? || r.value.Err?
    {
      if terminated {
        return None;
      }
      if pending != [] {
        r := EmitPending();
        return;
      }
      ghost var rest := stream.Rest();
      ghost var selection := stream.query.selection;
      assert [] + ExpandAll(selection, rest.changes) == ExpandAll(selection, rest.changes);
      var next := stream.Next();
      match next
      case None => return None;
      case Some(Err(error)) =>
        terminated := true;
        return Some(Err(error));
      case Some(Ok(change)) =>
        // A selected identifier has at least one binding.
        assert rest.changes[0].id in selection;
        pending := Expand(stream.query.selection, change);
        r := EmitPending();
    }
  }

  // ------------------------------------------------------------------ opening an extraction

  /** Whether the source is current when a query is admitted to it and when the query ends. */
  datatype Source = Source(atStart: bool, atEnd: bool)

  /** Everything an extraction that has been admitted yields if it is not cancelled. */
  function Extracted(body: Body, q: Query, limits: Limits): Output {
    var d := Decode(body, 0, 0, q);
    Emit(ExpandAll(q.selection, d.changes), d.end, 0, 0, limits)
  }

  /** `OpenedVcd::extract`: resolve the targets, admit the query to the source, open the iterator. */
  method Extract(names: Names, targets: seq<string>, window: TimeWindow, body: Body, source: Source,
                 context: QueryContext)
    returns (r: Result<OpenedTimeValueIter, QueryError>)
    modifies context
    ensures r.Ok? ==>
              && Refusal(names, targets, context.limits) == None && source.atStart
              && fresh(r.value) && fresh(r.value.stream) && r.value.context == context && r.value.Valid()
              && var q := r.value.stream.query;
                 && q == Query(q.selection, window, context.limits.maxCommands, source.atEnd)
                 && Resolves(q.selection, names, targets)
                 && r.value.Remaining() == Extracted(body, q, context.limits)
    ensures r.Err? && r.error != Cancelled ==>
              if Refusal(names, targets, context.limits).Some?
                  then Refusal(names, targets, context.limits) == Some(r.error)
              else !source.atStart && r.error == StaleSource
    ensures old(context.checksLeft).None? ==> context.checksLeft.None? && r != Err(Cancelled)
    ensures old(context.checksLeft) == Some(0) ==> r == Err(Cancelled)
  {
    var ok := context.Check();
    if !ok {
      return Err(Cancelled);
    }
    var selection := Resolve(names, targets, context);
    if selection.Err? {
      return Err(selection.error);
    }
    ok := context.Check();
    if !ok {
      return Err(Cancelled);
    }
    if !source.atStart {
      return Err(StaleSource);
    }
    var q := Query(selection.value, window, context.limits.maxCommands, source.atEnd);
    var stream := new SelectedChangeStream(body, q, context);
    var iter := new OpenedTimeValueIter(stream);
    return Ok(iter);
  }
}
