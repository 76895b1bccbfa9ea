/** Extraction is a filter of the body; limits only truncate it; the legacy iterator agrees. */
module ExtractionTheorems {
  import opened Wrappers
  import opened Words
  import opened Decimals
  import opened Utf8
  import opened Values
  import opened Extraction

  // ------------------------------------------------------------------ values and commands

  /** `n` in `k` binary digits, most significant first. */
  function Bits(n: nat, k: nat): string {
    if k == 0 then "" else Bits(n / 2, k - 1) + [if n % 2 == 1 then '1' else '0']
  }

  lemma {:induction false} BitsHaveValue(n: nat, k: nat)
    requires n < Power2(k)
    ensures |Bits(n, k)| == k && Binary(Bits(n, k)) && BinaryValue(Bits(n, k)) == n
  {
    if k > 0 {
      assert Power2(k) == 2 * Power2(k - 1);
      BitsHaveValue(n / 2, k - 1);
      assert Bits(n, k)[..k - 1] == Bits(n / 2, k - 1);
    }
  }

  lemma {:induction false} ValueHasBits(bits: string)
    requires Binary(bits)
    ensures BinaryValue(bits) < Power2(|bits|) && Bits(BinaryValue(bits), |bits|) == bits
  {
    if bits != "" {
      var init := bits[..|bits| - 1];
      assert bits == init + [bits[|bits| - 1]];
      ValueHasBits(init);
      assert BinaryValue(bits) / 2 == BinaryValue(init);
    }
  }

  /** A vector becomes the number n exactly when it is n written in at most 128 binary digits. */
  lemma BinaryInverse(bits: string, n: nat)
    ensures VectorValue(bits) == Integer(n) <==> |bits| <= 128 && n < Power2(|bits|) && bits == Bits(n, |bits|)
  {
    if n < Power2(|bits|) {
      BitsHaveValue(n, |bits|);
    }
    if Binary(bits) {
      ValueHasBits(bits);
    }
  }

  /** The body commands that write a value: every value tells what was written. */
  predicate Writes(command: Command, id: IdCode, v: ChangeValue) {
    match v
    case Integer(n) =>
      command.Vector? && command.id == id && |command.bits| <= 128 && n < Power2(|command.bits|)
      && command.bits == Bits(n, |command.bits|)
    case Float(pattern, shown) => command == Real(id, pattern, shown)
    case Text(text) =>
      || command == StringChange(id, text)
      || (|text| == 1 && command == Scalar(id, text[0]))
      || (command == Vector(id, text) && (|text| > 128 || exists i :: 0 <= i < |text| && text[i] !in "01"))
  }

  /** The conversion of commands is determined by what they write; timestamps and other commands
      write nothing. */
  lemma ConversionExactly(command: Command, id: IdCode, v: ChangeValue)
    ensures Converted(command) == Some((id, v)) <==> Writes(command, id, v)
  {
    match command
    case Vector(_, bits) =>
      if v.Integer? {
        BinaryInverse(bits, v.i);
      }
      forall i | 0 <= i < |bits| ensures bits[i] !in "01" <==> bits[i] != '0' && bits[i] != '1' {
      }
    case Scalar(_, bit) =>
      if v.Text? && |v.text| == 1 {
        assert v.text == [v.text[0]];
      }
    case _ =>
  }

  // ------------------------------------------------------------------ requests and their names

  predicate BindsAt(names: Names, targets: seq<string>, id: IdCode, b: Binding) {
    && b.requestIndex < |targets| && b.name == targets[b.requestIndex]
    && b.name in names && names[b.name] == SignalInfo(id, b.size)
  }

  /** An identifier's bindings are, in request order, exactly the requests for one of its names. */
  lemma {:induction false} BindingsExactly(names: Names, targets: seq<string>, id: IdCode, b: Binding)
    ensures var all := BindingsFor(names, targets, id);
            && (b in all <==> BindsAt(names, targets, id, b))
            && (forall i, j | 0 <= i < j < |all| :: all[i].requestIndex < all[j].requestIndex)
            && (forall i | 0 <= i < |all| :: all[i].requestIndex < |targets|)
  {
    if targets != [] {
      var n := |targets| - 1;
      BindingsExactly(names, targets[..n], id, b);
      assert BindsAt(names, targets, id, b) <==>
          BindsAt(names, targets[..n], id, b) || (b.requestIndex == n && BindsAt(names, targets, id, b));
    }
  }

  /** The position of the first target that names no signal, or the number of targets. */
  function FirstUnknown(names: Names, targets: seq<string>): (i: nat)
    ensures i <= |targets|
    ensures forall j | 0 <= j < i :: targets[j] in names
    ensures i < |targets| ==> targets[i] !in names
  {
    if targets == [] || targets[0] !in names then 0 else 1 + FirstUnknown(names, targets[1..])
  }

  lemma {:induction false} MissingCounts(names: Names, targets: seq<string>, name: string)
    ensures multiset(Missing(names, targets))[name] == if name in names then 0 else multiset(targets)[name]
  {
    if targets != [] {
      MissingCounts(names, targets[..|targets| - 1], name);
      assert targets == targets[..|targets| - 1] + [targets[|targets| - 1]];
    }
  }

  lemma FirstUnknownAppend(names: Names, targets: seq<string>, n: nat)
    requires |targets| == n + 1
    ensures var before, first := FirstUnknown(names, targets[..n]), FirstUnknown(names, targets);
            first == if before < n then before else if targets[n] in names then n + 1 else n
  {
    var before, first := FirstUnknown(names, targets[..n]), FirstUnknown(names, targets);
    assert first < n ==> targets[first] !in names && targets[..n][first] == targets[first];
  }

  lemma {:induction false} MissingStarts(names: Names, targets: seq<string>)
    ensures var first := FirstUnknown(names, targets);
            if first < |targets| then Missing(names, targets) != [] && Missing(names, targets)[0] == targets[first]
            else Missing(names, targets) == []
  {
    if targets != [] {
      MissingStarts(names, targets[..|targets| - 1]);
      FirstUnknownAppend(names, targets, |targets| - 1);
    }
  }

  /** A request is refused exactly when it names too many signals or an unknown one; the limit comes
      first and tells both numbers, otherwise the unknown names are listed as often as requested. */
  lemma RefusalExactly(names: Names, targets: seq<string>, limits: Limits, name: string)
    ensures var refusal := Refusal(names, targets, limits);
            if limits.maxSignals.Some? && |targets| > limits.maxSignals.value then
              refusal == Some(LimitExceeded(Signals, limits.maxSignals.value, |targets|))
            else if FirstUnknown(names, targets) == |targets| then refusal == None
            else
              && refusal.Some? && refusal.value.MissingSignals?
              && multiset(refusal.value.names)[name] == (if name in names then 0 else multiset(targets)[name])
              && refusal.value.names != [] && refusal.value.names[0] == targets[FirstUnknown(names, targets)]
  {
    MissingCounts(names, targets, name);
    MissingStarts(names, targets);
  }

  // ------------------------------------------------------------------ the filter

  /** The last timestamp before command `k`, initially 0. */
  function TimeBefore(body: Body, k: nat): u64
    requires k <= |body|
  {
    if k == 0 then 0
    else if body[k - 1].Parsed? && body[k - 1].command.Timestamp? then body[k - 1].command.time
    else TimeBefore(body, k - 1)
  }

  predicate EndsWindow(item: Item, window: TimeWindow) {
    item.Parsed? && item.command.Timestamp? && After(window, item.command.time)
  }

  /** The first timestamp greater than the window's end, or the end of the body. */
  function Stop(body: Body, pos: nat, window: TimeWindow): (k: nat)
    requires pos <= |body|
    ensures pos <= k <= |body|
    ensures forall i | pos <= i < k :: !EndsWindow(body[i], window)
    ensures k < |body| ==> EndsWindow(body[k], window)
    decreases |body| - pos
  {
    if pos == |body| || EndsWindow(body[pos], window) then pos else Stop(body, pos + 1, window)
  }

  /** One row per binding, in request order, for every selected change inside the window among
      commands `lo` to `hi`. */
  function Filter(body: Body, lo: nat, hi: nat, selection: Selection, window: TimeWindow): seq<TimeValue>
    requires hi <= |body|
    decreases hi - lo
  {
    if lo >= hi then []
    else
      (if body[lo].Parsed? && Converted(body[lo].command).Some? && Contains(window, TimeBefore(body, lo)) then
         var (id, value) := Converted(body[lo].command).value;
         if id in selection then RowsFor(selection[id], TimeBefore(body, lo), value) else []
       else [])
      + Filter(body, lo + 1, hi, selection, window)
  }

  predicate WellFormed(body: Body) {
    forall i | 0 <= i < |body| :: body[i].Parsed?
  }

  /** The first malformed command from `pos` on, or the end of the body. */
  function FirstMalformed(body: Body, pos: nat): (k: nat)
    requires pos <= |body|
    ensures pos <= k <= |body|
    ensures forall i | pos <= i < k :: body[i].Parsed?
    ensures k < |body| ==> body[k].Malformed?
    decreases |body| - pos
  {
    if pos == |body| || body[pos].Malformed? then pos else FirstMalformed(body, pos + 1)
  }

  /** The command at which an unlimited extraction ends: a malformed one, the first timestamp
      greater than the window's end, or the end of the body. */
  function Halt(body: Body, window: TimeWindow): (k: nat)
    ensures k <= |body|
    ensures forall i | 0 <= i < k :: body[i].Parsed? && !EndsWindow(body[i], window)
    ensures k < |body| ==> body[k].Malformed? || EndsWindow(body[k], window)
  {
    var bad, stop := FirstMalformed(body, 0), Stop(body, 0, window);
    if bad < stop then bad else stop
  }

  function HaltError(body: Body, q: Query): Option<QueryError> {
    var halt := Halt(body, q.window);
    if halt < |body| && body[halt].Malformed? then Some(ParseFailure) else Completion(q).end
  }

  /** How many commands an unlimited extraction reads: up to and including the halting one. */
  function CommandsRead(body: Body, window: TimeWindow): nat {
    var halt := Halt(body, window);
    if halt < |body| then halt + 1 else halt
  }

  /** Where the stream stops reading, and why. */
  function Cutoff(body: Body, q: Query): (nat, Option<QueryError>) {
    if q.maxCommands.Some? && q.maxCommands.value < CommandsRead(body, q.window) then
      (q.maxCommands.value, Some(LimitExceeded(Commands, q.maxCommands.value, q.maxCommands.value + 1)))
    else (Halt(body, q.window), HaltError(body, q))
  }

  lemma {:induction false} DecodeIsFilter(body: Body, pos: nat, q: Query)
    requires pos <= Cutoff(body, q).0
    ensures var d := Decode(body, pos, TimeBefore(body, pos), q);
            && ExpandAll(q.selection, d.changes) == Filter(body, pos, Cutoff(body, q).0, q.selection, q.window)
            && d.end == Cutoff(body, q).1
    decreases |body| - pos
  {
    var cut := Cutoff(body, q).0;
    if pos == cut {
      assert Decode(body, pos, TimeBefore(body, pos), q).changes == [];
    } else {
      assert body[pos].Parsed?;
      DecodeIsFilter(body, pos + 1, q);
      var rest := Decode(body, pos + 1, TimeBefore(body, pos + 1), q);
      if Wanted(q, body[pos], TimeBefore(body, pos)) {
        var change := Converted(body[pos].command).value;
        var head := SelectedChange(change.0, TimeBefore(body, pos), change.1);
        assert ([head] + rest.changes)[1..] == rest.changes;
      }
    }
  }

  lemma WellFormedHalts(body: Body, window: TimeWindow)
    requires WellFormed(body)
    ensures Halt(body, window) == Stop(body, 0, window)
  {
  }

  /** Without a command limit, the rows of any body are the filter of the commands before the
      halting one, and the extraction ends as that one says. In an error-free body it is the
      first timestamp greater than the window's end. */
  lemma ExtractionIsFilter(body: Body, q: Query)
    requires q.maxCommands.None?
    ensures var d := Decode(body, 0, 0, q);
            && ExpandAll(q.selection, d.changes) == Filter(body, 0, Halt(body, q.window), q.selection, q.window)
            && d.end == HaltError(body, q)
    ensures WellFormed(body) ==>
              Halt(body, q.window) == Stop(body, 0, q.window) && HaltError(body, q) == Completion(q).end
  {
    DecodeIsFilter(body, 0, q);
    if WellFormed(body) {
      WellFormedHalts(body, q.window);
    }
  }

  /** A command limit c cuts exactly when command c + 1 would have to be read, even if that one is
      malformed: then the rows are those of the first c commands and the error names c + 1;
      otherwise the limit is not seen. */
  lemma CommandLimitCuts(body: Body, q: Query, c: nat)
    requires q.maxCommands == Some(c)
    ensures var d := Decode(body, 0, 0, q);
            var unlimited := Decode(body, 0, 0, q.(maxCommands := None));
            if c < CommandsRead(body, q.window) then
              && ExpandAll(q.selection, d.changes) == Filter(body, 0, c, q.selection, q.window)
              && d.end == Some(LimitExceeded(Commands, c, c + 1))
            else
              ExpandAll(q.selection, d.changes) == ExpandAll(q.selection, unlimited.changes) && d.end == unlimited.end
  {
    DecodeIsFilter(body, 0, q);
    DecodeIsFilter(body, 0, q.(maxCommands := None));
  }

  predicate TimesNeverDecrease(body: Body) {
    forall i, j | 0 <= i <= j < |body| && body[i].Parsed? && body[i].command.Timestamp?
                  && body[j].Parsed? && body[j].command.Timestamp? :: body[i].command.time <= body[j].command.time
  }

  lemma {:induction false} TimeStaysAfter(body: Body, stop: nat, k: nat, window: TimeWindow)
    requires TimesNeverDecrease(body) && stop < k <= |body| && EndsWindow(body[stop], window)
    ensures After(window, TimeBefore(body, k))
  {
    if k > stop + 1 && !(body[k - 1].Parsed? && body[k - 1].command.Timestamp?) {
      TimeStaysAfter(body, stop, k - 1, window);
    }
  }

  lemma {:induction false} FilterAfterStopIsEmpty(body: Body, stop: nat, lo: nat, selection: Selection,
                                                  window: TimeWindow)
    requires TimesNeverDecrease(body) && stop < |body| && EndsWindow(body[stop], window) && stop <= lo <= |body|
    ensures Filter(body, lo, |body|, selection, window) == []
    decreases |body| - lo
  {
    if lo >= |body| {
    } else {
      if lo > stop {
        TimeStaysAfter(body, stop, lo, window);
      }
      FilterAfterStopIsEmpty(body, stop, lo + 1, selection, window);
    }
  }

  lemma {:induction false} FilterSplits(body: Body, lo: nat, mid: nat, selection: Selection, window: TimeWindow)
    requires lo <= mid <= |body|
    ensures Filter(body, lo, |body|, selection, window) ==
            Filter(body, lo, mid, selection, window) + Filter(body, mid, |body|, selection, window)
    decreases mid - lo
  {
    if lo >= mid {
    } else {
      FilterSplits(body, lo + 1, mid, selection, window);
    }
  }

  /** When timestamps never decrease, stopping early loses nothing: the result is the filter of
      the whole body. */
  lemma EarlyStopIsExact(body: Body, selection: Selection, window: TimeWindow)
    requires TimesNeverDecrease(body)
    ensures Filter(body, 0, Stop(body, 0, window), selection, window) == Filter(body, 0, |body|, selection, window)
  {
    var stop := Stop(body, 0, window);
    FilterSplits(body, 0, stop, selection, window);
    if stop < |body| {
      FilterAfterStopIsEmpty(body, stop, stop, selection, window);
    }
  }

  /** Command `k` changes the signal requested as number `n` at a time inside the window, and the
      row says so. */
  predicate RowAt(body: Body, k: nat, names: Names, targets: seq<string>, n: nat, window: TimeWindow, row: TimeValue)
    requires k < |body|
  {
    && n < |targets| && row.signal == targets[n] && targets[n] in names
    && body[k].Parsed? && Writes(body[k].command, names[targets[n]].id, row.value)
    && row.time == TimeBefore(body, k)
    && (window.start.Some? ==> window.start.value <= row.time)
    && (window.end.Some? ==> row.time <= window.end.value)
  }

  ghost predicate RowAmong(body: Body, lo: nat, hi: nat, names: Names, targets: seq<string>, window: TimeWindow,
                           row: TimeValue)
    requires hi <= |body|
  {
    exists k, n: nat :: lo <= k < hi && RowAt(body, k, names, targets, n, window, row)
  }

  lemma RowOfBinding(bindings: seq<Binding>, time: u64, value: ChangeValue, row: TimeValue)
    ensures row in RowsFor(bindings, time, value) <==>
            row.time == time && row.value == value && exists i :: 0 <= i < |bindings| && bindings[i].name == row.signal
  {
    var rows := RowsFor(bindings, time, value);
    if i :| 0 <= i < |bindings| && bindings[i].name == row.signal && row.time == time && row.value == value {
      assert rows[i] == row;
    }
  }

  lemma RowsOfCommand(body: Body, k: nat, selection: Selection, names: Names, targets: seq<string>,
                      window: TimeWindow, id: IdCode, value: ChangeValue, row: TimeValue)
    requires k < |body| && Resolves(selection, names, targets)
    requires body[k].Parsed? && Converted(body[k].command) == Some((id, value)) && Contains(window, TimeBefore(body, k))
    ensures row in (if id in selection then RowsFor(selection[id], TimeBefore(body, k), value) else []) <==>
            exists n: nat :: RowAt(body, k, names, targets, n, window, row)
  {
    ConversionExactly(body[k].command, id, value);
    if n: nat :| RowAt(body, k, names, targets, n, window, row) {
      ConversionExactly(body[k].command, names[targets[n]].id, row.value);
      var b := Binding(n, targets[n], names[targets[n]].size);
      BindingsExactly(names, targets, id, b);
      var i :| 0 <= i < |selection[id]| && selection[id][i] == b;
      RowOfBinding(selection[id], TimeBefore(body, k), value, row);
    }
    if id in selection && row in RowsFor(selection[id], TimeBefore(body, k), value) {
      RowOfBinding(selection[id], TimeBefore(body, k), value, row);
      var i :| 0 <= i < |selection[id]| && selection[id][i].name == row.signal;
      var b := selection[id][i];
      assert b in selection[id];
      BindingsExactly(names, targets, id, b);
      assert RowAt(body, k, names, targets, b.requestIndex, window, row);
    }
  }

  lemma RowAmongStep(body: Body, lo: nat, hi: nat, names: Names, targets: seq<string>, window: TimeWindow,
                     row: TimeValue)
    requires lo < hi <= |body|
    ensures RowAmong(body, lo, hi, names, targets, window, row) <==>
            RowAmong(body, lo + 1, hi, names, targets, window, row)
            || exists n: nat :: RowAt(body, lo, names, targets, n, window, row)
  {
  }

  lemma {:induction false} FilterExactly(body: Body, lo: nat, hi: nat, selection: Selection, names: Names,
                                         targets: seq<string>, window: TimeWindow, row: TimeValue)
    requires lo <= hi <= |body| && Resolves(selection, names, targets)
    ensures row in Filter(body, lo, hi, selection, window) <==> RowAmong(body, lo, hi, names, targets, window, row)
    decreases hi - lo
  {
    if lo < hi {
      FilterExactly(body, lo + 1, hi, selection, names, targets, window, row);
      RowAmongStep(body, lo, hi, names, targets, window, row);
      if body[lo].Parsed? && Converted(body[lo].command).Some? && Contains(window, TimeBefore(body, lo)) {
        var (id, value) := Converted(body[lo].command).value;
        RowsOfCommand(body, lo, selection, names, targets, window, id, value, row);
      } else if n: nat :| RowAt(body, lo, names, targets, n, window, row) {
        ConversionExactly(body[lo].command, names[targets[n]].id, row.value);
      }
    }
  }

  /** On an error-free body with non-decreasing timestamps, an unlimited extraction yields a row
      exactly when some command writes that value to a requested signal at that time, inside the
      window. */
  lemma RowsAreTheSelectedChanges(body: Body, q: Query, names: Names, targets: seq<string>, row: TimeValue)
    requires WellFormed(body) && TimesNeverDecrease(body) && q.maxCommands.None?
    requires Resolves(q.selection, names, targets)
    ensures row in ExpandAll(q.selection, Decode(body, 0, 0, q).changes) <==>
            RowAmong(body, 0, |body|, names, targets, q.window, row)
  {
    ExtractionIsFilter(body, q);
    EarlyStopIsExact(body, q.selection, q.window);
    FilterExactly(body, 0, |body|, q.selection, names, targets, q.window, row);
  }

  // ------------------------------------------------------------------ rows and byte budgets

  function BytesOf(rows: seq<TimeValue>): nat {
    if rows == [] then 0 else BytesOf(rows[..|rows| - 1]) + EventBytes(rows[|rows| - 1])
  }

  lemma {:induction false} BytesOfCons(row: TimeValue, rows: seq<TimeValue>)
    ensures BytesOf([row] + rows) == EventBytes(row) + BytesOf(rows)
  {
    if rows != [] {
      assert ([row] + rows)[..|rows|] == [row] + rows[..|rows| - 1];
      BytesOfCons(row, rows[..|rows| - 1]);
    } else {
      assert [row] + rows == [row];
      assert [row][..0] == [];
    }
  }

  /** What known rows cost: eight bytes for the time, sixteen for an integer, eight for a float, and
      the UTF-8 bytes of every text. */
  lemma KnownRowCosts(time: u64)
    ensures EventBytes(TimeValue("top.a", time, Text("0"))) == 14
    ensures EventBytes(TimeValue("top.a", time, Integer(0))) == 29
    ensures EventBytes(TimeValue("top.a", time, Float(0, "0"))) == 21
    ensures EventBytes(TimeValue("\U{e9}", time, Text(""))) == 10
  {
    assert "top.a"[..4] == "top." && "top."[..3] == "top" && "top"[..2] == "to" && "to"[..1] == "t" && "t"[..0] == "";
    assert Utf8Bytes("t") == 1 && Utf8Bytes("to") == 2 && Utf8Bytes("top") == 3 && Utf8Bytes("top.") == 4;
    assert "0"[..0] == "" && "\U{e9}"[..0] == "";
  }

  predicate WithinBudgets(rows: nat, bytes: nat, limits: Limits) {
    && (limits.maxRows.Some? ==> rows <= limits.maxRows.value)
    && (limits.maxResultBytes.Some? ==> bytes <= limits.maxResultBytes.value)
  }

  function Oks(rows: seq<TimeValue>): Output {
    if rows == [] then [] else [Ok(rows[0])] + Oks(rows[1..])
  }

  /** The saturating counters are exact as far as the budgets can tell. */
  predicate CountersExact(due: seq<TimeValue>, rows: nat, bytes: nat, limits: Limits) {
    && (limits.maxRows.Some? ==> limits.maxRows.value < U64_MAX || rows + |due| <= U64_MAX)
    && (limits.maxResultBytes.Some? ==> limits.maxResultBytes.value < U64_MAX || bytes + BytesOf(due) <= U64_MAX)
  }

  /** `n` rows fit both budgets and, if there are more, the next one does not. */
  predicate LongestPrefix(n: nat, due: seq<TimeValue>, rows: nat, bytes: nat, limits: Limits) {
    && n <= |due| && WithinBudgets(rows + n, bytes + BytesOf(due[..n]), limits)
    && (n < |due| ==> !WithinBudgets(rows + n + 1, bytes + BytesOf(due[..n + 1]), limits))
  }

  /** The error at row `n`: the row budget if that is exceeded, else the byte budget. */
  function BudgetError(n: nat, due: seq<TimeValue>, rows: nat, bytes: nat, limits: Limits): QueryError
    requires n < |due|
  {
    if limits.maxRows.Some? && rows + n + 1 > limits.maxRows.value then
      LimitExceeded(Rows, limits.maxRows.value, rows + n + 1)
    else
      LimitExceeded(ResultBytes, if limits.maxResultBytes.Some? then limits.maxResultBytes.value else 0,
                    SaturatingAdd(bytes, BytesOf(due[..n + 1])))
  }

  /** The error that ends an output, if one does. */
  function Ending(end: Option<QueryError>): Output {
    if end.Some? then [Err(end.value)] else []
  }

  /** The first `n` rows, then the error of the exceeded budget if rows remain, else the end of
      the stream. */
  predicate EmitsPrefix(output: Output, n: nat, due: seq<TimeValue>, end: Option<QueryError>, rows: nat, bytes: nat,
                        limits: Limits) {
    && n <= |due|
    && (if n < |due| then output == Oks(due[..n]) + [Err(BudgetError(n, due, rows, bytes, limits))]
        else output == Oks(due) + Ending(end))
  }

  lemma PrefixGrows(n: nat, due: seq<TimeValue>, rows: nat, bytes: nat, limits: Limits)
    requires due != [] && LongestPrefix(n, due[1..], rows + 1, bytes + EventBytes(due[0]), limits)
    ensures LongestPrefix(n + 1, due, rows, bytes, limits)
  {
    assert due[..n + 1] == [due[0]] + due[1..][..n];
    BytesOfCons(due[0], due[1..][..n]);
    if n + 1 < |due| {
      assert due[..n + 2] == [due[0]] + due[1..][..n + 1];
      BytesOfCons(due[0], due[1..][..n + 1]);
    }
  }

  lemma OutputGrows(output: Output, n: nat, due: seq<TimeValue>, end: Option<QueryError>, rows: nat, bytes: nat,
                    limits: Limits)
    requires due != [] && EmitsPrefix(output, n, due[1..], end, rows + 1, bytes + EventBytes(due[0]), limits)
    ensures EmitsPrefix([Ok(due[0])] + output, n + 1, due, end, rows, bytes, limits)
  {
    if n + 1 < |due| {
      assert due[..n + 1][1..] == due[1..][..n];
      assert due[..n + 2] == [due[0]] + due[1..][..n + 1];
      BytesOfCons(due[0], due[1..][..n + 1]);
    }
  }

  lemma FirstRowBytes(due: seq<TimeValue>)
    requires due != []
    ensures BytesOf(due[..1]) == EventBytes(due[0]) && BytesOf(due) == EventBytes(due[0]) + BytesOf(due[1..])
  {
    assert due == [due[0]] + due[1..] && due[..1] == [due[0]] + [];
    BytesOfCons(due[0], due[1..]);
    BytesOfCons(due[0], []);
  }

  /** The counters of budgets that are not set do not matter. */
  lemma {:induction false} EmitIgnoresFreeCounters(due: seq<TimeValue>, end: Option<QueryError>, rows: nat, bytes: nat,
                                                   rows': nat, bytes': nat, limits: Limits)
    requires limits.maxRows.Some? ==> rows == rows'
    requires limits.maxResultBytes.Some? ==> bytes == bytes'
    ensures Emit(due, end, rows, bytes, limits) == Emit(due, end, rows', bytes', limits)
    decreases |due|
  {
    if due == [] {
    } else {
      EmitIgnoresFreeCounters(due[1..], end, SaturatingAdd(rows, 1), SaturatingAdd(bytes, EventBytes(due[0])),
                              SaturatingAdd(rows', 1), SaturatingAdd(bytes', EventBytes(due[0])), limits);
    }
  }

  lemma FirstFits(due: seq<TimeValue>, end: Option<QueryError>, rows: nat, bytes: nat, limits: Limits)
    requires due != [] && CountersExact(due, rows, bytes, limits)
    requires WithinBudgets(rows + 1, bytes + EventBytes(due[0]), limits)
    ensures Emit(due, end, rows, bytes, limits) == [Ok(due[0])]
            + Emit(due[1..], end, rows + 1, bytes + EventBytes(due[0]), limits)
    ensures CountersExact(due[1..], rows + 1, bytes + EventBytes(due[0]), limits)
  {
    FirstRowBytes(due);
    EmitIgnoresFreeCounters(due[1..], end, rows + 1, bytes + EventBytes(due[0]),
                            SaturatingAdd(rows, 1), SaturatingAdd(bytes, EventBytes(due[0])), limits);
  }

  lemma FirstExceeds(due: seq<TimeValue>, end: Option<QueryError>, rows: nat, bytes: nat, limits: Limits)
    requires due != [] && CountersExact(due, rows, bytes, limits) && WithinBudgets(rows, bytes, limits)
    requires !WithinBudgets(rows + 1, bytes + EventBytes(due[0]), limits)
    ensures LongestPrefix(0, due, rows, bytes, limits)
            && EmitsPrefix(Emit(due, end, rows, bytes, limits), 0, due, end, rows, bytes, limits)
  {
    FirstRowBytes(due);
    assert due[..0] == [];
  }

  /** With row and byte budgets the output is the longest prefix of the unlimited rows that stays
      within both, then the error of the exceeded budget with its exact total if rows remain, else
      the end of the unlimited output. */
  lemma {:induction false} LimitsOnlyTruncate(due: seq<TimeValue>, end: Option<QueryError>, rows: nat, bytes: nat,
                                              limits: Limits)
    requires WithinBudgets(rows, bytes, limits) && CountersExact(due, rows, bytes, limits)
    ensures exists n: nat ::
              LongestPrefix(n, due, rows, bytes, limits)
              && EmitsPrefix(Emit(due, end, rows, bytes, limits), n, due, end, rows, bytes, limits)
    decreases |due|
  {
    if due == [] {
      assert LongestPrefix(0, due, rows, bytes, limits)
          && EmitsPrefix(Emit(due, end, rows, bytes, limits), 0, due, end, rows, bytes, limits);
    } else if WithinBudgets(rows + 1, bytes + EventBytes(due[0]), limits) {
      FirstFits(due, end, rows, bytes, limits);
      LimitsOnlyTruncate(due[1..], end, rows + 1, bytes + EventBytes(due[0]), limits);
      var output := Emit(due[1..], end, rows + 1, bytes + EventBytes(due[0]), limits);
      var n: nat :| LongestPrefix(n, due[1..], rows + 1, bytes + EventBytes(due[0]), limits)
                    && EmitsPrefix(output, n, due[1..], end, rows + 1, bytes + EventBytes(due[0]), limits);
      PrefixGrows(n, due, rows, bytes, limits);
      OutputGrows(output, n, due, end, rows, bytes, limits);
    } else {
      FirstExceeds(due, end, rows, bytes, limits);
    }
  }

  lemma {:induction false} EmitUnlimited(due: seq<TimeValue>, end: Option<QueryError>, rows: nat, bytes: nat,
                                         limits: Limits)
    requires limits.maxRows.None? && limits.maxResultBytes.None?
    ensures Emit(due, end, rows, bytes, limits) == Oks(due) + Ending(end)
    decreases |due|
  {
    if due == [] {
    } else {
      EmitUnlimited(due[1..], end, SaturatingAdd(rows, 1), SaturatingAdd(bytes, EventBytes(due[0])), limits);
    }
  }

  // ------------------------------------------------------------------ whole iterations

  /** The rows of an output before its first error. */
  function OkRows(output: Output): seq<TimeValue> {
    if output == [] || output[0].Err? then [] else [output[0].value] + OkRows(output[1..])
  }

  function FirstError(output: Output): Option<QueryError> {
    if output == [] then None
    else if output[0].Err? then Some(output[0].error)
    else FirstError(output[1..])
  }

  lemma RowThenRest(row: TimeValue, rest: Output)
    ensures OkRows([Ok(row)] + rest) == [row] + OkRows(rest) && FirstError([Ok(row)] + rest) == FirstError(rest)
  {
    assert ([Ok(row)] + rest)[1..] == rest;
  }

  lemma {:induction false} RowsAndEnd(rows: seq<TimeValue>, end: Option<QueryError>)
    ensures OkRows(Oks(rows) + Ending(end)) == rows && FirstError(Oks(rows) + Ending(end)) == end
  {
    if rows == [] {
    } else {
      RowsAndEnd(rows[1..], end);
      assert Oks(rows) + Ending(end) == [Ok(rows[0])] + (Oks(rows[1..]) + Ending(end));
      RowThenRest(rows[0], Oks(rows[1..]) + Ending(end));
    }
  }

  lemma TakenIsNext(output: Output, all: Output, r: Result<TimeValue, QueryError>, before: Output, after: Output)
    requires output + before == all && Takes(Some(r), before, after)
    ensures r != Err(Cancelled) ==> output + [r] + after == all
    ensures output <= all
  {
    if r != Err(Cancelled) {
      assert before == [r] + after;
    }
  }

  /** Iterating to the end: without cancellation the output is exactly what was due; a cancelled
      iteration yields a prefix of its rows and then the cancellation, and after any error the
      iterator yields nothing more. */
  method Collect(iter: OpenedTimeValueIter) returns (output: Output)
    requires iter.Valid()
    modifies iter, iter.stream, iter.context
    ensures old(iter.context.checksLeft).None? ==> output == old(iter.Remaining())
    ensures output == old(iter.Remaining()) ||
            (output != [] && output[|output| - 1] == Err(Cancelled)
             && output[..|output| - 1] <= old(iter.Remaining()))
    ensures iter.Remaining() == []
  {
    output := [];
    ghost var all, left := iter.Remaining(), iter.Remaining();
    while true
      invariant iter.Valid() && iter.Remaining() == left && output + left == all
      invariant old(iter.context.checksLeft).None? ==> iter.context.checksLeft.None?
      decreases |left|
    {
      var next := iter.Next();
      if next.None? {
        return;
      }
      ghost var before := left;
      left := iter.Remaining();
      TakenIsNext(output, all, next.value, before, left);
      ghost var sofar := output;
      output := output + [next.value];
      if next.value.Err? {
        assert output[..|output| - 1] == sofar && output + [] == output;
        return;
      }
    }
  }

  /** Collecting results: the rows, or the first error. */
  method Collected(output: Output) returns (r: Result<seq<TimeValue>, QueryError>)
    ensures r == if FirstError(output).Some? then Err(FirstError(output).value) else Ok(OkRows(output))
  {
    var rows: seq<TimeValue> := [];
    assert output[0..] == output;
    for k := 0 to |output|
      invariant rows + OkRows(output[k..]) == OkRows(output)
      invariant FirstError(output[k..]) == FirstError(output)
    {
      assert output[k..][1..] == output[k + 1..];
      if output[k].Err? {
        return Err(output[k].error);
      }
      rows := rows + [output[k].value];
    }
    assert output[|output|..] == [] && rows + [] == rows;
    return Ok(rows);
  }

  /** `extract_time_values_from_file`: resolve, stream, expand and collect under an unlimited
      policy. The rows are the filter of the body up to where it halts; an error anywhere is the
      result. */
  method ExtractAll(names: Names, targets: seq<string>, window: TimeWindow, body: Body, source: Source)
    returns (r: Result<seq<TimeValue>, QueryError>)
    ensures r.Ok? ==> exists selection ::
              Resolves(selection, names, targets) && r.value == Filter(body, 0, Halt(body, window), selection, window)
    ensures r == if Missing(names, targets) != [] then Err(MissingSignals(Missing(names, targets)))
                 else if !source.atStart then Err(StaleSource)
                 else if Halt(body, window) < |body| && body[Halt(body, window)].Malformed? then Err(ParseFailure)
                 else if !source.atEnd then Err(StaleSource)
                 else Ok(if r.Ok? then r.value else [])
  {
    var context := new QueryContext(None, Limits(None, None, None, None));
    var extraction := Extract(names, targets, window, body, source, context);
    if extraction.Err? {
      return Err(extraction.error);
    }
    var iter := extraction.value;
    ghost var q := iter.stream.query;
    ghost var rows, end := Filter(body, 0, Halt(body, window), q.selection, window), HaltError(body, q);
    ExtractionIsFilter(body, q);
    EmitUnlimited(rows, end, 0, 0, context.limits);
    var output := Collect(iter);
    RowsAndEnd(rows, end);
    r := Collected(output);
  }
}
