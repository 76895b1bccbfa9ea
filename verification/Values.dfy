/** Signal values, query policies and time windows shared by the query modules
    (src/lib.rs, src/query/mod.rs). */
module Values {
  import opened Wrappers
  import opened Words
  import opened Decimals

  /** A float is its bit pattern together with the text the standard library prints for it. */
  datatype ChangeValue = Integer(i: nat) | Float(bits: nat, shown: string) | Text(text: string)

  function LowerChar(c: char): char {
    if 'A' <= c <= 'Z' then c - 'A' + 'a' else c
  }

  function Lower(text: string): string {
    if text == "" then "" else Lower(text[..|text| - 1]) + [LowerChar(text[|text| - 1])]
  }

  function Display(v: ChangeValue): string {
    match v
    case Integer(i) => Show(i)
    case Float(_, shown) => shown
    case Text(text) => text
  }

  function Normalize(v: ChangeValue): string {
    match v
    case Text(text) => Lower(text)
    case _ => Display(v)
  }

  /** The same letter, perhaps once in upper and once in lower case, or the same character. */
  predicate SameLetter(c: char, d: char) {
    || c == d
    || ('A' <= c <= 'Z' && d as int == c as int + 32)
    || ('A' <= d <= 'Z' && c as int == d as int + 32)
  }

  predicate SameUpToCase(a: string, b: string) {
    |a| == |b| && forall i | 0 <= i < |a| :: SameLetter(a[i], b[i])
  }

  lemma {:induction false} LowerPointwise(text: string)
    ensures |Lower(text)| == |text| && forall i | 0 <= i < |text| :: Lower(text)[i] == LowerChar(text[i])
  {
    if text != "" {
      LowerPointwise(text[..|text| - 1]);
    }
  }

  lemma LowerIsCaseless(c: char, d: char)
    ensures LowerChar(c) == LowerChar(d) <==> SameLetter(c, d)
  {
  }

  /** Normalized texts are equal exactly when the texts are, up to the case of ASCII letters. */
  lemma NormalizedTextsAgree(a: string, b: string)
    ensures Normalize(Text(a)) == Normalize(Text(b)) <==> SameUpToCase(a, b)
  {
    LowerPointwise(a);
    LowerPointwise(b);
    forall i | 0 <= i < |a| && i < |b| ensures Lower(a)[i] == Lower(b)[i] <==> SameLetter(a[i], b[i]) {
      LowerIsCaseless(a[i], b[i]);
    }
    if SameUpToCase(a, b) {
      assert Lower(a) == Lower(b);
    }
  }

  lemma LowerTwice(text: string)
    ensures Lower(Lower(text)) == Lower(text)
  {
    LowerPointwise(text);
    LowerPointwise(Lower(text));
    assert forall i | 0 <= i < |text| :: Lower(Lower(text))[i] == Lower(text)[i];
  }

  datatype TimeWindow = TimeWindow(start: Option<nat>, end: Option<nat>)

  predicate Contains(window: TimeWindow, time: nat) {
    && (window.start.Some? ==> window.start.value <= time)
    && (window.end.Some? ==> time <= window.end.value)
  }

  predicate After(window: TimeWindow, time: nat) {
    window.end.Some? && time > window.end.value
  }

  datatype LimitKind = Signals | Rows | ResultBytes | Commands

  datatype QueryError =
    | Cancelled
    | LimitExceeded(kind: LimitKind, limit: nat, actual: nat)
    | StaleSource
    | ParseFailure
    | MissingSignals(names: seq<string>)

  datatype Limits = Limits(maxSignals: Option<nat>, maxRows: Option<nat>, maxResultBytes: Option<nat>,
                           maxCommands: Option<nat>)

  /** The error of a request for `n` signals, if there are too many. */
  function SignalLimit(limits: Limits, n: nat): Option<QueryError> {
    if limits.maxSignals.Some? && n > limits.maxSignals.value then
      Some(LimitExceeded(Signals, limits.maxSignals.value, n))
    else None
  }

  /** Cancellation and deadline of a query: the number of policy checks that still succeed, or
      no bound. A check that has failed keeps failing. */
  class QueryContext {
    var checksLeft: Option<nat>
    const limits: Limits

    constructor (checksLeft: Option<nat>, limits: Limits)
      ensures this.checksLeft == checksLeft && this.limits == limits
    {
      this.checksLeft, this.limits := checksLeft, limits;
    }

    method Check() returns (ok: bool)
      modifies this
      ensures ok <==> old(checksLeft) != Some(0)
      ensures old(checksLeft) == Some(0) ==> !ok && checksLeft == Some(0)
      ensures checksLeft == if old(checksLeft).Some? && old(checksLeft).value > 0 then Some(old(checksLeft).value - 1)
                            else old(checksLeft)
    {
      ok := checksLeft != Some(0);
      if checksLeft.Some? && checksLeft.value > 0 {
        checksLeft := Some(checksLeft.value - 1);
      }
    }

    /** `check_signal_count`. */
    method CheckSignalCount(n: nat) returns (error: Option<QueryError>)
      modifies this
      ensures old(checksLeft).None? ==> checksLeft.None? && error == SignalLimit(limits, n)
      ensures old(checksLeft) == Some(0) ==> checksLeft == Some(0) && error == Some(Cancelled)
      ensures error == SignalLimit(limits, n) || error == Some(Cancelled)
      ensures limits.maxSignals.None? || n <= limits.maxSignals.value ==> error == None || error == Some(Cancelled)
      ensures limits.maxSignals.Some? && n > limits.maxSignals.value ==>
                error == Some(Cancelled) || error == Some(LimitExceeded(Signals, limits.maxSignals.value, n))
    {
      var ok := Check();
      return if !ok then Some(Cancelled) else SignalLimit(limits, n);
    }
  }
}
