/** The n-th event that passes a test, as both back ends look for it
    (src/query/ops.rs, src/opened/waveform.rs). */
module Occurrences {
  import opened Wrappers
  import opened Words
  import opened Decimals
  import opened Values
  import opened Extraction
  import opened ExtractionTheorems

  /** The test for a normalized target. */
  function Hits(target: string): TimeValue -> bool {
    (e: TimeValue) => Normalize(e.value) == target
  }

  /** The events that pass a test. */
  function Matches(events: seq<TimeValue>, hit: TimeValue -> bool): seq<TimeValue> {
    if events == [] then []
    else
      Matches(events[..|events| - 1], hit)
      + if hit(events[|events| - 1]) then [events[|events| - 1]] else []
  }

  function Nth(events: seq<TimeValue>, hit: TimeValue -> bool, n: nat): Option<TimeValue>
    requires n > 0
  {
    if |Matches(events, hit)| >= n then Some(Matches(events, hit)[n - 1]) else None
  }

  lemma MatchesAppend(events: seq<TimeValue>, e: TimeValue, hit: TimeValue -> bool)
    ensures Matches(events + [e], hit) == if hit(e) then Matches(events, hit) + [e] else Matches(events, hit)
  {
    assert (events + [e])[..|events|] == events;
  }

  lemma {:induction false} MatchesGrow(events: seq<TimeValue>, more: seq<TimeValue>, hit: TimeValue -> bool)
    ensures Matches(events, hit) <= Matches(events + more, hit)
  {
    if more == [] {
      assert events + more == events;
    } else {
      var init, last := more[..|more| - 1], more[|more| - 1];
      MatchesGrow(events, init, hit);
      assert events + more == events + init + [last];
      MatchesAppend(events + init, last, hit);
    }
  }

  /** If `e` is the n-th match after `events`, it is the n-th match whatever follows. */
  lemma NthIsFound(events: seq<TimeValue>, e: TimeValue, more: seq<TimeValue>, hit: TimeValue -> bool)
    requires hit(e)
    ensures Nth(events + [e] + more, hit, |Matches(events, hit)| + 1) == Some(e)
  {
    MatchesAppend(events, e, hit);
    MatchesGrow(events + [e], more, hit);
  }

  /** The positions of the hits among the first `k` events. */
  function HitsBefore(events: seq<TimeValue>, hit: TimeValue -> bool, k: nat): set<nat>
    requires k <= |events|
  {
    set i: nat | i < k && hit(events[i])
  }

  lemma {:induction false} MatchesAreHits(events: seq<TimeValue>, hit: TimeValue -> bool)
    ensures |Matches(events, hit)| == |HitsBefore(events, hit, |events|)|
  {
    if events == [] {
      assert HitsBefore(events, hit, 0) == {};
    } else {
      var last := |events| - 1;
      MatchesAreHits(events[..last], hit);
      var before := HitsBefore(events[..last], hit, last);
      assert HitsBefore(events, hit, |events|) == before + if hit(events[last]) then {last} else {};
    }
  }

  /** The n-th hit is the event that passes the test after exactly n - 1 others. */
  lemma NthExactly(events: seq<TimeValue>, hit: TimeValue -> bool, n: nat, k: nat)
    requires k < |events| && hit(events[k]) && |HitsBefore(events, hit, k)| + 1 == n
    ensures Nth(events, hit, n) == Some(events[k])
  {
    var before, rest := events[..k], events[k + 1..];
    MatchesAreHits(before, hit);
    assert HitsBefore(before, hit, k) == HitsBefore(events, hit, k);
    NthIsFound(before, events[k], rest, hit);
    assert before + [events[k]] + rest == events;
  }

  /** There is an n-th hit exactly if there are n hits. */
  lemma NthExists(events: seq<TimeValue>, hit: TimeValue -> bool, n: nat)
    requires n > 0
    ensures Nth(events, hit, n).Some? <==> |HitsBefore(events, hit, |events|)| >= n
  {
    MatchesAreHits(events, hit);
  }

  predicate Named(target: string, v: ChangeValue) {
    match v
    case Integer(i) => Canonical(target) && Value(target) == i
    case Float(_, shown) => target == shown
    case Text(text) => SameUpToCase(text, target) && Lower(target) == target
  }

  /** An integer hits its canonical decimal, a float its printed text, and a text every normalized
      target that is equal to it up to case. */
  lemma HitsExactly(target: string, e: TimeValue)
    ensures Hits(target)(e) <==> Named(target, e.value)
  {
    match e.value
    case Integer(i) =>
      ShowIsCanonical(i);
      if Canonical(target) {
        ValueShows(target);
      }
    case Text(text) =>
      NormalizedTextsAgree(text, target);
      NormalizedTextsAgree(Lower(text), text);
      LowerTwice(text);
    case _ =>
  }

  /** What a search for the n-th hit answers from the output of an extraction: the n-th hit among
      the rows before the first error, provided the source is still current when it has been
      found; otherwise the error, if there is one. */
  function Answer(output: Output, hit: TimeValue -> bool, n: nat, current: bool):
      Result<Option<TimeValue>, QueryError>
  {
    if n == 0 then Err(ParseFailure)
    else if Nth(OkRows(output), hit, n).Some?
       then (if current then Ok(Nth(OkRows(output), hit, n)) else Err(StaleSource))
    else if FirstError(output).Some? then Err(FirstError(output).value)
    else Ok(None)
  }

  /** Where a reader of an output stands: the rows it has seen and the rest make up the whole. */
  ghost predicate Reading(seen: seq<TimeValue>, rest: Output, all: Output) {
    seen + OkRows(rest) == OkRows(all) && FirstError(rest) == FirstError(all)
  }

  lemma ReadingStarts(all: Output)
    ensures Reading([], all, all)
  {
  }

  lemma ReadingRow(seen: seq<TimeValue>, row: TimeValue, rest: Output, all: Output)
    requires Reading(seen, [Ok(row)] + rest, all)
    ensures Reading(seen + [row], rest, all) && seen + [row] <= OkRows(all)
  {
    assert ([Ok(row)] + rest)[1..] == rest;
    assert seen + ([row] + OkRows(rest)) == seen + [row] + OkRows(rest);
  }

  lemma ReadingEnds(seen: seq<TimeValue>, rest: Output, all: Output)
    requires Reading(seen, rest, all) && (rest == [] || rest[0].Err?)
    ensures seen == OkRows(all)
    ensures FirstError(all) == if rest == [] then None else Some(rest[0].error)
  {
    assert seen + [] == seen;
  }

  /** The search is over: `row` is the n-th hit. */
  lemma SearchFinds(seen: seq<TimeValue>, row: TimeValue, rest: Output, all: Output, hit: TimeValue -> bool)
    requires Reading(seen, [Ok(row)] + rest, all) && hit(row)
    ensures Nth(OkRows(all), hit, |Matches(seen, hit)| + 1) == Some(row)
  {
    ReadingRow(seen, row, rest, all);
    NthIsFound(seen, row, OkRows(rest), hit);
  }
}
