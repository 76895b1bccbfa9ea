/** The streamed response of one request: frame accounting, chunk splitting and the end frame
    that reports the size of the whole response (src/server/service.rs, src/server/protocol.rs). */
module Streaming {
  import opened Wrappers
  import opened Words
  import opened Decimals
  import opened WireGrammar
  import opened Runtime

  const TERMINAL_FRAME_RESERVE_BYTES: nat := 4_096
  const HARD_MAX_RESPONSE_BYTES: nat := 1_073_741_824
  const MAX_ROUNDS: nat := 32

  // ------------------------------------------------------------------ the self-describing byte count

  /** The size of the whole response when its end frame, `base` bytes without the digits of the
      count, is written with the count `c`. */
  function Total(prior: nat, base: nat, c: nat): nat {
    prior + base + Digits(c)
  }

  predicate SelfDescribing(prior: nat, base: nat, c: nat) {
    Total(prior, base, c) == c
  }

  ghost predicate LeastSelfDescribing(prior: nat, base: nat, c: nat) {
    SelfDescribing(prior, base, c) && forall d: nat :: SelfDescribing(prior, base, d) ==> c <= d
  }

  datatype EndError = ByteCountOverflow | DidNotStabilize

  /** The candidate before round `n` of the search. */
  function Candidate(prior: nat, base: nat, n: nat): nat {
    if n == 0 then 0 else Total(prior, base, Candidate(prior, base, n - 1))
  }

  lemma {:induction false} CandidatesGrow(prior: nat, base: nat, n: nat)
    ensures Candidate(prior, base, n) <= Candidate(prior, base, n + 1)
  {
    if n == 0 {
    } else {
      CandidatesGrow(prior, base, n - 1);
      DigitsMonotone(Candidate(prior, base, n - 1), Candidate(prior, base, n));
    }
  }

  lemma {:induction false} CandidatesStayBelow(prior: nat, base: nat, n: nat, d: nat)
    requires SelfDescribing(prior, base, d)
    ensures Candidate(prior, base, n) <= d
  {
    if n == 0 {
    } else {
      CandidatesStayBelow(prior, base, n - 1, d);
      DigitsMonotone(Candidate(prior, base, n - 1), d);
    }
  }

  /** The fourth total equals the third: four rounds always suffice. */
  lemma StableAfterThree(prior: nat, base: nat)
    requires Candidate(prior, base, 1) <= U64_MAX
    ensures SelfDescribing(prior, base, Candidate(prior, base, 3))
  {
    var p := prior + base;
    var c1, c2, c3 := Candidate(prior, base, 1), Candidate(prior, base, 2), Candidate(prior, base, 3);
    assert Candidate(prior, base, 0) == 0;
    assert c1 == p + 1 && c2 == p + Digits(c1) && c3 == p + Digits(c2);
    CandidatesGrow(prior, base, 1);
    CandidatesGrow(prior, base, 2);
    DigitsMonotone(c1, c2);
    DigitsMonotone(c2, c3);
    DigitsOfU64(c1);
    if c1 >= 10 {
      DigitsOfSmallSum(c1, c2);
      DigitsOfSmallSum(c1, c3);
    }
  }

  /** `ResponseFrame::end_success`: it returns the least count that describes itself, and fails
      only when that count does not fit 64 bits; it never runs out of rounds. */
  method EndSuccess(base: nat, prior: nat) returns (r: Result<nat, EndError>)
    ensures r.Ok? ==> r.value <= U64_MAX && LeastSelfDescribing(prior, base, r.value)
    ensures r.Err? ==> r.error == ByteCountOverflow && forall c: nat :: SelfDescribing(prior, base, c) ==> c > U64_MAX
  {
    var candidate, round := 0, 0;
    while round < MAX_ROUNDS
      invariant round <= 3 && candidate == Candidate(prior, base, round) && candidate <= U64_MAX
    {
      var total := prior + base + Digits(candidate);
      assert total == Candidate(prior, base, round + 1);
      if total > U64_MAX {
        forall c: nat | SelfDescribing(prior, base, c) ensures c > U64_MAX {
          CandidatesStayBelow(prior, base, round + 1, c);
        }
        return Err(ByteCountOverflow);
      }
      if total == candidate {
        forall d: nat | SelfDescribing(prior, base, d) ensures candidate <= d {
          CandidatesStayBelow(prior, base, round, d);
        }
        return Ok(candidate);
      }
      if round == 3 {
        CandidatesGrow(prior, base, 1);
        CandidatesGrow(prior, base, 2);
        StableAfterThree(prior, base);
        assert false;
      }
      candidate := total;
      round := round + 1;
    }
    return Err(DidNotStabilize);
  }

  // ------------------------------------------------------------------ counting a frame

  function Sum(pieces: seq<nat>): nat {
    if pieces == [] then 0 else Sum(pieces[..|pieces| - 1]) + pieces[|pieces| - 1]
  }

  lemma {:induction false} SumOfPrefix(pieces: seq<nat>, n: nat)
    requires n <= |pieces|
    ensures Sum(pieces[..n]) <= Sum(pieces)
  {
    if n < |pieces| {
      SumOfPrefix(pieces[..|pieces| - 1], n);
      assert pieces[..|pieces| - 1][..n] == pieces[..n];
    } else {
      assert pieces[..n] == pieces;
    }
  }

  /** The writer that only counts, up to a cap. */
  class CappedCounter {
    const cap: nat
    var written: nat
    var exceeded: bool

    constructor (lineCap: nat)
      ensures cap == (if lineCap == 0 then 0 else lineCap - 1) && written == 0 && !exceeded
    {
      cap := if lineCap == 0 then 0 else lineCap - 1;
      written, exceeded := 0, false;
    }

    method Write(bytes: nat) returns (ok: bool)
      modifies this
      ensures ok <==> old(written) + bytes <= cap
      ensures written == if ok then old(written) + bytes else old(written)
      ensures exceeded == (old(exceeded) || !ok)
    {
      ok := written + bytes <= cap;
      if ok {
        written := written + bytes;
      } else {
        exceeded := true;
      }
    }
  }

  /** `try_frame_bytes`: however the serializer cuts a frame into writes, the result is the length
      of its line exactly when the line fits the limit. */
  method TryFrameBytes(pieces: seq<nat>, frameLimit: nat) returns (bytes: Option<nat>)
    ensures bytes ==
            if Fits(Frame(ChunkFrame, None, 0, Sum(pieces), Bare), frameLimit) then Some(Sum(pieces) + 1) else None
    ensures frameLimit > 0 ==> (bytes.Some? <==> Sum(pieces) + 1 <= frameLimit)
  {
    var counter := new CappedCounter(frameLimit);
    var i := 0;
    while i < |pieces|
      invariant 0 <= i <= |pieces| && !counter.exceeded
      invariant counter.written == Sum(pieces[..i]) <= counter.cap
    {
      var ok := counter.Write(pieces[i]);
      assert pieces[..i + 1][..i] == pieces[..i];
      if !ok {
        SumOfPrefix(pieces, i + 1);
        return None;
      }
      i := i + 1;
    }
    assert pieces[..i] == pieces;
    return Some(counter.written + 1);
  }

  function FrameBytes(f: Frame, frameLimit: nat): Option<nat> {
    if Fits(f, frameLimit) then Some(f.size + 1) else None
  }

  // ------------------------------------------------------------------ a response on the channel

  /** What the serializer produces, up to what matters: the JSON sizes of a begin frame, of a
      chunk, and of an end frame without the digits of its byte count. */
  datatype Encoder = Encoder(begin: nat, chunk: (nat, seq<Row>) -> nat, end: (nat, nat, nat) -> nat)

  /** A chunk is at least as long as the number of its rows. */
  ghost predicate Plausible(enc: Encoder) {
    forall n, rows :: enc.chunk(n, rows) >= |rows|
  }

  function LineBytes(fs: seq<Frame>): nat {
    if fs == [] then 0 else LineBytes(fs[..|fs| - 1]) + fs[|fs| - 1].size + 1
  }

  function RowsOf(fs: seq<Frame>): seq<Row> {
    if fs == [] then []
    else RowsOf(fs[..|fs| - 1]) + (if fs[|fs| - 1].payload.Rows? then fs[|fs| - 1].payload.rows else [])
  }

  lemma LineBytesAppend(fs: seq<Frame>, f: Frame)
    ensures LineBytes(fs + [f]) == LineBytes(fs) + f.size + 1
    ensures RowsOf(fs + [f]) == RowsOf(fs) + if f.payload.Rows? then f.payload.rows else []
  {
    assert (fs + [f])[..|fs|] == fs;
  }

  /** An unfinished response of `id`: a begin frame, then numbered chunks as the encoder makes
      them, every frame within the frame limit. */
  ghost predicate Underway(fs: seq<Frame>, id: RequestId, enc: Encoder, frameLimit: nat) {
    && Stream(fs) && fs[0].payload == Bare
    && (forall i | 0 <= i < |fs| :: fs[i].id == Some(id) && Fits(fs[i], frameLimit))
    && (forall i | 0 < i < |fs| ::
        fs[i].payload.Rows? && fs[i].payload.rows != [] && fs[i].size == enc.chunk(i, fs[i].payload.rows))
  }

  /** The counters of a stream are those of its frames, within the budget. */
  ghost predicate Accounted(fs: seq<Frame>, id: RequestId, enc: Encoder, frameLimit: nat, responseLimit: nat,
                            nextSeq: nat, bytes: nat, rows: nat)
  {
    && Underway(fs, id, enc, frameLimit)
    && |fs| == nextSeq && LineBytes(fs) == bytes && |RowsOf(fs)| == rows
    && rows <= bytes && bytes + TERMINAL_FRAME_RESERVE_BYTES <= responseLimit
  }

  lemma AccountedGrows(fs: seq<Frame>, f: Frame, id: RequestId, enc: Encoder, frameLimit: nat, responseLimit: nat,
                       nextSeq: nat, bytes: nat, rows: nat)
    requires Accounted(fs, id, enc, frameLimit, responseLimit, nextSeq, bytes, rows) && Plausible(enc)
    requires f.kind == ChunkFrame && f.id == Some(id) && f.seq_ == nextSeq && Fits(f, frameLimit)
    requires f.payload.Rows? && f.payload.rows != [] && f.size == enc.chunk(nextSeq, f.payload.rows)
    requires bytes + f.size + 1 + TERMINAL_FRAME_RESERVE_BYTES <= responseLimit
    ensures Accounted(fs + [f], id, enc, frameLimit, responseLimit, nextSeq + 1, bytes + f.size + 1,
                      rows + |f.payload.rows|)
  {
    LineBytesAppend(fs, f);
  }

  datatype StreamError =
    | Transport(error: SendError)
    | ChunkTooLarge
    | FrameLimit
    | ResponseLimit
    | CountOverflow

  /** `ensure_response_budget`. */
  predicate WithinBudget(current: nat, next: nat, limit: nat) {
    SaturatingAdd(SaturatingAdd(current, next), TERMINAL_FRAME_RESERVE_BYTES) <= limit
  }

  lemma GrowsTwice(sent: seq<Frame>, first: seq<Frame>, second: seq<Frame>, third: seq<Frame>)
    requires first <= second <= third
    ensures sent + second[|first|..] + third[|second|..] == sent + third[|first|..]
  {
    assert third[|first|..] == second[|first|..] + third[|second|..];
  }

  // ------------------------------------------------------------------ what a send meets

  /** What the channel offers in each round of one send, and what other threads enqueue meanwhile. */
  datatype Surrounding = Surrounding(offers: seq<Offer>, others: seq<Frame>)

  /** What the send of each frame of a response meets, by the number of the frame. */
  type Link = nat -> Surrounding

  ghost predicate ForeignTo(link: Link, id: RequestId) {
    forall k :: Foreign(link(k).others, id)
  }

  /** Every frame finds room before the query is cancelled and before the connection is gone. */
  ghost predicate AlwaysRoom(link: Link) {
    forall k :: Await(link(k).offers) == Accepted
  }

  /** On a connection that was connected, the sink did not take a frame: the query was cancelled,
      or the connection went away. */
  predicate NotTaken(error: SendError, offers: seq<Offer>) {
    || (error == Cancelled && Await(offers) == PolicyFails)
    || (error == Disconnected && Breaks(Await(offers)))
  }

  /** Chunk number `k` was not taken, or there is no number after its own. */
  predicate Refused(error: SendError, k: nat, offers: seq<Offer>) {
    NotTaken(error, offers) || (error == SequenceOverflow && k == U32_MAX)
  }

  // ------------------------------------------------------------------ where a stream stops

  /** The next chunk, if it holds `part`, is longer than a frame may be. */
  predicate TooLong(frames: seq<Frame>, enc: Encoder, frameLimit: nat, part: seq<Row>) {
    !Fits(Frame(ChunkFrame, None, |frames|, enc.chunk(|frames|, part), Rows(part)), frameLimit)
  }

  /** The next chunk, if it holds `part`, fits a frame but leaves no room for the terminal reserve. */
  predicate Overruns(frames: seq<Frame>, enc: Encoder, frameLimit: nat, responseLimit: nat, part: seq<Row>) {
    && !TooLong(frames, enc, frameLimit, part)
    && LineBytes(frames) + enc.chunk(|frames|, part) + 1 + TERMINAL_FRAME_RESERVE_BYTES > responseLimit
  }

  /** Of `rows`, due after the rows `before`, the first `k` have been sent; the next one alone,
      as the chunk with the next number, is too long. */
  ghost predicate StopsAtRow(frames: seq<Frame>, enc: Encoder, frameLimit: nat, before: seq<Row>, rows: seq<Row>) {
    exists k :: 0 <= k < |rows| && RowsOf(frames) == before + rows[..k] && TooLong(frames, enc, frameLimit, [rows[k]])
  }

  /** Of `rows`, due after the rows `before`, the first `k` have been sent; a chunk of the rows
      that follow, with the next number, overruns the budget. */
  ghost predicate StopsAtBudget(frames: seq<Frame>, enc: Encoder, frameLimit: nat, responseLimit: nat, before: seq<Row>,
                                rows: seq<Row>) {
    exists k, m :: 0 <= k < m <= |rows| && RowsOf(frames) == before + rows[..k]
                   && Overruns(frames, enc, frameLimit, responseLimit, rows[k..m])
  }

  /** Why a stream stopped among `rows`. */
  ghost predicate Stops(error: StreamError, frames: seq<Frame>, enc: Encoder, frameLimit: nat, responseLimit: nat,
                        link: Link, before: seq<Row>, rows: seq<Row>) {
    match error
    case Transport(why) => Refused(why, |frames|, link(|frames|).offers)
    case ChunkTooLarge => StopsAtRow(frames, enc, frameLimit, before, rows)
    case ResponseLimit => StopsAtBudget(frames, enc, frameLimit, responseLimit, before, rows)
    case _ => false
  }

  lemma RowStopLifts(frames: seq<Frame>, enc: Encoder, frameLimit: nat, before: seq<Row>, left: seq<Row>,
                     part: seq<Row>, right: seq<Row>)
    requires StopsAtRow(frames, enc, frameLimit, before + left, part)
    ensures StopsAtRow(frames, enc, frameLimit, before, left + part + right)
  {
    var rows := left + part + right;
    var k :| 0 <= k < |part| && RowsOf(frames) == before + left + part[..k]
             && TooLong(frames, enc, frameLimit, [part[k]]);
    var k' := |left| + k;
    assert rows[..k'] == left + part[..k] && rows[k'] == part[k];
    assert before + rows[..k'] == before + left + part[..k];
  }

  lemma SlicesOfPart(left: seq<Row>, part: seq<Row>, right: seq<Row>, k: nat, m: nat)
    requires k <= m <= |part|
    ensures (left + part + right)[..|left| + k] == left + part[..k]
    ensures (left + part + right)[|left| + k..|left| + m] == part[k..m]
  {
  }

  lemma BudgetStopLifts(frames: seq<Frame>, enc: Encoder, frameLimit: nat, responseLimit: nat, before: seq<Row>,
                        left: seq<Row>, part: seq<Row>, right: seq<Row>)
    requires StopsAtBudget(frames, enc, frameLimit, responseLimit, before + left, part)
    ensures StopsAtBudget(frames, enc, frameLimit, responseLimit, before, left + part + right)
  {
    var rows := left + part + right;
    var k, m :| 0 <= k < m <= |part| && RowsOf(frames) == before + left + part[..k]
                && Overruns(frames, enc, frameLimit, responseLimit, part[k..m]);
    var k', m' := |left| + k, |left| + m;
    SlicesOfPart(left, part, right, k, m);
    assert before + rows[..k'] == before + left + part[..k];
  }

  /** A stop within a part of the rows is a stop within all of them. */
  lemma StopLifts(error: StreamError, frames: seq<Frame>, enc: Encoder, frameLimit: nat, responseLimit: nat,
                  link: Link, before: seq<Row>, left: seq<Row>, part: seq<Row>, right: seq<Row>)
    requires Stops(error, frames, enc, frameLimit, responseLimit, link, before + left, part)
    ensures Stops(error, frames, enc, frameLimit, responseLimit, link, before, left + part + right)
  {
    match error
    case ChunkTooLarge => RowStopLifts(frames, enc, frameLimit, before, left, part, right);
    case ResponseLimit => BudgetStopLifts(frames, enc, frameLimit, responseLimit, before, left, part, right);
    case _ =>
  }

  /** Nothing of the rows has been sent, and they are too long together or overrun the budget. */
  lemma StopsAtOnce(error: StreamError, frames: seq<Frame>, enc: Encoder, frameLimit: nat, responseLimit: nat,
                    link: Link, rows: seq<Row>)
    requires rows != []
    requires (error.Transport? && Refused(error.error, |frames|, link(|frames|).offers))
             || (error == ChunkTooLarge && |rows| == 1 && TooLong(frames, enc, frameLimit, rows))
             || (error == ResponseLimit && Overruns(frames, enc, frameLimit, responseLimit, rows))
    ensures Stops(error, frames, enc, frameLimit, responseLimit, link, RowsOf(frames), rows)
  {
    assert RowsOf(frames) == RowsOf(frames) + rows[..0];
    assert rows[0..|rows|] == rows;
    assert |rows| == 1 ==> [rows[0]] == rows;
  }

  lemma BudgetOverruns(frames: seq<Frame>, enc: Encoder, frameLimit: nat, responseLimit: nat, part: seq<Row>,
                       bytes: nat)
    requires !TooLong(frames, enc, frameLimit, part) && bytes == enc.chunk(|frames|, part) + 1
    requires responseLimit <= HARD_MAX_RESPONSE_BYTES
    ensures Overruns(frames, enc, frameLimit, responseLimit, part) <==>
              !WithinBudget(LineBytes(frames), bytes, responseLimit)
  {
  }

  /** All of `rows`, due after the rows `before`, have been sent, or a prefix of them and the next
      chunk says why. */
  ghost predicate SentSome(before: seq<Row>, frames: seq<Frame>, enc: Encoder, frameLimit: nat, responseLimit: nat,
                           link: Link, rows: seq<Row>, r: Result<(), StreamError>)
  {
    if r.Ok? then RowsOf(frames) == before + rows
    else
      && before <= RowsOf(frames) && RowsOf(frames) <= before + rows
      && Stops(r.error, frames, enc, frameLimit, responseLimit, link, before, rows)
  }

  lemma LeftHalfFails(before: seq<Row>, frames: seq<Frame>, enc: Encoder, frameLimit: nat, responseLimit: nat,
                      link: Link, rows: seq<Row>, m: nat, r: Result<(), StreamError>)
    requires m <= |rows| && r.Err? && SentSome(before, frames, enc, frameLimit, responseLimit, link, rows[..m], r)
    ensures SentSome(before, frames, enc, frameLimit, responseLimit, link, rows, r)
  {
    assert before + [] == before && [] + rows[..m] + rows[m..] == rows;
    assert before + rows[..m] <= before + rows;
    StopLifts(r.error, frames, enc, frameLimit, responseLimit, link, before, [], rows[..m], rows[m..]);
  }

  lemma HalvesMakeWhole(before: seq<Row>, rows: seq<Row>, m: nat)
    requires m <= |rows|
    ensures rows[..m] + rows[m..] + [] == rows
    ensures before + rows[..m] + rows[m..] == before + rows && before <= before + rows[..m]
  {
  }

  lemma RightHalfEnds(before: seq<Row>, frames: seq<Frame>, enc: Encoder, frameLimit: nat, responseLimit: nat,
                      link: Link, rows: seq<Row>, m: nat, r: Result<(), StreamError>)
    requires m <= |rows| && SentSome(before + rows[..m], frames, enc, frameLimit, responseLimit, link, rows[m..], r)
    ensures SentSome(before, frames, enc, frameLimit, responseLimit, link, rows, r)
  {
    HalvesMakeWhole(before, rows, m);
    if r.Err? {
      StopLifts(r.error, frames, enc, frameLimit, responseLimit, link, before, rows[..m], rows[m..], []);
    }
  }

  /** The end frame after `frames` that reports the count `c`; its line is `base` bytes long
      without the digits of the count. */
  function EndOf(frames: seq<Frame>, id: RequestId, base: nat, commands: nat, c: nat): Frame
    requires base > 0
  {
    Frame(EndFrame, Some(id), |frames|, base - 1 + Digits(c), Totals(c, |RowsOf(frames)|, commands))
  }

  ghost predicate LeastAbove(prior: nat, base: nat, c: nat, limit: nat) {
    LeastSelfDescribing(prior, base, c) && c > limit
  }

  /** The line of the end frame after `frames`, without the digits of its count. */
  function EndBase(frames: seq<Frame>, enc: Encoder, commands: nat): (base: nat)
    ensures base > 0
  {
    enc.end(|frames|, |RowsOf(frames)|, commands) + 1
  }

  /** Why a response whose rows have all been sent is not finished, if the line of its end frame
      has `base` bytes without the digits of the count. */
  ghost predicate EndFails(error: StreamError, frames: seq<Frame>, id: RequestId, base: nat, commands: nat,
                           frameLimit: nat, responseLimit: nat, link: Link)
    requires base > 0
  {
    var prior := LineBytes(frames);
    match error
    case Transport(why) => NotTaken(why, link(|frames|).offers)
    case CountOverflow => forall c: nat :: SelfDescribing(prior, base, c) ==> c > U64_MAX
    case FrameLimit => exists c: nat ::
        LeastSelfDescribing(prior, base, c) && !Fits(EndOf(frames, id, base, commands, c), frameLimit)
    case ResponseLimit => exists c: nat :: LeastAbove(prior, base, c, responseLimit)
    case ChunkTooLarge => false
  }

  /** The end frame closes the stream and reports the bytes of all its lines, its rows and the
      commands that were read. */
  ghost predicate ClosesExactly(frames: seq<Frame>, end: Frame, enc: Encoder, commands: nat, responseLimit: nat) {
    && end.kind == EndFrame && end.seq_ == |frames|
    && end.payload == Totals(LineBytes(frames + [end]), |RowsOf(frames)|, commands)
    && end.size == enc.end(end.seq_, |RowsOf(frames)|, commands) + Digits(LineBytes(frames + [end]))
    && LineBytes(frames + [end]) <= responseLimit
  }

  lemma EndTooLong(frames: seq<Frame>, id: RequestId, base: nat, commands: nat, frameLimit: nat, responseLimit: nat,
                   link: Link, c: nat)
    requires base > 0
    ensures LeastSelfDescribing(LineBytes(frames), base, c)
            && !Fits(EndOf(frames, id, base, commands, c), frameLimit) ==>
              EndFails(FrameLimit, frames, id, base, commands, frameLimit, responseLimit, link)
  {
  }

  lemma EndOverBudget(frames: seq<Frame>, id: RequestId, base: nat, commands: nat, frameLimit: nat, responseLimit: nat,
                      link: Link, c: nat)
    requires base > 0
    ensures LeastAbove(LineBytes(frames), base, c, responseLimit) ==>
              EndFails(ResponseLimit, frames, id, base, commands, frameLimit, responseLimit, link)
  {
  }

  class StreamOutput {
    const id: RequestId
    const responseLimit: nat
    const frameLimit: nat
    const enc: Encoder
    const link: Link
    const sink: OutputSink
    var nextSeq: nat
    var encodedBytes: nat
    var rows: nat
    /** The frames of this response so far. */
    ghost var frames: seq<Frame>

    ghost predicate Valid()
      reads this, sink, sink.channel
    {
      && sink.Valid() && sink.requestId == id && sink.frameLimit == frameLimit
      && sink.lifecycle == Streaming(nextSeq)
      && Plausible(enc) && ForeignTo(link, id) && responseLimit <= HARD_MAX_RESPONSE_BYTES
      && Accounted(frames, id, enc, frameLimit, responseLimit, nextSeq, encodedBytes, rows)
    }

    constructor (sink: OutputSink, responseLimit: nat, enc: Encoder, link: Link, bytes: nat, ghost frame: Frame)
      requires sink.Valid() && sink.lifecycle == Streaming(1)
      requires frame == Frame(BeginFrame, Some(sink.requestId), 0, enc.begin, Bare) && Fits(frame, sink.frameLimit)
      requires bytes == frame.size + 1
               && bytes + TERMINAL_FRAME_RESERVE_BYTES <= responseLimit <= HARD_MAX_RESPONSE_BYTES
      requires Plausible(enc) && ForeignTo(link, sink.requestId)
      ensures Valid() && this.sink == sink && frames == [frame] && this.responseLimit == responseLimit
              && this.enc == enc && this.link == link
    {
      this.id, this.frameLimit, this.responseLimit, this.enc, this.link, this.sink :=
        sink.requestId, sink.frameLimit, responseLimit, enc, link, sink;
      nextSeq, encodedBytes, rows := 1, bytes, 0;
      frames := [frame];
      new;
      assert frames[..0] == [];
      assert LineBytes([]) == 0 && RowsOf([]) == [];
    }

    /** Hands the next chunk to the sink. */
    method SendNext(f: Frame) returns (r: Result<(), SendError>)
      requires sink.Valid() && sink.requestId == id && sink.lifecycle == Streaming(nextSeq)
      requires f.kind == ChunkFrame && f.id == Some(id) && f.seq_ == nextSeq && Fits(f, sink.frameLimit)
      requires ForeignTo(link, id) && !sink.connection.disconnected
      modifies sink`lifecycle, sink.channel`sent, sink.connection`disconnected, sink.connection`cancelled
      ensures sink.Valid() && sink.lifecycle == Streaming(if r.Ok? then nextSeq + 1 else nextSeq)
      ensures r.Ok? ==> nextSeq < U32_MAX && Only(sink.channel.sent, id) == Only(old(sink.channel.sent), id) + [f]
      ensures r.Ok? ==> !sink.connection.disconnected
      ensures r.Err? ==> Only(sink.channel.sent, id) == Only(old(sink.channel.sent), id)
                         && Refused(r.error, nextSeq, link(nextSeq).offers)
    {
      r := sink.SendFrame(f, link(nextSeq).offers, link(nextSeq).others);
    }

    /** `ResponseFrame::chunk` after its size and budget checks: one chunk is sent and accounted
        for, or nothing changes. */
    method SendChunk(chunk: seq<Row>, bytes: nat) returns (r: Result<(), StreamError>)
      requires Valid() && chunk != [] && !sink.connection.disconnected
      requires FrameBytes(ChunkOf(chunk), frameLimit) == Some(bytes)
      modifies this, sink`lifecycle, sink.channel`sent, sink.connection`disconnected, sink.connection`cancelled
      ensures Valid()
      ensures r.Ok? ==> frames == old(frames) + [old(ChunkOf(chunk))]
                        && Only(sink.channel.sent, id) == Only(old(sink.channel.sent), id) + [old(ChunkOf(chunk))]
      ensures r.Err? ==> frames == old(frames) && Only(sink.channel.sent, id) == Only(old(sink.channel.sent), id)
      ensures r == Err(ResponseLimit) <==> old(Overruns(frames, enc, frameLimit, responseLimit, chunk))
      ensures r.Ok? ==> !sink.connection.disconnected
      ensures r.Err? && r.error.Transport? ==>
                Refused(r.error.error, |old(frames)|, link(|old(frames)|).offers)
      ensures r.Err? ==> r.error.Transport? || r.error == ResponseLimit
    {
      BudgetOverruns(frames, enc, frameLimit, responseLimit, chunk, bytes);
      if !WithinBudget(encodedBytes, bytes, responseLimit) {
        return Err(ResponseLimit);
      }
      var f := ChunkOf(chunk);
      var sent := SendNext(f);
      if sent.Err? {
        return Err(Transport(sent.error));
      }
      // The sequence overflow of the source cannot happen: the sink refused it already.
      assert nextSeq < U32_MAX;
      AccountedGrows(frames, f, id, enc, frameLimit, responseLimit, nextSeq, encodedBytes, rows);
      encodedBytes := encodedBytes + bytes;
      rows := rows + |chunk|;
      nextSeq := nextSeq + 1;
      frames := frames + [f];
      return Ok(());
    }

    function ChunkOf(chunk: seq<Row>): Frame
      reads this
    {
      Frame(ChunkFrame, Some(id), nextSeq, enc.chunk(nextSeq, chunk), Rows(chunk))
    }

    /** `send_rows_split`: a chunk that is too long is halved until every piece fits. On success
        all rows have been sent in order; on failure a prefix of them has, and the next chunk
        says why. */
    method SendRowsSplit(chunk: seq<Row>) returns (r: Result<(), StreamError>)
      requires Valid() && chunk != [] && !sink.connection.disconnected
      modifies this, sink`lifecycle, sink.channel`sent, sink.connection`disconnected, sink.connection`cancelled
      ensures Valid()
      ensures old(frames) <= frames
      ensures Only(sink.channel.sent, id) == Only(old(sink.channel.sent), id) + frames[|old(frames)|..]
      ensures SentSome(RowsOf(old(frames)), frames, enc, frameLimit, responseLimit, link, chunk, r)
      ensures r.Ok? ==> !sink.connection.disconnected
      ensures r.Ok? && !TooLong(old(frames), enc, frameLimit, chunk) ==> frames == old(frames) + [old(ChunkOf(chunk))]
      decreases |chunk|
    {
      var f := ChunkOf(chunk);
      var bytes := FrameBytes(f, frameLimit);
      if bytes.Some? {
        LineBytesAppend(frames, f);
        r := SendChunk(chunk, bytes.value);
        if r.Err? {
          StopsAtOnce(r.error, frames, enc, frameLimit, responseLimit, link, chunk);
        }
        return;
      }
      if |chunk| == 1 {
        StopsAtOnce(ChunkTooLarge, frames, enc, frameLimit, responseLimit, link, chunk);
        return Err(ChunkTooLarge);
      }
      var midpoint := |chunk| / 2;
      ghost var before := RowsOf(frames);
      r := SendRowsSplit(chunk[..midpoint]);
      if r.Err? {
        LeftHalfFails(before, frames, enc, frameLimit, responseLimit, link, chunk, midpoint, r);
        return;
      }
      ghost var between := frames;
      r := SendRowsSplit(chunk[midpoint..]);
      GrowsTwice(Only(old(sink.channel.sent), id), old(frames), between, frames);
      RightHalfEnds(before, frames, enc, frameLimit, responseLimit, link, chunk, midpoint, r);
    }

    method SendRows(chunk: seq<Row>) returns (r: Result<(), StreamError>)
      requires Valid() && !sink.connection.disconnected
      modifies this, sink`lifecycle, sink.channel`sent, sink.connection`disconnected, sink.connection`cancelled
      ensures Valid()
      ensures old(frames) <= frames
      ensures Only(sink.channel.sent, id) == Only(old(sink.channel.sent), id) + frames[|old(frames)|..]
      ensures SentSome(RowsOf(old(frames)), frames, enc, frameLimit, responseLimit, link, chunk, r)
      ensures r.Ok? ==> !sink.connection.disconnected
    {
      if chunk == [] {
        return Ok(());
      }
      r := SendRowsSplit(chunk);
    }

    /** `finish`: the end frame reports the exact number of bytes of the whole response, itself
        included, and that number is within the response limit. */
    method Finish(commands: nat) returns (r: Result<(), StreamError>, ghost end: Frame)
      requires Valid() && !sink.connection.disconnected
      modifies sink`lifecycle, sink.channel`sent, sink.connection`disconnected, sink.connection`cancelled
      ensures Only(sink.channel.sent, id) == Only(old(sink.channel.sent), id) + if r.Ok? then [end] else []
      ensures r.Ok? ==> sink.lifecycle == Terminal && ClosesExactly(frames, end, enc, commands, responseLimit)
                        && Fits(end, frameLimit) && end.id == Some(id)
      ensures r.Err? ==> sink.lifecycle == old(sink.lifecycle)
                         && EndFails(r.error, frames, id, EndBase(frames, enc, commands), commands, frameLimit,
                                     responseLimit, link)
    {
      var base := enc.end(nextSeq, rows, commands);
      assert base + 1 == EndBase(frames, enc, commands);
      end := EndOf(frames, id, base + 1, commands, 0);
      var total := EndSuccess(base + 1, encodedBytes);
      if total.Err? {
        return Err(CountOverflow), end;
      }
      var f := Frame(EndFrame, Some(id), nextSeq, base + Digits(total.value),
                     Totals(total.value, rows, commands));
      end := f;
      assert LeastSelfDescribing(LineBytes(frames), base + 1, total.value);
      var bytes := FrameBytes(f, frameLimit);
      if bytes.None? {
        EndTooLong(frames, id, base + 1, commands, frameLimit, responseLimit, link, total.value);
        return Err(FrameLimit), end;
      }
      if SaturatingAdd(encodedBytes, bytes.value) > responseLimit {
        EndOverBudget(frames, id, base + 1, commands, frameLimit, responseLimit, link, total.value);
        return Err(ResponseLimit), end;
      }
      var sent := sink.SendFrame(f, link(nextSeq).offers, link(nextSeq).others);
      if sent.Err? {
        return Err(Transport(sent.error)), end;
      }
      LineBytesAppend(frames, f);
      return Ok(()), end;
    }
  }

  function BeginOf(id: RequestId, enc: Encoder): Frame {
    Frame(BeginFrame, Some(id), 0, enc.begin, Bare)
  }

  /** Why a response is not even begun. */
  predicate BeginFails(error: StreamError, id: RequestId, enc: Encoder, frameLimit: nat, responseLimit: nat, link: Link,
                       disconnected: bool) {
    match error
    case Transport(why) =>
      if disconnected then why == Cancelled || why == Disconnected else NotTaken(why, link(0).offers)
    case FrameLimit => !Fits(BeginOf(id, enc), frameLimit)
    case ResponseLimit => Fits(BeginOf(id, enc), frameLimit)
        && enc.begin + 1 + TERMINAL_FRAME_RESERVE_BYTES > responseLimit
    case _ => false
  }

  /** `StreamOutput::begin`. */
  method Begin(sink: OutputSink, responseLimit: nat, enc: Encoder, link: Link)
    returns (r: Result<StreamOutput, StreamError>)
    requires sink.Valid() && sink.lifecycle == NotStarted && Plausible(enc) && responseLimit <= HARD_MAX_RESPONSE_BYTES
    requires ForeignTo(link, sink.requestId)
    modifies sink`lifecycle, sink.channel`sent, sink.connection`disconnected, sink.connection`cancelled
    ensures r.Ok? ==>
              && fresh(r.value) && r.value.Valid() && r.value.sink == sink && r.value.enc == enc
              && r.value.responseLimit == responseLimit && r.value.frames == [BeginOf(sink.requestId, enc)]
              && RowsOf(r.value.frames) == [] && r.value.link == link && !sink.connection.disconnected
    ensures Only(sink.channel.sent, sink.requestId) ==
            Only(old(sink.channel.sent), sink.requestId) + if r.Ok? then r.value.frames else []
    ensures r.Err? ==>
              sink.lifecycle == NotStarted
              && BeginFails(r.error, sink.requestId, enc, sink.frameLimit, responseLimit, link,
                            old(sink.connection.disconnected))
    ensures BeginFails(FrameLimit, sink.requestId, enc, sink.frameLimit, responseLimit, link, false) ==>
              r == Err(FrameLimit)
    ensures BeginFails(ResponseLimit, sink.requestId, enc, sink.frameLimit, responseLimit, link, false) ==>
              r == Err(ResponseLimit)
  {
    var f := BeginOf(sink.requestId, enc);
    var bytes := FrameBytes(f, sink.frameLimit);
    if bytes.None? {
      return Err(FrameLimit);
    }
    if !WithinBudget(0, bytes.value, responseLimit) {
      return Err(ResponseLimit);
    }
    var sent := sink.SendFrame(f, link(0).offers, link(0).others);
    if sent.Err? {
      return Err(Transport(sent.error));
    }
    var stream := new StreamOutput(sink, responseLimit, enc, link, bytes.value, f);
    LineBytesAppend([], f);
    assert [] + [f] == [f];
    return Ok(stream);
  }

  function Concat(batches: seq<seq<Row>>): seq<Row> {
    if batches == [] then [] else Concat(batches[..|batches| - 1]) + batches[|batches| - 1]
  }

  lemma {:induction false} ConcatPrefix(batches: seq<seq<Row>>, n: nat)
    requires n <= |batches|
    ensures Concat(batches[..n]) <= Concat(batches)
  {
    if n < |batches| {
      ConcatPrefix(batches[..|batches| - 1], n);
      assert batches[..|batches| - 1][..n] == batches[..n];
    } else {
      assert batches[..n] == batches;
    }
  }

  lemma RowsAround(batches: seq<seq<Row>>, i: nat) returns (later: seq<Row>)
    requires i < |batches|
    ensures Concat(batches) == Concat(batches[..i]) + batches[i] + later
    ensures Concat(batches[..i + 1]) == Concat(batches[..i]) + batches[i] <= Concat(batches)
    ensures [] + Concat(batches[..i]) == Concat(batches[..i])
  {
    ConcatPrefix(batches, i + 1);
    assert batches[..i + 1][..i] == batches[..i];
    later := Concat(batches)[|Concat(batches[..i + 1])|..];
  }

  /** The batches of a dispatcher, one after the other. */
  method SendBatches(stream: StreamOutput, batches: seq<seq<Row>>) returns (r: Result<(), StreamError>)
    requires stream.Valid() && RowsOf(stream.frames) == [] && !stream.sink.connection.disconnected
    modifies stream, stream.sink`lifecycle, stream.sink.channel`sent
    modifies stream.sink.connection`disconnected, stream.sink.connection`cancelled
    ensures stream.Valid()
    ensures old(stream.frames) <= stream.frames
    ensures Only(stream.sink.channel.sent, stream.id) ==
            Only(old(stream.sink.channel.sent), stream.id) + stream.frames[|old(stream.frames)|..]
    ensures r.Ok? ==> RowsOf(stream.frames) == Concat(batches)
    ensures r.Err? ==> RowsOf(stream.frames) <= Concat(batches)
                       && Stops(r.error, stream.frames, stream.enc, stream.frameLimit, stream.responseLimit,
                                stream.link, [], Concat(batches))
    ensures r.Ok? ==> !stream.sink.connection.disconnected
  {
    r := Ok(());
    var i := 0;
    while i < |batches|
      invariant 0 <= i <= |batches| && r.Ok? && !stream.sink.connection.disconnected
      invariant stream.Valid() && old(stream.frames) <= stream.frames
      invariant Only(stream.sink.channel.sent, stream.id) ==
                Only(old(stream.sink.channel.sent), stream.id) + stream.frames[|old(stream.frames)|..]
      invariant RowsOf(stream.frames) == Concat(batches[..i])
    {
      ghost var between := stream.frames;
      r := stream.SendRows(batches[i]);
      GrowsTwice(Only(old(stream.sink.channel.sent), stream.id), old(stream.frames), between, stream.frames);
      ghost var later := RowsAround(batches, i);
      if r.Err? {
        StopLifts(r.error, stream.frames, stream.enc, stream.frameLimit, stream.responseLimit, stream.link,
                  [], Concat(batches[..i]), batches[i], later);
        return;
      }
      i := i + 1;
    }
    assert batches[..i] == batches;
  }

  /** What the frames of one streamed response are, when it succeeded and when it failed. */
  ghost predicate Delivers(response: seq<Frame>, id: RequestId, commands: nat, frameLimit: nat, responseLimit: nat,
                           wanted: seq<Row>, ok: bool) {
    && (forall i | 0 <= i < |response| :: response[i].id == Some(id) && Fits(response[i], frameLimit))
    && (if ok then
          && Complete(response) && RowsOf(response) == wanted
          && response[|response| - 1].payload == Totals(LineBytes(response), |wanted|, commands)
          && LineBytes(response) <= responseLimit
        else (response == [] || Stream(response)) && RowsOf(response) <= wanted)
  }

  lemma ClosedDelivers(frames: seq<Frame>, end: Frame, id: RequestId, enc: Encoder, commands: nat, frameLimit: nat,
                       responseLimit: nat)
    requires Underway(frames, id, enc, frameLimit) && ClosesExactly(frames, end, enc, commands, responseLimit)
    requires end.id == Some(id) && Fits(end, frameLimit)
    ensures Delivers(frames + [end], id, commands, frameLimit, responseLimit, RowsOf(frames), true)
  {
    assert (frames + [end])[..|frames|] == frames;
    LineBytesAppend(frames, end);
  }

  lemma UnfinishedDelivers(frames: seq<Frame>, id: RequestId, enc: Encoder, commands: nat, frameLimit: nat,
                           responseLimit: nat, wanted: seq<Row>)
    requires Underway(frames, id, enc, frameLimit) && RowsOf(frames) <= wanted
    ensures Delivers(frames, id, commands, frameLimit, responseLimit, wanted, false)
  {
  }

  lemma GrowsFromNothing(sent: seq<Frame>, first: seq<Frame>, second: seq<Frame>)
    requires first <= second
    ensures sent + first + second[|first|..] == sent + second
  {
    assert second == first + second[|first|..];
  }

  /** The frames of one request that have been enqueued since `before`. */
  function Response(before: seq<Frame>, now: seq<Frame>, id: RequestId): seq<Frame> {
    if |Only(before, id)| <= |Only(now, id)| then Only(now, id)[|Only(before, id)|..] else []
  }

  lemma ResponseIs(before: seq<Frame>, now: seq<Frame>, id: RequestId, frames: seq<Frame>)
    requires Only(now, id) == Only(before, id) + frames
    ensures Response(before, now, id) == frames && Only(before, id) <= Only(now, id)
  {
  }

  lemma AppendTwice(sent: seq<Frame>, frames: seq<Frame>, end: Frame)
    ensures sent + frames + [end] == sent + (frames + [end])
  {
  }

  /** Why a streamed response failed, by how far it got. */
  ghost predicate FailsAt(error: StreamError, response: seq<Frame>, id: RequestId, enc: Encoder, commands: nat,
                          frameLimit: nat, responseLimit: nat, link: Link, disconnected: bool, wanted: seq<Row>) {
    if response == [] then BeginFails(error, id, enc, frameLimit, responseLimit, link, disconnected)
    else
      || Stops(error, response, enc, frameLimit, responseLimit, link, [], wanted)
      || (RowsOf(response) == wanted
          && EndFails(error, response, id, EndBase(response, enc, commands), commands, frameLimit, responseLimit, link))
  }

  /** What a streamed response is, and why it is not complete. */
  ghost predicate Streamed(response: seq<Frame>, id: RequestId, enc: Encoder, commands: nat, frameLimit: nat,
                           responseLimit: nat, link: Link, disconnected: bool, wanted: seq<Row>,
                           r: Result<(), StreamError>)
  {
    && Delivers(response, id, commands, frameLimit, responseLimit, wanted, r.Ok?)
    && (r.Err? ==> FailsAt(r.error, response, id, enc, commands, frameLimit, responseLimit, link, disconnected, wanted))
  }

  /** On a connection that stays, if every frame finds room, the transport fails only for want of
      another sequence number. */
  lemma RoomLeavesSizes(error: StreamError, response: seq<Frame>, id: RequestId, enc: Encoder, commands: nat,
                        frameLimit: nat, responseLimit: nat, link: Link, wanted: seq<Row>)
    requires FailsAt(error, response, id, enc, commands, frameLimit, responseLimit, link, false, wanted)
    requires error.Transport? && AlwaysRoom(link)
    ensures error.error == SequenceOverflow && |response| == U32_MAX
  {
    assert Await(link(|response|).offers) == Accepted && Await(link(0).offers) == Accepted;
  }

  /** A whole streamed response, as the list and extract requests send it, while other requests
      use the same channel. On success the frames put on the channel for this request are one
      complete response whose chunks carry exactly the given rows in order, every frame within
      the frame limit, and whose end frame reports exactly the bytes of all its lines, at most the
      response limit, the number of rows and that of the commands read. On failure the rows sent are
      a prefix, and the first frame that could not be sent says why. */
  method StreamResponse(sink: OutputSink, responseLimit: nat, enc: Encoder, batches: seq<seq<Row>>, commands: nat,
                        link: Link)
    returns (r: Result<(), StreamError>)
    requires sink.Valid() && sink.lifecycle == NotStarted && Plausible(enc) && responseLimit <= HARD_MAX_RESPONSE_BYTES
    requires ForeignTo(link, sink.requestId)
    modifies sink`lifecycle, sink.channel`sent, sink.connection`disconnected, sink.connection`cancelled
    ensures Only(old(sink.channel.sent), sink.requestId) <= Only(sink.channel.sent, sink.requestId)
    ensures Streamed(Response(old(sink.channel.sent), sink.channel.sent, sink.requestId), sink.requestId, enc, commands,
                     sink.frameLimit, responseLimit, link, old(sink.connection.disconnected), Concat(batches), r)
  {
    ghost var before := sink.channel.sent;
    var begun := Begin(sink, responseLimit, enc, link);
    if begun.Err? {
      ResponseIs(before, sink.channel.sent, sink.requestId, []);
      return Err(begun.error);
    }
    var stream := begun.value;
    ghost var first := stream.frames;
    r := SendBatches(stream, batches);
    GrowsFromNothing(Only(before, sink.requestId), first, stream.frames);
    if r.Err? {
      ResponseIs(before, sink.channel.sent, sink.requestId, stream.frames);
      UnfinishedDelivers(stream.frames, sink.requestId, enc, commands, sink.frameLimit, responseLimit, Concat(batches));
      return;
    }
    ghost var frames, end := stream.frames, first[0];
    r, end := stream.Finish(commands);
    if r.Err? {
      ResponseIs(before, sink.channel.sent, sink.requestId, frames);
      UnfinishedDelivers(frames, sink.requestId, enc, commands, sink.frameLimit, responseLimit, Concat(batches));
    } else {
      AppendTwice(Only(before, sink.requestId), frames, end);
      ResponseIs(before, sink.channel.sent, sink.requestId, frames + [end]);
      ClosedDelivers(frames, end, sink.requestId, enc, commands, sink.frameLimit, responseLimit);
    }
  }
}
