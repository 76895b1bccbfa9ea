/** The bounded accumulator of JSON lines (src/server/protocol.rs). */
module LineAccumulator {
  import opened Wrappers

  type Byte = n: int | 0 <= n < 256
  type Line = seq<Byte>

  const NEWLINE: Byte := 10

  datatype LineError = Poisoned | TooLong | NotUtf8

  /** The bound includes the newline; `utf8` says which byte strings are valid text. */
  datatype Config = Config(maxLineBytes: nat, utf8: Line -> bool)

  datatype Accumulator = Accumulator(buffer: Line, poisoned: bool)

  function Framed(line: Line, rest: Result<(seq<Line>, Line), LineError>): Result<(seq<Line>, Line), LineError> {
    if rest.Err? then rest else Ok(([line] + rest.value.0, rest.value.1))
  }

  /** The lines completed by `bytes` and what stays buffered, or the first error. */
  function Fed(buffer: Line, bytes: seq<Byte>, cfg: Config): Result<(seq<Line>, Line), LineError>
    decreases |bytes|
  {
    if bytes == [] then Ok(([], buffer))
    else if bytes[0] == NEWLINE then
      if |buffer| + 1 > cfg.maxLineBytes then Err(TooLong)
      else if !cfg.utf8(buffer) then Err(NotUtf8)
      else Framed(buffer, Fed([], bytes[1..], cfg))
    else if |buffer| + 1 >= cfg.maxLineBytes then Err(TooLong)
    else Fed(buffer + [bytes[0]], bytes[1..], cfg)
  }

  function Pushed(acc: Accumulator, bytes: seq<Byte>, cfg: Config): (Accumulator, Result<seq<Line>, LineError>) {
    if acc.poisoned then (acc, Err(Poisoned))
    else
      match Fed(acc.buffer, bytes, cfg)
      case Ok((frames, buffer)) => (Accumulator(buffer, false), Ok(frames))
      case Err(error) => (Accumulator([], true), Err(error))
  }

  /** Between pushes the buffer leaves room for its newline. */
  predicate Bounded(acc: Accumulator, cfg: Config) {
    cfg.maxLineBytes > 0 && |acc.buffer| < cfg.maxLineBytes && NEWLINE !in acc.buffer
  }

  function Prefixed(lines: seq<Line>, rest: Result<(seq<Line>, Line), LineError>):
      Result<(seq<Line>, Line), LineError>
  {
    if rest.Err? then rest else Ok((lines + rest.value.0, rest.value.1))
  }

  lemma Appended(lines: seq<Line>, line: Line, rest: Result<(seq<Line>, Line), LineError>)
    ensures Prefixed(lines, Framed(line, rest)) == Prefixed(lines + [line], rest)
    ensures Prefixed([], rest) == rest
  {
    if rest.Ok? {
      assert lines + ([line] + rest.value.0) == lines + [line] + rest.value.0;
      assert [] + rest.value.0 == rest.value.0;
    }
  }

  class JsonLineAccumulator {
    var buffer: Line
    var poisoned: bool
    const cfg: Config

    constructor (cfg: Config)
      requires cfg.maxLineBytes > 0
      ensures this.cfg == cfg && Value() == Accumulator([], false) && Bounded(Value(), cfg)
    {
      this.cfg, buffer, poisoned := cfg, [], false;
    }

    function Value(): Accumulator
      reads this
    {
      Accumulator(buffer, poisoned)
    }

    method Push(bytes: seq<Byte>) returns (r: Result<seq<Line>, LineError>)
      requires Bounded(Value(), cfg)
      modifies this
      ensures (Value(), r) == Pushed(old(Value()), bytes, cfg)
      ensures Bounded(Value(), cfg)
    {
      if poisoned {
        return Err(Poisoned);
      }
      var frames: seq<Line> := [];
      Appended([], [], Fed(buffer, bytes, cfg));
      assert bytes[0..] == bytes;
      for k := 0 to |bytes|
        invariant !poisoned && Bounded(Value(), cfg)
        invariant Prefixed(frames, Fed(buffer, bytes[k..], cfg)) == Fed(old(buffer), bytes, cfg)
      {
        var byte := bytes[k];
        assert bytes[k..][1..] == bytes[k + 1..];
        if byte == NEWLINE {
          if |buffer| + 1 > cfg.maxLineBytes {
            // The source would poison here; the buffer always leaves room for a newline.
            assert false;
          }
          var frame := buffer;
          buffer := [];
          if !cfg.utf8(frame) {
            poisoned := true;
            return Err(NotUtf8);
          }
          Appended(frames, frame, Fed([], bytes[k + 1..], cfg));
          frames := frames + [frame];
        } else {
          if |buffer| >= cfg.maxLineBytes - 1 {
            r := Poison();
            return;
          }
          buffer := buffer + [byte];
        }
      }
      assert bytes[|bytes|..] == [] && frames + [] == frames;
      return Ok(frames);
    }

    method Poison() returns (r: Result<seq<Line>, LineError>)
      modifies this
      ensures Value() == Accumulator([], true) && r == Err(TooLong)
    {
      buffer, poisoned := [], true;
      return Err(TooLong);
    }
  }

  // ------------------------------------------------------------------ lines of the input

  /** Cutting bytes at newlines: the finished lines and the rest. */
  function Split(bytes: seq<Byte>): (seq<Line>, Line) {
    if bytes == [] then ([], [])
    else
      var (lines, rest) := Split(bytes[..|bytes| - 1]);
      if bytes[|bytes| - 1] == NEWLINE then (lines + [rest], []) else (lines, rest + [bytes[|bytes| - 1]])
  }

  function Joined(lines: seq<Line>, rest: Line): seq<Byte> {
    if lines == [] then rest else lines[0] + [NEWLINE] + Joined(lines[1..], rest)
  }

  predicate Acceptable(line: Line, cfg: Config) {
    |line| < cfg.maxLineBytes && cfg.utf8(line)
  }

  ghost predicate AllAcceptable(lines: seq<Line>, rest: Line, cfg: Config) {
    (forall i | 0 <= i < |lines| :: Acceptable(lines[i], cfg)) && |rest| < cfg.maxLineBytes
  }

  /** Joining the output lines and what stays buffered gives back the input. */
  lemma {:induction false} OutputRebuildsInput(buffer: Line, bytes: seq<Byte>, cfg: Config)
    requires Fed(buffer, bytes, cfg).Ok?
    ensures Joined(Fed(buffer, bytes, cfg).value.0, Fed(buffer, bytes, cfg).value.1) == buffer + bytes
    decreases |bytes|
  {
    if bytes == [] {
    } else {
      if bytes[0] == NEWLINE {
        OutputRebuildsInput([], bytes[1..], cfg);
        var (lines, rest) := Fed([], bytes[1..], cfg).value;
        assert ([buffer] + lines)[1..] == lines;
        assert buffer + [NEWLINE] + ([] + bytes[1..]) == buffer + bytes;
      } else {
        OutputRebuildsInput(buffer + [bytes[0]], bytes[1..], cfg);
        assert buffer + [bytes[0]] + bytes[1..] == buffer + bytes;
      }
    }
  }

  lemma {:induction false} SplitLine(line: Line)
    requires NEWLINE !in line
    ensures Split(line) == ([], line)
  {
    if line == [] {
    } else {
      assert line[|line| - 1] in line && line == line[..|line| - 1] + [line[|line| - 1]];
      SplitLine(line[..|line| - 1]);
    }
  }

  /** A newline-free line and a newline in front of the bytes are one more line. */
  lemma {:induction false} SplitAfterLine(line: Line, bytes: seq<Byte>)
    requires NEWLINE !in line
    ensures Split(line + [NEWLINE] + bytes) == ([line] + Split(bytes).0, Split(bytes).1)
  {
    var all := line + [NEWLINE] + bytes;
    if bytes == [] {
      assert all[..|all| - 1] == line && all[|all| - 1] == NEWLINE;
      SplitLine(line);
      assert [] + [line] == [line] + [];
    } else {
      assert all[..|all| - 1] == line + [NEWLINE] + bytes[..|bytes| - 1];
      SplitAfterLine(line, bytes[..|bytes| - 1]);
      var (lines, rest) := Split(bytes[..|bytes| - 1]);
      assert [line] + lines + [rest] == [line] + (lines + [rest]);
    }
  }

  lemma {:induction false} RestOfLongLine(line: Line, bytes: seq<Byte>)
    requires NEWLINE !in line
    ensures var (lines, rest) := Split(line + bytes); lines == [] ==> |rest| >= |line|
    ensures var (lines, rest) := Split(line + bytes); lines != [] ==> |lines[0]| >= |line|
  {
    if bytes == [] {
      assert line + bytes == line;
      SplitLine(line);
    } else {
      var all := line + bytes;
      assert all[..|all| - 1] == line + bytes[..|bytes| - 1];
      RestOfLongLine(line, bytes[..|bytes| - 1]);
    }
  }

  lemma AcceptableCons(line: Line, lines: seq<Line>, rest: Line, cfg: Config)
    ensures AllAcceptable([line] + lines, rest, cfg) <==> Acceptable(line, cfg) && AllAcceptable(lines, rest, cfg)
  {
    var all := [line] + lines;
    if AllAcceptable(all, rest, cfg) {
      assert all[0] == line;
      forall i | 0 <= i < |lines| ensures Acceptable(lines[i], cfg) {
        assert all[i + 1] == lines[i];
      }
    }
  }

  /** A push succeeds exactly when every line of the buffered and the new bytes together fits the
      bound and is valid text and the unfinished rest leaves room for a newline; it returns just
      those lines and buffers just that rest. */
  lemma {:induction false} PushIsSplit(buffer: Line, bytes: seq<Byte>, cfg: Config)
    requires Bounded(Accumulator(buffer, false), cfg)
    ensures var (lines, rest) := Split(buffer + bytes);
            && (Fed(buffer, bytes, cfg).Ok? <==> AllAcceptable(lines, rest, cfg))
            && (Fed(buffer, bytes, cfg).Ok? ==> Fed(buffer, bytes, cfg).value == (lines, rest))
    decreases |bytes|
  {
    if bytes == [] {
      assert buffer + bytes == buffer;
      SplitLine(buffer);
    } else if bytes[0] == NEWLINE {
      assert buffer + bytes == buffer + [NEWLINE] + bytes[1..];
      SplitAfterLine(buffer, bytes[1..]);
      assert [] + bytes[1..] == bytes[1..];
      PushIsSplit([], bytes[1..], cfg);
      AcceptableCons(buffer, Split(bytes[1..]).0, Split(bytes[1..]).1, cfg);
    } else {
      assert buffer + bytes == (buffer + [bytes[0]]) + bytes[1..];
      if |buffer| + 1 < cfg.maxLineBytes {
        PushIsSplit(buffer + [bytes[0]], bytes[1..], cfg);
      } else {
        RestOfLongLine(buffer + [bytes[0]], bytes[1..]);
      }
    }
  }

  /** The first fault of some lines and a rest, in input order. */
  function FirstFault(lines: seq<Line>, rest: Line, cfg: Config): Option<LineError> {
    if lines == [] then (if |rest| >= cfg.maxLineBytes then Some(TooLong) else None)
    else if |lines[0]| >= cfg.maxLineBytes then Some(TooLong)
    else if !cfg.utf8(lines[0]) then Some(NotUtf8)
    else FirstFault(lines[1..], rest, cfg)
  }

  lemma LongLineIsFault(line: Line, bytes: seq<Byte>, cfg: Config)
    requires NEWLINE !in line && |line| >= cfg.maxLineBytes
    ensures FirstFault(Split(line + bytes).0, Split(line + bytes).1, cfg) == Some(TooLong)
  {
    RestOfLongLine(line, bytes);
  }

  /** A push that fails reports the first line that is too long or not valid text. */
  lemma {:induction false} ErrorIsFirstFault(buffer: Line, bytes: seq<Byte>, cfg: Config)
    requires Bounded(Accumulator(buffer, false), cfg)
    ensures var fault := FirstFault(Split(buffer + bytes).0, Split(buffer + bytes).1, cfg);
            match Fed(buffer, bytes, cfg) case Ok(_) => fault == None case Err(error) => fault == Some(error)
    decreases |bytes|
  {
    if bytes == [] {
      assert buffer + bytes == buffer;
      SplitLine(buffer);
    } else if bytes[0] == NEWLINE {
      assert buffer + bytes == buffer + [NEWLINE] + bytes[1..];
      SplitAfterLine(buffer, bytes[1..]);
      assert [] + bytes[1..] == bytes[1..];
      ErrorIsFirstFault([], bytes[1..], cfg);
      assert ([buffer] + Split(bytes[1..]).0)[1..] == Split(bytes[1..]).0;
    } else {
      assert buffer + bytes == (buffer + [bytes[0]]) + bytes[1..];
      if |buffer| + 1 < cfg.maxLineBytes {
        ErrorIsFirstFault(buffer + [bytes[0]], bytes[1..], cfg);
      } else {
        LongLineIsFault(buffer + [bytes[0]], bytes[1..], cfg);
      }
    }
  }

  // ------------------------------------------------------------------ chunking

  /** One push after another, up to the first error. */
  function PushAll(acc: Accumulator, chunks: seq<seq<Byte>>, cfg: Config): (Accumulator, Result<seq<Line>, LineError>)
    decreases |chunks|
  {
    if chunks == [] then (acc, Ok([]))
    else
      var (acc', first) := Pushed(acc, chunks[0], cfg);
      if first.Err? then (acc', first)
      else
        var (last, rest) := PushAll(acc', chunks[1..], cfg);
        (last, if rest.Err? then rest else Ok(first.value + rest.value))
  }

  function Concat(chunks: seq<seq<Byte>>): seq<Byte> {
    if chunks == [] then [] else chunks[0] + Concat(chunks[1..])
  }

  lemma FramedThenPrefixed(line: Line, lines: seq<Line>, rest: Result<(seq<Line>, Line), LineError>)
    ensures Framed(line, Prefixed(lines, rest)) == Prefixed([line] + lines, rest)
  {
    if rest.Ok? {
      assert [line] + (lines + rest.value.0) == [line] + lines + rest.value.0;
    }
  }

  lemma {:induction false} FedConcat(buffer: Line, a: seq<Byte>, b: seq<Byte>, cfg: Config)
    ensures Fed(buffer, a + b, cfg) ==
            match Fed(buffer, a, cfg)
            case Err(error) => Err(error)
            case Ok((lines, rest)) => Prefixed(lines, Fed(rest, b, cfg))
    decreases |a|
  {
    if a == [] {
      assert a + b == b;
      Appended([], [], Fed(buffer, b, cfg));
    } else {
      assert (a + b)[1..] == a[1..] + b;
      if a[0] == NEWLINE {
        FedConcat([], a[1..], b, cfg);
        if Fed([], a[1..], cfg).Ok? {
          FramedThenPrefixed(buffer, Fed([], a[1..], cfg).value.0, Fed(Fed([], a[1..], cfg).value.1, b, cfg));
        }
      } else {
        FedConcat(buffer + [a[0]], a[1..], b, cfg);
      }
    }
  }

  /** However the input is cut into chunks, the lines, the final state and the error are those of
      one push of the whole. */
  lemma {:induction false} ChunkingInvariant(acc: Accumulator, chunks: seq<seq<Byte>>, cfg: Config)
    requires !acc.poisoned
    ensures PushAll(acc, chunks, cfg) == Pushed(acc, Concat(chunks), cfg)
    decreases |chunks|
  {
    if chunks == [] {
    } else {
      FedConcat(acc.buffer, chunks[0], Concat(chunks[1..]), cfg);
      var (acc', first) := Pushed(acc, chunks[0], cfg);
      if first.Ok? {
        ChunkingInvariant(acc', chunks[1..], cfg);
      }
    }
  }

  /** After an error every push fails and changes nothing. */
  lemma ErrorsPoison(acc: Accumulator, bytes: seq<Byte>, more: seq<Byte>, cfg: Config)
    requires Pushed(acc, bytes, cfg).1.Err?
    ensures Pushed(Pushed(acc, bytes, cfg).0, more, cfg) == (Pushed(acc, bytes, cfg).0, Err(Poisoned))
  {
  }
}
