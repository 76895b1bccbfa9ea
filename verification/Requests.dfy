/** Decoding and encoding of requests (src/server/protocol.rs). */
module Requests {
  import opened Wrappers
  import opened Words
  import opened Decimals
  import opened Utf8

  const MAX_REQUEST_ID_BYTES: nat := 128
  const TERMINAL_FRAME_RESERVE_BYTES: nat := 4096
  const PROTOCOL_VERSION: nat := 1

  /** The object keys of the protocol; every other key is `Other`. */
  datatype Field =
    | FILTER | MAX_ROWS | MAX_RESPONSE_BYTES | MAX_COMMANDS | TIMEOUT_MS | SIGNALS | START | END
    | SIGNAL | VALUE | OCCURRENCE | REQUEST_ID | VERSION | ID | METHOD | PARAMS
    | Other(name: string)

  datatype Value =
    | Null
    | Bool(b: bool)
    | Number(n: int)
    | Text(text: string)
    | Array(items: seq<Value>)
    | Object(fields: Params)

  type Params = map<Field, Value>
  type Limit = Option<nat>

  datatype Method =
    | Ping
    | Describe
    | List(filter: Option<string>, maxRows: Limit, maxResponseBytes: Limit, timeoutMs: Limit)
    | Metadata(timeoutMs: Limit, maxCommands: Limit)
    | Extract(signals: seq<string>, start: Limit, end: Limit, maxRows: Limit, maxResponseBytes: Limit,
              maxCommands: Limit, timeoutMs: Limit)
    | Find(signal: string, value: string, occurrence: nat, start: Limit, end: Limit, maxCommands: Limit,
           maxResponseBytes: Limit, timeoutMs: Limit)
    | Toggles(signals: seq<string>, start: Limit, end: Limit, maxCommands: Limit, maxResponseBytes: Limit,
              timeoutMs: Limit)
    | Cancel(requestId: string)

  datatype Request = Request(id: string, method_: Method)

  datatype Problem =
    | NotAnObject | Missing(field: Field) | WrongType(field: Field) | BadDecimal(field: Field, why: DecimalError)
    | UnknownParameter | EmptySignal | EmptySignals | SmallResponseLimit | BadRequestId
    | InvalidOccurrence | InvalidWindow | UnknownMethod(name: string) | UnsupportedVersion | DuplicateId(id: string)

  // ------------------------------------------------------------------ validation

  predicate ValidRequestId(id: string) {
    id != "" && Utf8Bytes(id) <= MAX_REQUEST_ID_BYTES
  }

  predicate ValidSignals(signals: seq<string>) {
    signals != [] && forall i | 0 <= i < |signals| :: signals[i] != ""
  }

  predicate ValidWindow(start: Limit, end: Limit) {
    start.Some? && end.Some? ==> start.value <= end.value
  }

  predicate ValidResponseLimit(limit: Limit) {
    limit.Some? ==> limit.value >= TERMINAL_FRAME_RESERVE_BYTES
  }

  function Check(ok: bool, problem: Problem): (r: Result<(), Problem>)
    ensures r.Ok? <==> ok
  {
    if ok then Ok(()) else Err(problem)
  }

  // ------------------------------------------------------------------ one field

  function RequiredOf(params: Params, field: Field): Result<Value, Problem> {
    if field in params then Ok(params[field]) else Err(Missing(field))
  }

  function TextOf(params: Params, field: Field): Result<string, Problem> {
    var value :- RequiredOf(params, field);
    if value.Text? then Ok(value.text) else Err(WrongType(field))
  }

  function OptionalTextOf(params: Params, field: Field): Result<Option<string>, Problem> {
    if field !in params then Ok(None)
    else if params[field].Text? then Ok(Some(params[field].text)) else Err(WrongType(field))
  }

  function OptionalDecimalOf(params: Params, field: Field): Result<Limit, Problem> {
    if field !in params then Ok(None)
    else if !params[field].Text? then Err(WrongType(field))
    else
      match Parse(params[field].text)
      case Ok(n) => Ok(Some(n))
      case Err(why) => Err(BadDecimal(field, why))
  }

  function Texts(items: seq<Value>, field: Field): Result<seq<string>, Problem> {
    if items == [] then Ok([])
    else
      var init :- Texts(items[..|items| - 1], field);
      if items[|items| - 1].Text? then Ok(init + [items[|items| - 1].text]) else Err(WrongType(field))
  }

  function TextsOf(params: Params, field: Field): Result<seq<string>, Problem> {
    var value :- RequiredOf(params, field);
    if value.Array? then Texts(value.items, field) else Err(WrongType(field))
  }

  // ------------------------------------------------------------------ one method

  /** No other fields than the given ones. */
  function Only(params: Params, known: set<Field>): Result<(), Problem> {
    Check(params.Keys <= known, UnknownParameter)
  }

  function WindowOf(params: Params): Result<(Limit, Limit), Problem> {
    var start :- OptionalDecimalOf(params, START);
    var end :- OptionalDecimalOf(params, END);
    Ok((start, end))
  }

  function ParsedList(params: Params): Result<Method, Problem> {
    var filter :- OptionalTextOf(params, FILTER);
    var maxRows :- OptionalDecimalOf(params, MAX_ROWS);
    var maxResponseBytes :- OptionalDecimalOf(params, MAX_RESPONSE_BYTES);
    var timeoutMs :- OptionalDecimalOf(params, TIMEOUT_MS);
    var _ :- Only(params, {FILTER, MAX_ROWS, MAX_RESPONSE_BYTES, TIMEOUT_MS});
    var _ :- Check(ValidResponseLimit(maxResponseBytes), SmallResponseLimit);
    Ok(List(filter, maxRows, maxResponseBytes, timeoutMs))
  }

  function ParsedMetadata(params: Params): Result<Method, Problem> {
    var timeoutMs :- OptionalDecimalOf(params, TIMEOUT_MS);
    var maxCommands :- OptionalDecimalOf(params, MAX_COMMANDS);
    var _ :- Only(params, {TIMEOUT_MS, MAX_COMMANDS});
    Ok(Metadata(timeoutMs, maxCommands))
  }

  function ParsedExtract(params: Params): Result<Method, Problem> {
    var signals :- TextsOf(params, SIGNALS);
    var _ :- Check(ValidSignals(signals), EmptySignals);
    var window :- WindowOf(params);
    var (start, end) := window;
    var maxRows :- OptionalDecimalOf(params, MAX_ROWS);
    var maxResponseBytes :- OptionalDecimalOf(params, MAX_RESPONSE_BYTES);
    var maxCommands :- OptionalDecimalOf(params, MAX_COMMANDS);
    var timeoutMs :- OptionalDecimalOf(params, TIMEOUT_MS);
    var _ :- Only(params, {SIGNALS, START, END, MAX_ROWS, MAX_RESPONSE_BYTES, MAX_COMMANDS, TIMEOUT_MS});
    var _ :- Check(ValidWindow(start, end), InvalidWindow);
    var _ :- Check(ValidResponseLimit(maxResponseBytes), SmallResponseLimit);
    Ok(Extract(signals, start, end, maxRows, maxResponseBytes, maxCommands, timeoutMs))
  }

  /** A missing occurrence is the first. */
  function OccurrenceOf(given: Limit): nat {
    if given.None? then 1 else given.value
  }

  /** The parameters of `find` after the signal and the occurrence. */
  function ParsedFindRest(params: Params, signal: string, occurrence: nat): Result<Method, Problem> {
    var value :- TextOf(params, VALUE);
    var window :- WindowOf(params);
    var (start, end) := window;
    var maxCommands :- OptionalDecimalOf(params, MAX_COMMANDS);
    var maxResponseBytes :- OptionalDecimalOf(params, MAX_RESPONSE_BYTES);
    var timeoutMs :- OptionalDecimalOf(params, TIMEOUT_MS);
    var _ :- Only(params, {SIGNAL, OCCURRENCE, VALUE, START, END, MAX_COMMANDS, MAX_RESPONSE_BYTES, TIMEOUT_MS});
    var _ :- Check(ValidWindow(start, end), InvalidWindow);
    var _ :- Check(ValidResponseLimit(maxResponseBytes), SmallResponseLimit);
    Ok(Find(signal, value, occurrence, start, end, maxCommands, maxResponseBytes, timeoutMs))
  }

  function ParsedFind(params: Params): Result<Method, Problem> {
    var signal :- TextOf(params, SIGNAL);
    var _ :- Check(signal != "", EmptySignal);
    var given :- OptionalDecimalOf(params, OCCURRENCE);
    var occurrence := OccurrenceOf(given);
    var _ :- Check(occurrence > 0, InvalidOccurrence);
    ParsedFindRest(params, signal, occurrence)
  }

  function ParsedToggles(params: Params): Result<Method, Problem> {
    var signals :- TextsOf(params, SIGNALS);
    var _ :- Check(ValidSignals(signals), EmptySignals);
    var window :- WindowOf(params);
    var (start, end) := window;
    var maxCommands :- OptionalDecimalOf(params, MAX_COMMANDS);
    var maxResponseBytes :- OptionalDecimalOf(params, MAX_RESPONSE_BYTES);
    var timeoutMs :- OptionalDecimalOf(params, TIMEOUT_MS);
    var _ :- Only(params, {SIGNALS, START, END, MAX_COMMANDS, MAX_RESPONSE_BYTES, TIMEOUT_MS});
    var _ :- Check(ValidWindow(start, end), InvalidWindow);
    var _ :- Check(ValidResponseLimit(maxResponseBytes), SmallResponseLimit);
    Ok(Toggles(signals, start, end, maxCommands, maxResponseBytes, timeoutMs))
  }

  function ParsedCancel(params: Params): Result<Method, Problem> {
    var requestId :- TextOf(params, REQUEST_ID);
    var _ :- Check(ValidRequestId(requestId), BadRequestId);
    var _ :- Only(params, {REQUEST_ID});
    Ok(Cancel(requestId))
  }

  function Bare(params: Params, m: Method): Result<Method, Problem> {
    var _ :- Only(params, {});
    Ok(m)
  }

  /** `parse_method` as lookups in the parameter map as received. */
  function Parsed(name: string, params: Params): Result<Method, Problem> {
    if name == "ping" then Bare(params, Ping)
    else if name == "describe" then Bare(params, Describe)
    else if name == "list" then ParsedList(params)
    else if name == "metadata" then ParsedMetadata(params)
    else if name == "extract" then ParsedExtract(params)
    else if name == "find" then ParsedFind(params)
    else if name == "toggles" then ParsedToggles(params)
    else if name == "cancel" then ParsedCancel(params)
    else Err(UnknownMethod(name))
  }

  // ------------------------------------------------------------------ the decoder in place

  /** The parameter map; every field that is read is removed, so that what is left is unknown. */
  class ParamMap {
    var fields: Params
    ghost var taken: set<Field>
    ghost const original: Params

    constructor (fields: Params)
      ensures Holds(fields, {})
    {
      this.fields, this.original, this.taken := fields, fields, {};
    }

    /** What is left of a map after some of its fields have been read. */
    ghost predicate Holds(all: Params, gone: set<Field>)
      reads this
    {
      original == all && taken == gone && fields == all - gone
    }

    method TakeRequired(field: Field) returns (r: Result<Value, Problem>)
      requires Holds(original, taken) && field !in taken
      modifies this
      ensures r == RequiredOf(original, field) && Holds(original, old(taken) + {field})
    {
      r := if field in fields then Ok(fields[field]) else Err(Missing(field));
      fields, taken := fields - {field}, taken + {field};
    }

    method TakeString(field: Field) returns (r: Result<string, Problem>)
      requires Holds(original, taken) && field !in taken
      modifies this
      ensures r == TextOf(original, field) && Holds(original, old(taken) + {field})
    {
      var value := TakeRequired(field);
      return if value.Err? then Err(value.error)
          else if value.value.Text? then Ok(value.value.text) else Err(WrongType(field));
    }

    method TakeOptionalString(field: Field) returns (r: Result<Option<string>, Problem>)
      requires Holds(original, taken) && field !in taken
      modifies this
      ensures r == OptionalTextOf(original, field) && Holds(original, old(taken) + {field})
    {
      r := if field !in fields then Ok(None)
           else if fields[field].Text? then Ok(Some(fields[field].text)) else Err(WrongType(field));
      fields, taken := fields - {field}, taken + {field};
    }

    method TakeOptionalDecimal(field: Field) returns (r: Result<Limit, Problem>)
      requires Holds(original, taken) && field !in taken
      modifies this
      ensures r == OptionalDecimalOf(original, field) && Holds(original, old(taken) + {field})
    {
      r := OptionalDecimalOf(fields, field);
      fields, taken := fields - {field}, taken + {field};
    }

    method TakeRequiredStrings(field: Field) returns (r: Result<seq<string>, Problem>)
      requires Holds(original, taken) && field !in taken
      modifies this
      ensures r == TextsOf(original, field) && Holds(original, old(taken) + {field})
    {
      var value := TakeRequired(field);
      return if value.Err? then Err(value.error)
          else if value.value.Array? then Texts(value.value.items, field) else Err(WrongType(field));
    }

    method TakeWindow() returns (r: Result<(Limit, Limit), Problem>)
      requires Holds(original, taken) && START !in taken && END !in taken
      modifies this
      ensures r == WindowOf(original)
      ensures r.Ok? ==> Holds(original, old(taken) + {START, END})
    {
      var start :- TakeOptionalDecimal(START);
      var end :- TakeOptionalDecimal(END);
      assert taken == old(taken) + {START, END};
      return Ok((start, end));
    }

    method RejectUnknown() returns (r: Result<(), Problem>)
      requires Holds(original, taken)
      ensures r == Only(original, taken)
    {
      assert fields == map[] <==> original.Keys <= taken by {
        if original.Keys <= taken {
          assert fields.Keys == {};
        } else {
          var field :| field in original.Keys && field !in taken;
          assert field in fields;
        }
      }
      return if fields == map[] then Ok(()) else Err(UnknownParameter);
    }

    method ParseList() returns (r: Result<Method, Problem>)
      requires Holds(original, {})
      modifies this
      ensures r == ParsedList(original)
    {
      var filter :- TakeOptionalString(FILTER);
      var maxRows :- TakeOptionalDecimal(MAX_ROWS);
      var maxResponseBytes :- TakeOptionalDecimal(MAX_RESPONSE_BYTES);
      var timeoutMs :- TakeOptionalDecimal(TIMEOUT_MS);
      assert taken == {FILTER, MAX_ROWS, MAX_RESPONSE_BYTES, TIMEOUT_MS};
      var _ :- RejectUnknown();
      if !ValidResponseLimit(maxResponseBytes) {
        return Err(SmallResponseLimit);
      }
      return Ok(List(filter, maxRows, maxResponseBytes, timeoutMs));
    }

    method ParseMetadata() returns (r: Result<Method, Problem>)
      requires Holds(original, {})
      modifies this
      ensures r == ParsedMetadata(original)
    {
      var timeoutMs :- TakeOptionalDecimal(TIMEOUT_MS);
      var maxCommands :- TakeOptionalDecimal(MAX_COMMANDS);
      assert taken == {TIMEOUT_MS, MAX_COMMANDS};
      var _ :- RejectUnknown();
      return Ok(Metadata(timeoutMs, maxCommands));
    }

    method ParseExtract() returns (r: Result<Method, Problem>)
      requires Holds(original, {})
      modifies this
      ensures r == ParsedExtract(original)
    {
      var signals :- TakeRequiredStrings(SIGNALS);
      if !ValidSignals(signals) {
        return Err(EmptySignals);
      }
      var window :- TakeWindow();
      assert taken == {SIGNALS, START, END};
      var (start, end) := window;
      var maxRows :- TakeOptionalDecimal(MAX_ROWS);
      assert taken == {SIGNALS, START, END, MAX_ROWS};
      var maxResponseBytes :- TakeOptionalDecimal(MAX_RESPONSE_BYTES);
      assert taken == {SIGNALS, START, END, MAX_ROWS, MAX_RESPONSE_BYTES};
      var maxCommands :- TakeOptionalDecimal(MAX_COMMANDS);
      var timeoutMs :- TakeOptionalDecimal(TIMEOUT_MS);
      assert taken == {SIGNALS, START, END, MAX_ROWS, MAX_RESPONSE_BYTES, MAX_COMMANDS, TIMEOUT_MS};
      var _ :- RejectUnknown();
      if !ValidWindow(start, end) {
        return Err(InvalidWindow);
      }
      if !ValidResponseLimit(maxResponseBytes) {
        return Err(SmallResponseLimit);
      }
      return Ok(Extract(signals, start, end, maxRows, maxResponseBytes, maxCommands, timeoutMs));
    }

    method ParseFind() returns (r: Result<Method, Problem>)
      requires Holds(original, {})
      modifies this
      ensures r == ParsedFind(original)
    {
      var signal :- TakeString(SIGNAL);
      if signal == "" {
        return Err(EmptySignal);
      }
      var given :- TakeOptionalDecimal(OCCURRENCE);
      var occurrence := OccurrenceOf(given);
      if occurrence == 0 {
        return Err(InvalidOccurrence);
      }
      assert taken == {SIGNAL, OCCURRENCE};
      r := ParseFindRest(signal, occurrence);
    }

    method ParseFindRest(signal: string, occurrence: nat) returns (r: Result<Method, Problem>)
      requires Holds(original, {SIGNAL, OCCURRENCE})
      modifies this
      ensures r == ParsedFindRest(original, signal, occurrence)
    {
      var value :- TakeString(VALUE);
      assert taken == {SIGNAL, OCCURRENCE, VALUE};
      var window :- TakeWindow();
      var (start, end) := window;
      var maxCommands :- TakeOptionalDecimal(MAX_COMMANDS);
      assert taken == {SIGNAL, OCCURRENCE, VALUE, START, END, MAX_COMMANDS};
      var maxResponseBytes :- TakeOptionalDecimal(MAX_RESPONSE_BYTES);
      var timeoutMs :- TakeOptionalDecimal(TIMEOUT_MS);
      assert taken == {SIGNAL, OCCURRENCE, VALUE, START, END, MAX_COMMANDS, MAX_RESPONSE_BYTES, TIMEOUT_MS};
      var _ :- RejectUnknown();
      if !ValidWindow(start, end) {
        return Err(InvalidWindow);
      }
      if !ValidResponseLimit(maxResponseBytes) {
        return Err(SmallResponseLimit);
      }
      return Ok(Find(signal, value, occurrence, start, end, maxCommands, maxResponseBytes, timeoutMs));
    }

    method ParseToggles() returns (r: Result<Method, Problem>)
      requires Holds(original, {})
      modifies this
      ensures r == ParsedToggles(original)
    {
      var signals :- TakeRequiredStrings(SIGNALS);
      if !ValidSignals(signals) {
        return Err(EmptySignals);
      }
      var window :- TakeWindow();
      var (start, end) := window;
      var maxCommands :- TakeOptionalDecimal(MAX_COMMANDS);
      var maxResponseBytes :- TakeOptionalDecimal(MAX_RESPONSE_BYTES);
      var timeoutMs :- TakeOptionalDecimal(TIMEOUT_MS);
      assert taken == {SIGNALS, START, END, MAX_COMMANDS, MAX_RESPONSE_BYTES, TIMEOUT_MS};
      var _ :- RejectUnknown();
      if !ValidWindow(start, end) {
        return Err(InvalidWindow);
      }
      if !ValidResponseLimit(maxResponseBytes) {
        return Err(SmallResponseLimit);
      }
      return Ok(Toggles(signals, start, end, maxCommands, maxResponseBytes, timeoutMs));
    }

    method ParseCancel() returns (r: Result<Method, Problem>)
      requires Holds(original, {})
      modifies this
      ensures r == ParsedCancel(original)
    {
      var requestId :- TakeString(REQUEST_ID);
      if !ValidRequestId(requestId) {
        return Err(BadRequestId);
      }
      assert taken == {REQUEST_ID};
      var _ :- RejectUnknown();
      return Ok(Cancel(requestId));
    }

    /** `parse_method`: reading fields by removing them comes to the same as looking them up. */
    method ParseMethod(name: string) returns (r: Result<Method, Problem>)
      requires Holds(original, {})
      modifies this
      ensures r == Parsed(name, original)
    {
      if name == "ping" {
        var _ :- RejectUnknown();
        return Ok(Ping);
      } else if name == "describe" {
        var _ :- RejectUnknown();
        return Ok(Describe);
      } else if name == "list" {
        r := ParseList();
      } else if name == "metadata" {
        r := ParseMetadata();
      } else if name == "extract" {
        r := ParseExtract();
      } else if name == "find" {
        r := ParseFind();
      } else if name == "toggles" {
        r := ParseToggles();
      } else if name == "cancel" {
        r := ParseCancel();
      } else {
        return Err(UnknownMethod(name));
      }
    }
  }

  // ------------------------------------------------------------------ encoding

  function Name(m: Method): string {
    match m
    case Ping => "ping"
    case Describe => "describe"
    case List(_, _, _, _) => "list"
    case Metadata(_, _) => "metadata"
    case Extract(_, _, _, _, _, _, _) => "extract"
    case Find(_, _, _, _, _, _, _, _) => "find"
    case Toggles(_, _, _, _, _, _) => "toggles"
    case Cancel(_) => "cancel"
  }

  function Decimal(field: Field, limit: Limit): Params {
    if limit.None? then map[] else map[field := Text(Show(limit.value))]
  }

  function Strings(texts: seq<string>): Value {
    Array(seq(|texts|, i requires 0 <= i < |texts| => Text(texts[i])))
  }

  /** `params_value`. */
  function ParamsOf(m: Method): Params {
    match m
    case Ping => map[]
    case Describe => map[]
    case List(filter, maxRows, maxResponseBytes, timeoutMs) =>
      (if filter.Some? then map[FILTER := Text(filter.value)] else map[])
      + Decimal(MAX_ROWS, maxRows) + Decimal(MAX_RESPONSE_BYTES, maxResponseBytes) + Decimal(TIMEOUT_MS, timeoutMs)
    case Metadata(timeoutMs, maxCommands) => Decimal(TIMEOUT_MS, timeoutMs) + Decimal(MAX_COMMANDS, maxCommands)
    case Extract(signals, start, end, maxRows, maxResponseBytes, maxCommands, timeoutMs) =>
      map[SIGNALS := Strings(signals)] + Decimal(START, start) + Decimal(END, end) + Decimal(MAX_ROWS, maxRows)
      + Decimal(MAX_RESPONSE_BYTES, maxResponseBytes) + Decimal(MAX_COMMANDS, maxCommands)
         + Decimal(TIMEOUT_MS, timeoutMs)
    case Find(signal, value, occurrence, start, end, maxCommands, maxResponseBytes, timeoutMs) =>
      map[SIGNAL := Text(signal), VALUE := Text(value), OCCURRENCE := Text(Show(occurrence))]
      + Decimal(START, start) + Decimal(END, end) + Decimal(MAX_COMMANDS, maxCommands)
      + Decimal(MAX_RESPONSE_BYTES, maxResponseBytes) + Decimal(TIMEOUT_MS, timeoutMs)
    case Toggles(signals, start, end, maxCommands, maxResponseBytes, timeoutMs) =>
      map[SIGNALS := Strings(signals)] + Decimal(START, start) + Decimal(END, end) + Decimal(MAX_COMMANDS, maxCommands)
      + Decimal(MAX_RESPONSE_BYTES, maxResponseBytes) + Decimal(TIMEOUT_MS, timeoutMs)
    case Cancel(requestId) => map[REQUEST_ID := Text(requestId)]
  }

  // ------------------------------------------------------------------ the envelope

  /** `decode_request` after the JSON text has been read; other envelope fields are ignored. */
  function DecodeRequest(envelope: Value): Result<Request, Problem> {
    var fields :- if envelope.Object? then Ok(envelope.fields) else Err(NotAnObject);
    var version :- RequiredOf(fields, VERSION);
    var _ :- Check(version.Number?, WrongType(VERSION));
    var _ :- Check(version.n == PROTOCOL_VERSION, UnsupportedVersion);
    var id :- TextOf(fields, ID);
    var _ :- Check(ValidRequestId(id), BadRequestId);
    var name :- TextOf(fields, METHOD);
    var params :- RequiredOf(fields, PARAMS);
    var given :- if params.Object? then Ok(params.fields) else Err(WrongType(PARAMS));
    var m :- Parsed(name, given);
    Ok(Request(id, m))
  }

  /** `decode_request_with_active`. */
  function DecodeInactive(envelope: Value, active: set<string>): Result<Request, Problem> {
    var request :- DecodeRequest(envelope);
    var _ :- Check(request.id !in active, DuplicateId(request.id));
    Ok(request)
  }

  function EncodeRequest(request: Request): Value {
    Object(map[VERSION := Number(PROTOCOL_VERSION), ID := Text(request.id), METHOD := Text(Name(request.method_)),
               PARAMS := Object(ParamsOf(request.method_))])
  }
}
