/** Decoding and encoding of requests are inverse. */
module RequestTheorems {
  import opened Wrappers
  import opened Words
  import opened Decimals
  import opened Utf8
  import opened Requests

  // ------------------------------------------------------------------ one field

  predicate InRange(limit: Limit) {
    limit.Some? ==> limit.value <= U64_MAX
  }

  /** A field holds the canonical text of a number, or is absent. */
  predicate HoldsDecimal(params: Params, field: Field, limit: Limit) {
    if limit.None? then field !in params
    else field in params && params[field] == Text(Show(limit.value))
  }

  lemma DecimalField(params: Params, field: Field, limit: Limit)
    ensures OptionalDecimalOf(params, field) == Ok(limit) <==> HoldsDecimal(params, field, limit) && InRange(limit)
  {
    if field in params && params[field].Text? {
      if limit.Some? {
        ParseShowInverse(params[field].text, limit.value);
      }
    }
  }

  lemma {:induction false} TextsOfStrings(texts: seq<string>, field: Field)
    ensures Texts(Strings(texts).items, field) == Ok(texts)
  {
    if texts == [] {
    } else {
      var init := texts[..|texts| - 1];
      TextsOfStrings(init, field);
      assert Strings(texts).items[..|texts| - 1] == Strings(init).items;
      assert texts == init + [texts[|texts| - 1]];
    }
  }

  lemma {:induction false} StringsOfTexts(items: seq<Value>, field: Field)
    requires Texts(items, field).Ok?
    ensures Strings(Texts(items, field).value).items == items
  {
    if items == [] {
    } else {
      StringsOfTexts(items[..|items| - 1], field);
    }
  }

  lemma StringsField(params: Params, field: Field, texts: seq<string>)
    ensures TextsOf(params, field) == Ok(texts) <==> field in params && params[field] == Strings(texts)
  {
    if field in params && params[field].Array? {
      TextsOfStrings(texts, field);
      if Texts(params[field].items, field).Ok? {
        StringsOfTexts(params[field].items, field);
      }
    }
  }

  // ------------------------------------------------------------------ one method

  predicate AtLeast(limit: Limit, least: nat) {
    limit.Some? ==> least <= limit.value
  }

  predicate InOrder(start: Limit, end: Limit) {
    start.Some? && end.Some? ==> start.value <= end.value
  }

  predicate NonEmpty(signals: seq<string>) {
    |signals| > 0 && forall name | name in signals :: |name| > 0
  }

  /** The requests the protocol admits. */
  predicate Valid(m: Method) {
    match m
    case Ping => true
    case Describe => true
    case List(_, maxRows, maxResponseBytes, timeoutMs) =>
      InRange(maxRows) && InRange(maxResponseBytes) && InRange(timeoutMs) && AtLeast(maxResponseBytes, 4096)
    case Metadata(timeoutMs, maxCommands) => InRange(timeoutMs) && InRange(maxCommands)
    case Extract(signals, start, end, maxRows, maxResponseBytes, maxCommands, timeoutMs) =>
      && NonEmpty(signals) && InRange(start) && InRange(end) && InRange(maxRows) && InRange(maxResponseBytes)
      && InRange(maxCommands) && InRange(timeoutMs) && InOrder(start, end) && AtLeast(maxResponseBytes, 4096)
    case Find(signal, _, occurrence, start, end, maxCommands, maxResponseBytes, timeoutMs) =>
      && signal != "" && 0 < occurrence <= U64_MAX && InRange(start) && InRange(end) && InRange(maxCommands)
      && InRange(maxResponseBytes) && InRange(timeoutMs) && InOrder(start, end)
      && AtLeast(maxResponseBytes, 4096)
    case Toggles(signals, start, end, maxCommands, maxResponseBytes, timeoutMs) =>
      && NonEmpty(signals) && InRange(start) && InRange(end) && InRange(maxCommands) && InRange(maxResponseBytes)
      && InRange(timeoutMs) && InOrder(start, end) && AtLeast(maxResponseBytes, 4096)
    case Cancel(requestId) => 1 <= Utf8Bytes(requestId) <= 128
  }

  predicate HoldsText(params: Params, field: Field, text: Option<string>) {
    if text.None? then field !in params else field in params && params[field] == Text(text.value)
  }

  predicate HoldsStrings(params: Params, field: Field, texts: seq<string>) {
    field in params && params[field] == Strings(texts)
  }

  /** Two maps agree on some fields. */
  ghost predicate AgreeOn(params: Params, other: Params, known: set<Field>) {
    forall f | f in known :: (f in params <==> f in other) && (f in other ==> params[f] == other[f])
  }

  lemma Put(params: Params, base: Params, known: set<Field>, field: Field, limit: Limit)
    requires base.Keys <= known && field !in known
    ensures AgreeOn(params, base + Decimal(field, limit), known + {field}) <==>
            AgreeOn(params, base, known) && HoldsDecimal(params, field, limit)
    ensures (base + Decimal(field, limit)).Keys <= known + {field}
  {
    var put := base + Decimal(field, limit);
    assert forall f | f in known :: (f in put <==> f in base) && (f in base ==> put[f] == base[f]);
    assert field in known + {field};
  }

  lemma AgreeOnAll(params: Params, other: Params, known: set<Field>)
    requires other.Keys <= known
    ensures params == other <==> AgreeOn(params, other, known) && params.Keys <= known
  {
  }

  lemma ListFields(params: Params, m: Method)
    requires m.List?
    ensures params == ParamsOf(m) <==>
            && HoldsText(params, FILTER, m.filter) && HoldsDecimal(params, MAX_ROWS, m.maxRows)
            && HoldsDecimal(params, MAX_RESPONSE_BYTES, m.maxResponseBytes)
            && HoldsDecimal(params, TIMEOUT_MS, m.timeoutMs)
            && params.Keys <= {FILTER, MAX_ROWS, MAX_RESPONSE_BYTES, TIMEOUT_MS}
  {
    var p0, k0: set<Field> := (if m.filter.Some? then map[FILTER := Text(m.filter.value)] else map[]), {FILTER};
    Put(params, p0, k0, MAX_ROWS, m.maxRows);
    var p1, k1 := p0 + Decimal(MAX_ROWS, m.maxRows), k0 + {MAX_ROWS};
    Put(params, p1, k1, MAX_RESPONSE_BYTES, m.maxResponseBytes);
    var p2, k2 := p1 + Decimal(MAX_RESPONSE_BYTES, m.maxResponseBytes), k1 + {MAX_RESPONSE_BYTES};
    Put(params, p2, k2, TIMEOUT_MS, m.timeoutMs);
    var p3, k3 := p2 + Decimal(TIMEOUT_MS, m.timeoutMs), k2 + {TIMEOUT_MS};
    AgreeOnAll(params, p3, k3);
    assert k3 == {FILTER, MAX_ROWS, MAX_RESPONSE_BYTES, TIMEOUT_MS};
  }

  lemma ListInverse(params: Params, m: Method)
    ensures ParsedList(params) == Ok(m) <==> m.List? && Valid(m) && params == ParamsOf(m)
  {
    if m.List? {
      DecimalField(params, MAX_ROWS, m.maxRows);
      DecimalField(params, MAX_RESPONSE_BYTES, m.maxResponseBytes);
      DecimalField(params, TIMEOUT_MS, m.timeoutMs);
      ListFields(params, m);
    }
  }

  lemma MetadataFields(params: Params, m: Method)
    requires m.Metadata?
    ensures params == ParamsOf(m) <==>
            && HoldsDecimal(params, TIMEOUT_MS, m.timeoutMs) && HoldsDecimal(params, MAX_COMMANDS, m.maxCommands)
            && params.Keys <= {TIMEOUT_MS, MAX_COMMANDS}
  {
    var p0, k0: set<Field> := Decimal(TIMEOUT_MS, m.timeoutMs), {TIMEOUT_MS};
    Put(params, p0, k0, MAX_COMMANDS, m.maxCommands);
    AgreeOnAll(params, p0 + Decimal(MAX_COMMANDS, m.maxCommands), k0 + {MAX_COMMANDS});
    assert k0 + {MAX_COMMANDS} == {TIMEOUT_MS, MAX_COMMANDS};
  }

  lemma MetadataInverse(params: Params, m: Method)
    ensures ParsedMetadata(params) == Ok(m) <==> m.Metadata? && Valid(m) && params == ParamsOf(m)
  {
    if m.Metadata? {
      DecimalField(params, TIMEOUT_MS, m.timeoutMs);
      DecimalField(params, MAX_COMMANDS, m.maxCommands);
      MetadataFields(params, m);
    }
  }

  lemma ExtractFields(params: Params, m: Method)
    requires m.Extract?
    ensures params == ParamsOf(m) <==>
            && HoldsStrings(params, SIGNALS, m.signals) && HoldsDecimal(params, START, m.start)
            && HoldsDecimal(params, END, m.end) && HoldsDecimal(params, MAX_ROWS, m.maxRows)
            && HoldsDecimal(params, MAX_RESPONSE_BYTES, m.maxResponseBytes)
            && HoldsDecimal(params, MAX_COMMANDS, m.maxCommands) && HoldsDecimal(params, TIMEOUT_MS, m.timeoutMs)
            && params.Keys <= {SIGNALS, START, END, MAX_ROWS, MAX_RESPONSE_BYTES, MAX_COMMANDS, TIMEOUT_MS}
  {
    var p0, k0: set<Field> := map[SIGNALS := Strings(m.signals)], {SIGNALS};
    Put(params, p0, k0, START, m.start);
    var p1, k1 := p0 + Decimal(START, m.start), k0 + {START};
    Put(params, p1, k1, END, m.end);
    var p2, k2 := p1 + Decimal(END, m.end), k1 + {END};
    Put(params, p2, k2, MAX_ROWS, m.maxRows);
    var p3, k3 := p2 + Decimal(MAX_ROWS, m.maxRows), k2 + {MAX_ROWS};
    Put(params, p3, k3, MAX_RESPONSE_BYTES, m.maxResponseBytes);
    var p4, k4 := p3 + Decimal(MAX_RESPONSE_BYTES, m.maxResponseBytes), k3 + {MAX_RESPONSE_BYTES};
    Put(params, p4, k4, MAX_COMMANDS, m.maxCommands);
    var p5, k5 := p4 + Decimal(MAX_COMMANDS, m.maxCommands), k4 + {MAX_COMMANDS};
    Put(params, p5, k5, TIMEOUT_MS, m.timeoutMs);
    var p6, k6 := p5 + Decimal(TIMEOUT_MS, m.timeoutMs), k5 + {TIMEOUT_MS};
    AgreeOnAll(params, p6, k6);
    assert k6 == {SIGNALS, START, END, MAX_ROWS, MAX_RESPONSE_BYTES, MAX_COMMANDS, TIMEOUT_MS};
  }

  lemma ExtractInverse(params: Params, m: Method)
    ensures ParsedExtract(params) == Ok(m) <==> m.Extract? && Valid(m) && params == ParamsOf(m)
  {
    if m.Extract? {
      StringsField(params, SIGNALS, m.signals);
      DecimalField(params, START, m.start);
      DecimalField(params, END, m.end);
      DecimalField(params, MAX_ROWS, m.maxRows);
      DecimalField(params, MAX_RESPONSE_BYTES, m.maxResponseBytes);
      DecimalField(params, MAX_COMMANDS, m.maxCommands);
      DecimalField(params, TIMEOUT_MS, m.timeoutMs);
      ExtractFields(params, m);
    }
  }

  lemma TogglesFields(params: Params, m: Method)
    requires m.Toggles?
    ensures params == ParamsOf(m) <==>
            && HoldsStrings(params, SIGNALS, m.signals) && HoldsDecimal(params, START, m.start)
            && HoldsDecimal(params, END, m.end) && HoldsDecimal(params, MAX_COMMANDS, m.maxCommands)
            && HoldsDecimal(params, MAX_RESPONSE_BYTES, m.maxResponseBytes)
            && HoldsDecimal(params, TIMEOUT_MS, m.timeoutMs)
            && params.Keys <= {SIGNALS, START, END, MAX_COMMANDS, MAX_RESPONSE_BYTES, TIMEOUT_MS}
  {
    var p0, k0: set<Field> := map[SIGNALS := Strings(m.signals)], {SIGNALS};
    Put(params, p0, k0, START, m.start);
    var p1, k1 := p0 + Decimal(START, m.start), k0 + {START};
    Put(params, p1, k1, END, m.end);
    var p2, k2 := p1 + Decimal(END, m.end), k1 + {END};
    Put(params, p2, k2, MAX_COMMANDS, m.maxCommands);
    var p3, k3 := p2 + Decimal(MAX_COMMANDS, m.maxCommands), k2 + {MAX_COMMANDS};
    Put(params, p3, k3, MAX_RESPONSE_BYTES, m.maxResponseBytes);
    var p4, k4 := p3 + Decimal(MAX_RESPONSE_BYTES, m.maxResponseBytes), k3 + {MAX_RESPONSE_BYTES};
    Put(params, p4, k4, TIMEOUT_MS, m.timeoutMs);
    var p5, k5 := p4 + Decimal(TIMEOUT_MS, m.timeoutMs), k4 + {TIMEOUT_MS};
    AgreeOnAll(params, p5, k5);
    assert k5 == {SIGNALS, START, END, MAX_COMMANDS, MAX_RESPONSE_BYTES, TIMEOUT_MS};
  }

  lemma TogglesInverse(params: Params, m: Method)
    ensures ParsedToggles(params) == Ok(m) <==> m.Toggles? && Valid(m) && params == ParamsOf(m)
  {
    if m.Toggles? {
      StringsField(params, SIGNALS, m.signals);
      DecimalField(params, START, m.start);
      DecimalField(params, END, m.end);
      DecimalField(params, MAX_COMMANDS, m.maxCommands);
      DecimalField(params, MAX_RESPONSE_BYTES, m.maxResponseBytes);
      DecimalField(params, TIMEOUT_MS, m.timeoutMs);
      TogglesFields(params, m);
    }
  }

  /** The parameters with the default occurrence written out. */
  function WithOccurrence(params: Params): Params {
    if OCCURRENCE in params then params else params[OCCURRENCE := Text(Show(1))]
  }

  lemma SameField(params: Params, full: Params, field: Field)
    requires full == WithOccurrence(params) && field != OCCURRENCE
    ensures OptionalDecimalOf(full, field) == OptionalDecimalOf(params, field)
            && TextOf(full, field) == TextOf(params, field)
  {
  }

  lemma SameKnown(params: Params, full: Params, known: set<Field>)
    requires full == WithOccurrence(params) && OCCURRENCE in known
    ensures Only(full, known) == Only(params, known)
  {
    assert full.Keys == params.Keys + {OCCURRENCE};
  }

  lemma SameRest(params: Params, full: Params, signal: string, occurrence: nat)
    requires full == WithOccurrence(params)
    ensures ParsedFindRest(full, signal, occurrence) == ParsedFindRest(params, signal, occurrence)
  {
    SameKnown(params, full, {SIGNAL, OCCURRENCE, VALUE, START, END, MAX_COMMANDS, MAX_RESPONSE_BYTES, TIMEOUT_MS});
    SameField(params, full, VALUE);
    SameField(params, full, START);
    SameField(params, full, END);
    SameField(params, full, MAX_COMMANDS);
    SameField(params, full, MAX_RESPONSE_BYTES);
    SameField(params, full, TIMEOUT_MS);
  }

  /** Writing out the default changes nothing. */
  lemma DefaultOccurrence(params: Params)
    ensures ParsedFind(WithOccurrence(params)) == ParsedFind(params)
  {
    ParseShowInverse(Show(1), 1);
    if OCCURRENCE !in params {
      var full := WithOccurrence(params);
      assert OptionalDecimalOf(full, OCCURRENCE) == Ok(Some(1));
      SameField(params, full, SIGNAL);
      if TextOf(params, SIGNAL).Ok? {
        SameRest(params, full, TextOf(params, SIGNAL).value, 1);
      }
    }
  }

  /** The fields of `find` after the signal and the occurrence. */
  predicate HoldsRest(params: Params, m: Method)
    requires m.Find?
  {
    && HoldsText(params, VALUE, Some(m.value))
    && HoldsDecimal(params, START, m.start) && HoldsDecimal(params, END, m.end)
    && HoldsDecimal(params, MAX_COMMANDS, m.maxCommands) && HoldsDecimal(params, MAX_RESPONSE_BYTES, m.maxResponseBytes)
    && HoldsDecimal(params, TIMEOUT_MS, m.timeoutMs)
    && params.Keys <= {SIGNAL, OCCURRENCE, VALUE, START, END, MAX_COMMANDS, MAX_RESPONSE_BYTES, TIMEOUT_MS}
  }

  lemma FindRestInverse(params: Params, signal: string, occurrence: nat, m: Method)
    requires m.Find?
    ensures ParsedFindRest(params, signal, occurrence) == Ok(m) <==>
            && signal == m.signal && occurrence == m.occurrence && HoldsRest(params, m)
            && InRange(m.start) && InRange(m.end) && InRange(m.maxCommands) && InRange(m.maxResponseBytes)
            && InRange(m.timeoutMs) && ValidWindow(m.start, m.end) && ValidResponseLimit(m.maxResponseBytes)
  {
    DecimalField(params, START, m.start);
    DecimalField(params, END, m.end);
    DecimalField(params, MAX_COMMANDS, m.maxCommands);
    DecimalField(params, MAX_RESPONSE_BYTES, m.maxResponseBytes);
    DecimalField(params, TIMEOUT_MS, m.timeoutMs);
  }

  lemma FindBase(params: Params, m: Method)
    requires m.Find?
    ensures AgreeOn(params,
                    map[SIGNAL := Text(m.signal), VALUE := Text(m.value), OCCURRENCE := Text(Show(m.occurrence))],
                    {SIGNAL, VALUE, OCCURRENCE}) <==>
            HoldsText(params, SIGNAL, Some(m.signal)) && HoldsText(params, VALUE, Some(m.value))
            && HoldsDecimal(params, OCCURRENCE, Some(m.occurrence))
  {
  }

  lemma FindFields(params: Params, m: Method)
    requires m.Find? && OCCURRENCE in params
    ensures params == ParamsOf(m) <==>
            && HoldsText(params, SIGNAL, Some(m.signal)) && HoldsDecimal(params, OCCURRENCE, Some(m.occurrence))
            && HoldsRest(params, m)
  {
    var p0 := map[SIGNAL := Text(m.signal), VALUE := Text(m.value), OCCURRENCE := Text(Show(m.occurrence))];
    var k0: set<Field> := {SIGNAL, VALUE, OCCURRENCE};
    Put(params, p0, k0, START, m.start);
    var p1, k1 := p0 + Decimal(START, m.start), k0 + {START};
    Put(params, p1, k1, END, m.end);
    var p2, k2 := p1 + Decimal(END, m.end), k1 + {END};
    Put(params, p2, k2, MAX_COMMANDS, m.maxCommands);
    var p3, k3 := p2 + Decimal(MAX_COMMANDS, m.maxCommands), k2 + {MAX_COMMANDS};
    Put(params, p3, k3, MAX_RESPONSE_BYTES, m.maxResponseBytes);
    var p4, k4 := p3 + Decimal(MAX_RESPONSE_BYTES, m.maxResponseBytes), k3 + {MAX_RESPONSE_BYTES};
    Put(params, p4, k4, TIMEOUT_MS, m.timeoutMs);
    var p5, k5 := p4 + Decimal(TIMEOUT_MS, m.timeoutMs), k4 + {TIMEOUT_MS};
    AgreeOnAll(params, p5, k5);
    FindBase(params, m);
    assert k5 == {SIGNAL, OCCURRENCE, VALUE, START, END, MAX_COMMANDS, MAX_RESPONSE_BYTES, TIMEOUT_MS};
  }

  lemma FindInverseFull(params: Params, m: Method)
    requires m.Find? && OCCURRENCE in params
    ensures ParsedFind(params) == Ok(m) <==> Valid(m) && params == ParamsOf(m)
  {
    DecimalField(params, OCCURRENCE, Some(m.occurrence));
    FindRestInverse(params, m.signal, m.occurrence, m);
    FindFields(params, m);
    if ParsedFind(params) == Ok(m) {
      var given := OptionalDecimalOf(params, OCCURRENCE).value;
      FindRestInverse(params, TextOf(params, SIGNAL).value, OccurrenceOf(given), m);
    }
  }

  lemma FindInverse(params: Params, m: Method)
    ensures ParsedFind(params) == Ok(m) <==> m.Find? && Valid(m) && WithOccurrence(params) == ParamsOf(m)
  {
    DefaultOccurrence(params);
    if m.Find? {
      FindInverseFull(WithOccurrence(params), m);
    }
  }

  lemma CancelInverse(params: Params, m: Method)
    ensures ParsedCancel(params) == Ok(m) <==> m.Cancel? && Valid(m) && params == ParamsOf(m)
  {
  }

  lemma BareInverse(params: Params, m: Method, bare: Method)
    ensures Bare(params, bare) == Ok(m) <==> m == bare && params == map[]
  {
    assert params.Keys <= {} <==> params == map[];
  }

  /** The parameters a method knows. */
  function Known(name: string): set<Field> {
    if name == "list" then {FILTER, MAX_ROWS, MAX_RESPONSE_BYTES, TIMEOUT_MS}
    else if name == "metadata" then {TIMEOUT_MS, MAX_COMMANDS}
    else if name == "extract" then {SIGNALS, START, END, MAX_ROWS, MAX_RESPONSE_BYTES, MAX_COMMANDS, TIMEOUT_MS}
    else if name == "find" then
      {SIGNAL, OCCURRENCE, VALUE, START, END, MAX_COMMANDS, MAX_RESPONSE_BYTES, TIMEOUT_MS}
    else if name == "toggles" then {SIGNALS, START, END, MAX_COMMANDS, MAX_RESPONSE_BYTES, TIMEOUT_MS}
    else if name == "cancel" then {REQUEST_ID}
    else {}
  }

  lemma {:induction false} TextsFail(items: seq<Value>, field: Field)
    requires Texts(items, field).Err?
    ensures Texts(items, field).error == WrongType(field)
  {
    if items != [] && Texts(items[..|items| - 1], field).Err? {
      TextsFail(items[..|items| - 1], field);
    }
  }

  /** An unknown parameter is reported only if there is one, and the window and the response limit
      are looked at only if there is none. */
  predicate UnknownFirst(r: Result<Method, Problem>, params: Params, known: set<Field>) {
    && (r == Err(UnknownParameter) ==> !(params.Keys <= known))
    && (r == Err(InvalidWindow) || r == Err(SmallResponseLimit) ==> params.Keys <= known)
  }

  lemma SignalsFirst(params: Params)
    ensures TextsOf(params, SIGNALS).Err? ==>
              TextsOf(params, SIGNALS).error == Missing(SIGNALS) || TextsOf(params, SIGNALS).error == WrongType(SIGNALS)
  {
    if SIGNALS in params && params[SIGNALS].Array? && Texts(params[SIGNALS].items, SIGNALS).Err? {
      TextsFail(params[SIGNALS].items, SIGNALS);
    }
  }

  lemma DecimalFails(params: Params, field: Field)
    ensures OptionalDecimalOf(params, field).Err? ==>
              OptionalDecimalOf(params, field).error.WrongType? || OptionalDecimalOf(params, field).error.BadDecimal?
  {
  }

  lemma ExtractOrder(params: Params)
    ensures UnknownFirst(ParsedExtract(params), params, Known("extract"))
  {
    SignalsFirst(params);
    DecimalFails(params, START);
    DecimalFails(params, END);
    DecimalFails(params, MAX_ROWS);
    DecimalFails(params, MAX_RESPONSE_BYTES);
    DecimalFails(params, MAX_COMMANDS);
    DecimalFails(params, TIMEOUT_MS);
  }

  lemma FindRestOrder(params: Params, signal: string, occurrence: nat)
    ensures UnknownFirst(ParsedFindRest(params, signal, occurrence), params, Known("find"))
  {
    DecimalFails(params, START);
    DecimalFails(params, END);
    DecimalFails(params, MAX_RESPONSE_BYTES);
    DecimalFails(params, MAX_COMMANDS);
    DecimalFails(params, TIMEOUT_MS);
  }

  lemma FindOrder(params: Params)
    ensures UnknownFirst(ParsedFind(params), params, Known("find"))
  {
    DecimalFails(params, OCCURRENCE);
    if TextOf(params, SIGNAL).Ok? && OptionalDecimalOf(params, OCCURRENCE).Ok? {
      FindRestOrder(params, TextOf(params, SIGNAL).value, OccurrenceOf(OptionalDecimalOf(params, OCCURRENCE).value));
    }
  }

  lemma TogglesOrder(params: Params)
    ensures UnknownFirst(ParsedToggles(params), params, Known("toggles"))
  {
    SignalsFirst(params);
    DecimalFails(params, START);
    DecimalFails(params, END);
    DecimalFails(params, MAX_RESPONSE_BYTES);
    DecimalFails(params, MAX_COMMANDS);
    DecimalFails(params, TIMEOUT_MS);
  }

  lemma OtherOrder(params: Params)
    ensures UnknownFirst(ParsedList(params), params, Known("list"))
    ensures UnknownFirst(ParsedMetadata(params), params, Known("metadata"))
    ensures UnknownFirst(ParsedCancel(params), params, Known("cancel"))
    ensures UnknownFirst(Bare(params, Ping), params, {}) && UnknownFirst(Bare(params, Describe), params, {})
  {
    DecimalFails(params, MAX_ROWS);
    DecimalFails(params, MAX_RESPONSE_BYTES);
    DecimalFails(params, MAX_COMMANDS);
    DecimalFails(params, TIMEOUT_MS);
  }

  /** For every method, an unknown parameter is reported before the window and the response limit are
      looked at. */
  lemma UnknownComesBeforeRanges(name: string, params: Params)
    ensures UnknownFirst(Parsed(name, params), params, Known(name))
  {
    ExtractOrder(params);
    FindOrder(params);
    TogglesOrder(params);
    OtherOrder(params);
  }

  // ------------------------------------------------------------------ the round trip

  /** What the decoder makes of the parameters before comparing: only `find` has a default. */
  function Normalised(name: string, params: Params): Params {
    if name == "find" then WithOccurrence(params) else params
  }

  /** Decoding yields a method exactly when the method is valid, carries that name, and encodes to
      the given parameters up to the default occurrence. So every valid method decodes from its
      encoding, and every accepted parameter map is the encoding of what it decodes to. */
  lemma ParseIsInverse(name: string, params: Params, m: Method)
    ensures Parsed(name, params) == Ok(m) <==> name == Name(m) && Valid(m) && Normalised(name, params) == ParamsOf(m)
  {
    if name == "ping" {
      BareInverse(params, m, Ping);
    } else if name == "describe" {
      BareInverse(params, m, Describe);
    } else if name == "list" {
      ListInverse(params, m);
    } else if name == "metadata" {
      MetadataInverse(params, m);
    } else if name == "extract" {
      ExtractInverse(params, m);
    } else if name == "find" {
      FindInverse(params, m);
    } else if name == "toggles" {
      TogglesInverse(params, m);
    } else if name == "cancel" {
      CancelInverse(params, m);
    }
  }

  /** `envelope` is an encoding of the request up to the default occurrence and fields the
      protocol does not know. */
  predicate Encodes(envelope: Value, request: Request) {
    && envelope.Object?
    && var fields := envelope.fields;
       && VERSION in fields && fields[VERSION] == Number(PROTOCOL_VERSION)
       && HoldsText(fields, ID, Some(request.id))
       && HoldsText(fields, METHOD, Some(Name(request.method_)))
       && PARAMS in fields && fields[PARAMS].Object?
       && Normalised(Name(request.method_), fields[PARAMS].fields) == ParamsOf(request.method_)
  }

  /** An envelope decodes to a request exactly when the request is valid and the envelope encodes
      it; with active ids given, exactly when moreover the id is not active. */
  lemma DecodeIsInverse(envelope: Value, active: set<string>, request: Request)
    ensures DecodeRequest(envelope) == Ok(request) <==>
            ValidRequestId(request.id) && Valid(request.method_) && Encodes(envelope, request)
    ensures DecodeInactive(envelope, active) == Ok(request) <==>
            DecodeRequest(envelope) == Ok(request) && request.id !in active
  {
    if envelope.Object? {
      var fields := envelope.fields;
      if METHOD in fields && fields[METHOD].Text? && PARAMS in fields && fields[PARAMS].Object? {
        ParseIsInverse(fields[METHOD].text, fields[PARAMS].fields, request.method_);
      }
    }
  }

  /** Every valid request decodes from its own encoding. */
  lemma EncodedDecodes(request: Request)
    requires ValidRequestId(request.id) && Valid(request.method_)
    ensures DecodeRequest(EncodeRequest(request)) == Ok(request)
  {
    var m := request.method_;
    if m.Find? {
      assert OCCURRENCE in ParamsOf(m);
    }
    DecodeIsInverse(EncodeRequest(request), {}, request);
  }
}
