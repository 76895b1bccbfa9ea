/** The walk over the sections of an FST file before it is parsed, and its variable-length
    numbers (src/opened/fst.rs). */
module Preflight {
  import opened Wrappers
  import opened Words

  const MAX_HIERARCHY_COMPRESSED_BYTES: nat := 512 * 1024 * 1024

  type Byte = n: int | 0 <= n < 256

  const END_MARKER: Byte := 255

  datatype LimitedSize = CompressedBytes | UncompressedBytes | IntermediateBytes

  datatype FstError =
    | Io
    | BadLengthEncoding
    | BadSectionLength
    | SectionOverflow
    | SectionBeyondInput
    | TruncatedHeader
    | ResourceLimit(kind: LimitedSize, limit: nat, actual: nat)

  // ------------------------------------------------------------------ bits of 64-bit words

  /** The bitwise or of two numbers. */
  function Or(a: nat, b: nat): nat {
    if a == 0 && b == 0 then 0
    else 2 * Or(a / 2, b / 2) + if a % 2 == 1 || b % 2 == 1 then 1 else 0
  }

  /** What a 64-bit word keeps of a number. */
  function Word(n: nat): nat {
    if n <= U64_MAX then n else Word(n - 0x1_0000_0000_0000_0000)
  }

  lemma {:induction false} WordIsModulo(n: nat)
    ensures Word(n) == n % 0x1_0000_0000_0000_0000
  {
    if n <= U64_MAX {
    } else {
      WordIsModulo(n - 0x1_0000_0000_0000_0000);
    }
  }

  /** A left shift of a 64-bit word drops what leaves it. */
  function ShiftLeft(a: nat, k: nat): nat {
    Word(Shifted(a, k))
  }

  lemma {:induction false} WordDrops(low: nat, high: nat)
    ensures Word(low + 0x1_0000_0000_0000_0000 * high) == Word(low)
  {
    if high == 0 {
    } else {
      WordDrops(low, high - 1);
    }
  }

  lemma {:induction false} OrWithZero(a: nat)
    ensures Or(a, 0) == a && Or(0, a) == a
  {
    if a == 0 {
    } else {
      OrWithZero(a / 2);
    }
  }

  /** Or adds when the low operand lies below the bits of the high one. */
  lemma {:induction false} OrIsSum(low: nat, high: nat, k: nat)
    requires low < Power2(k)
    ensures Or(low, Shifted(high, k)) == low + Shifted(high, k)
  {
    if k == 0 {
      OrWithZero(high);
    } else {
      assert Shifted(high, k) == 2 * Shifted(high, k - 1);
      OrIsSum(low / 2, high, k - 1);
    }
  }

  lemma {:induction false} ShiftedSum(a: nat, b: nat, k: nat)
    ensures Shifted(a + b, k) == Shifted(a, k) + Shifted(b, k)
  {
    if k == 0 {
    } else {
      ShiftedSum(a, b, k - 1);
    }
  }

  lemma {:induction false} ShiftedTwice(a: nat, j: nat, k: nat)
    ensures Shifted(Shifted(a, j), k) == Shifted(a, j + k)
  {
    if k == 0 {
    } else {
      ShiftedTwice(a, j, k - 1);
    }
  }

  lemma {:induction false} ShiftedMonotone(a: nat, b: nat, j: nat, k: nat)
    requires a <= b && j <= k
    ensures a <= Shifted(a, j) <= Shifted(b, k)
  {
    if j > 0 {
      ShiftedMonotone(a, b, j - 1, k - 1);
    } else if k > 0 {
      ShiftedMonotone(a, b, j, k - 1);
    }
  }

  lemma ShiftedByEight(a: nat)
    ensures Shifted(a, 6) == 64 * a && Shifted(a, 7) == 128 * a && Shifted(a, 8) == 256 * a
  {
    assert Shifted(a, 1) == 2 * a;
    assert Shifted(a, 2) == 4 * a;
    assert Shifted(a, 3) == 8 * a;
    assert Shifted(a, 4) == 16 * a;
    assert Shifted(a, 5) == 32 * a;
    assert Shifted(a, 6) == 64 * a;
    assert Shifted(a, 7) == 128 * a;
  }

  lemma ShiftedEightMore(a: nat, k: nat)
    ensures Shifted(a, k + 6) == 64 * Shifted(a, k)
    ensures Shifted(a, k + 7) == 128 * Shifted(a, k)
    ensures Shifted(a, k + 8) == 256 * Shifted(a, k)
  {
    ShiftedByEight(Shifted(a, k));
    ShiftedTwice(a, k, 6);
    ShiftedTwice(a, k, 7);
    ShiftedTwice(a, k, 8);
  }

  lemma ShiftedByWord(a: nat)
    ensures Shifted(a, 63) == 0x8000_0000_0000_0000 * a
    ensures Shifted(a, 64) == 0x1_0000_0000_0000_0000 * a
    ensures Shifted(a, 70) == 0x40_0000_0000_0000_0000 * a
  {
    ShiftedEightMore(a, 0);
    ShiftedEightMore(a, 8);
    ShiftedEightMore(a, 16);
    ShiftedEightMore(a, 24);
    ShiftedEightMore(a, 32);
    ShiftedEightMore(a, 40);
    ShiftedEightMore(a, 48);
    ShiftedEightMore(a, 56);
    ShiftedEightMore(a, 64);
  }

  // ------------------------------------------------------------------ base-128 numbers

  /** The value of base-128 digits, least significant first, without their continuation bits. */
  function Base128(digits: seq<Byte>): nat {
    if digits == [] then 0
    else Base128(digits[..|digits| - 1]) + Shifted(digits[|digits| - 1] % 128, 7 * (|digits| - 1))
  }

  lemma Base128Append(digits: seq<Byte>, d: Byte)
    ensures Base128(digits + [d]) == Base128(digits) + Shifted(d % 128, 7 * |digits|)
  {
    assert (digits + [d])[..|digits|] == digits;
  }

  /** A digit stays below the next digit's place. */
  lemma DigitFits(d: nat, k: nat)
    requires d < 128
    ensures Shifted(d, k) + Power2(k) <= Power2(k + 7)
  {
    ShiftedSum(d, 1, k);
    ShiftedByEight(1);
    ShiftedTwice(1, 7, k);
    ShiftedMonotone(d + 1, 128, k, k);
  }

  lemma {:induction false} Base128Bounded(digits: seq<Byte>)
    ensures Base128(digits) < Power2(7 * |digits|)
  {
    if digits == [] {
    } else {
      Base128Bounded(digits[..|digits| - 1]);
      DigitFits(digits[|digits| - 1] % 128, 7 * (|digits| - 1));
    }
  }

  lemma {:induction false} Base128Cons(d: Byte, digits: seq<Byte>)
    ensures Base128([d] + digits) == d % 128 + 128 * Base128(digits)
  {
    if digits == [] {
      Base128Append([], d);
      assert [d] + digits == [] + [d];
    } else {
      var init, e := digits[..|digits| - 1], digits[|digits| - 1];
      assert digits == init + [e] && [d] + digits == ([d] + init) + [e];
      Base128Cons(d, init);
      Base128Append(init, e);
      Base128Append([d] + init, e);
      ShiftedTwice(e % 128, 7 * |init|, 7);
      ShiftedByEight(Shifted(e % 128, 7 * |init|));
    }
  }

  /** `n` bytes from `pos` are one number: all but the last carry the continuation bit. */
  ghost predicate Spans(bytes: seq<Byte>, pos: nat, n: nat) {
    && 1 <= n <= 10 && pos + n <= |bytes| && bytes[pos + n - 1] < 128
    && forall i | pos <= i < pos + n - 1 :: bytes[i] >= 128
  }

  /** The number read at `pos` is `value`, and the next one starts at `next`. */
  ghost predicate Reads(bytes: seq<Byte>, pos: nat, value: nat, next: nat) {
    pos <= next && Spans(bytes, pos, next - pos) && value == Word(Base128(bytes[pos..next]))
  }

  /** The number is the base-128 sum modulo 2^64. */
  lemma ReadsModulo(bytes: seq<Byte>, pos: nat, value: nat, next: nat)
    requires Reads(bytes, pos, value, next)
    ensures value == Base128(bytes[pos..next]) % 0x1_0000_0000_0000_0000
  {
    WordIsModulo(Base128(bytes[pos..next]));
  }

  lemma ReadsUnique(bytes: seq<Byte>, pos: nat, v1: nat, n1: nat, v2: nat, n2: nat)
    requires Reads(bytes, pos, v1, n1) && Reads(bytes, pos, v2, n2)
    ensures v1 == v2 && n1 == n2
  {
    assert bytes[n1 - 1] < 128 && bytes[n2 - 1] < 128;
  }

  /** Up to nine digits fit a word. */
  lemma NineDigitsFit(digits: seq<Byte>)
    requires |digits| <= 9
    ensures Base128(digits) < Power2(7 * |digits|) && Base128(digits) <= U64_MAX
  {
    Base128Bounded(digits);
    ShiftedMonotone(1, 1, 7 * |digits|, 63);
    ShiftedByWord(1);
  }

  lemma EarlyDigit(low: nat, d: nat, k: nat)
    requires low < Power2(k) && low + Shifted(d, k) <= U64_MAX
    ensures Or(Word(low), ShiftLeft(d, k)) == Word(low + Shifted(d, k))
  {
    OrIsSum(low, d, k);
  }

  /** Only the lowest bit of the tenth digit stays in the word. */
  lemma TenthDigit(low: nat, d: nat, k: nat)
    requires low < Power2(63) && k == 63
    ensures Or(Word(low), ShiftLeft(d, k)) == Word(low + Shifted(d, k))
  {
    ShiftedByWord(1);
    ShiftedByWord(d);
    ShiftedByWord(d % 2);
    var kept := Shifted(d % 2, 63);
    WordDrops(kept, d / 2);
    WordDrops(low + kept, d / 2);
    OrIsSum(low, d % 2, 63);
  }

  /** What the reader has accumulated after some bytes. */
  function Accumulated(digits: seq<Byte>): nat {
    if digits == [] then 0
    else Or(Accumulated(digits[..|digits| - 1]), ShiftLeft(digits[|digits| - 1] % 128, 7 * (|digits| - 1)))
  }

  /** Or-ing in shifted digits is adding them modulo 2^64. */
  lemma {:induction false} AccumulatedIsSum(digits: seq<Byte>)
    requires |digits| <= 10
    ensures Accumulated(digits) == Word(Base128(digits))
  {
    if digits == [] {
    } else {
      var init, d := digits[..|digits| - 1], digits[|digits| - 1] % 128;
      AccumulatedIsSum(init);
      NineDigitsFit(init);
      if |digits| <= 9 {
        NineDigitsFit(digits);
        EarlyDigit(Base128(init), d, 7 * |init|);
      } else {
        TenthDigit(Base128(init), d, 7 * |init|);
      }
    }
  }

  /** The reader has passed `index` bytes, all with the continuation bit. */
  ghost predicate Passed(bytes: seq<Byte>, pos: nat, index: nat, value: nat) {
    && (index > 0 ==> pos + index <= |bytes|)
    && (forall i | pos <= i < pos + index :: bytes[i] >= 128)
    && value == if index == 0 then 0 else Accumulated(bytes[pos..pos + index])
  }

  lemma PassByte(bytes: seq<Byte>, pos: nat, index: nat, value: nat)
    requires index < 10 && Passed(bytes, pos, index, value) && pos + index < |bytes|
    ensures var value' := Or(value, ShiftLeft(bytes[pos + index] % 128, 7 * index));
            if bytes[pos + index] < 128 then Reads(bytes, pos, value', pos + index + 1)
            else Passed(bytes, pos, index + 1, value')
  {
    var digits := bytes[pos..pos + index + 1];
    assert digits[..index] == bytes[pos..pos + index];
    AccumulatedIsSum(digits);
  }

  lemma NothingSpans(bytes: seq<Byte>, pos: nat, index: nat, value: nat)
    requires Passed(bytes, pos, index, value) && (index == 10 || (index < 10 && pos + index >= |bytes|))
    ensures forall n :: !Spans(bytes, pos, n)
  {
  }

  /** `read_variant_u64`: at most ten bytes, the base-128 sum modulo 2^64. */
  method ReadVarint(bytes: seq<Byte>, pos: nat) returns (r: Result<(nat, nat), FstError>)
    ensures r.Ok? ==> Reads(bytes, pos, r.value.0, r.value.1)
    ensures r.Err? ==> forall n :: !Spans(bytes, pos, n)
    ensures r.Err? ==> r.error == (if pos + 10 <= |bytes| then BadLengthEncoding else Io)
  {
    var value := 0;
    for index := 0 to 10
      invariant Passed(bytes, pos, index, value)
    {
      if pos + index >= |bytes| {
        NothingSpans(bytes, pos, index, value);
        return Err(Io);
      }
      var byte := bytes[pos + index];
      PassByte(bytes, pos, index, value);
      value := Or(value, ShiftLeft(byte % 128, 7 * index));
      if byte < 128 {
        return Ok((value, pos + index + 1));
      }
    }
    NothingSpans(bytes, pos, 10, value);
    return Err(BadLengthEncoding);
  }

  /** The standard encoding. */
  function Encode(n: nat): seq<Byte> {
    if n < 128 then [n] else [128 + n % 128] + Encode(n / 128)
  }

  lemma OneDigit(n: Byte)
    requires n < 128
    ensures Base128([n]) == n
  {
    Base128Cons(n, []);
    assert [n] + [] == [n];
  }

  lemma {:induction false} EncodeSpans(n: nat, k: nat)
    requires k > 0 && n < Power2(7 * k)
    ensures 1 <= |Encode(n)| <= k && Encode(n)[|Encode(n)| - 1] < 128
    ensures forall i | 0 <= i < |Encode(n)| - 1 :: Encode(n)[i] >= 128
    ensures Base128(Encode(n)) == n
  {
    if n < 128 {
      OneDigit(n);
    } else {
      ShiftedTwice(1, 7 * (k - 1), 7);
      ShiftedByEight(Power2(7 * (k - 1)));
      EncodeSpans(n / 128, k - 1);
      Base128Cons(128 + n % 128, Encode(n / 128));
    }
  }

  /** Reading inverts the standard encoding of every 64-bit number, wherever it stands, and an
      encoding reads as no other number. */
  lemma VarintInverse(n: nat, before: seq<Byte>, after: seq<Byte>, value: nat, next: nat)
    requires n <= U64_MAX
    ensures Reads(before + Encode(n) + after, |before|, value, next) <==> value == n && next == |before| + |Encode(n)|
  {
    ShiftedByWord(1);
    EncodeSpans(n, 10);
    var bytes := before + Encode(n) + after;
    assert bytes[|before|..|before| + |Encode(n)|] == Encode(n);
    assert Reads(bytes, |before|, n, |before| + |Encode(n)|);
    if Reads(bytes, |before|, value, next) {
      ReadsUnique(bytes, |before|, value, next, n, |before| + |Encode(n)|);
    }
  }

  // ------------------------------------------------------------------ the walk

  function BigEndian(word: seq<Byte>): nat {
    if word == [] then 0 else 256 * BigEndian(word[..|word| - 1]) + word[|word| - 1]
  }

  /** A section of kind `bytes[start - 1]` whose length field is at `start`. */
  datatype Section = Section(start: nat, length: nat)

  predicate IsHierarchy(kind: Byte) {
    kind == 4 || kind == 6 || kind == 7
  }

  /** The same check as a scan for the end of the number; `index` bytes have been passed. */
  function IntermediateError(bytes: seq<Byte>, pos: nat, limit: nat, index: nat): Option<FstError>
    requires index <= 10
    decreases 10 - index
  {
    if index == 10 then Some(BadLengthEncoding)
    else if pos + index >= |bytes| then Some(Io)
    else if bytes[pos + index] >= 128 then IntermediateError(bytes, pos, limit, index + 1)
    else
      var value := Word(Base128(bytes[pos..pos + index + 1]));
      if value > limit then Some(ResourceLimit(IntermediateBytes, limit, value)) else None
  }

  /** The size checks of a hierarchy section; `None` is a pass. The header fields have been
      checked to lie inside the file, the intermediate length has not. */
  function HierarchyError(bytes: seq<Byte>, kind: Byte, s: Section, limit: nat): Option<FstError>
    requires s.start + s.length <= |bytes|
  {
    if s.length > MAX_HIERARCHY_COMPRESSED_BYTES then
      Some(ResourceLimit(CompressedBytes, MAX_HIERARCHY_COMPRESSED_BYTES, s.length))
    else if s.length < 16 then Some(TruncatedHeader)
    else
      var uncompressed := BigEndian(bytes[s.start + 8..s.start + 16]);
      if uncompressed > limit then Some(ResourceLimit(UncompressedBytes, limit, uncompressed))
      else if kind == 7 then IntermediateError(bytes, s.start + 16, limit, 0)
      else None
  }

  lemma {:induction false} IntermediateScan(bytes: seq<Byte>, pos: nat, limit: nat, index: nat)
    requires index <= 10 && (index > 0 ==> pos + index <= |bytes|)
    requires forall i | pos <= i < pos + index :: bytes[i] >= 128
    ensures forall value: nat, next: nat | Reads(bytes, pos, value, next) ::
              IntermediateError(bytes, pos, limit, index) ==
              if value > limit then Some(ResourceLimit(IntermediateBytes, limit, value)) else None
    ensures (forall n :: !Spans(bytes, pos, n)) ==>
              IntermediateError(bytes, pos, limit, index) == Some(if pos + 10 <= |bytes| then BadLengthEncoding else Io)
    decreases 10 - index
  {
    if index == 10 || pos + index >= |bytes| {
    } else if bytes[pos + index] >= 128 {
      IntermediateScan(bytes, pos, limit, index + 1);
    } else {
      assert Spans(bytes, pos, index + 1);
      assert Reads(bytes, pos, Word(Base128(bytes[pos..pos + index + 1])), pos + index + 1);
      forall value: nat, next: nat | Reads(bytes, pos, value, next)
        ensures value == Word(Base128(bytes[pos..pos + index + 1]))
      {
        ReadsUnique(bytes, pos, value, next, Word(Base128(bytes[pos..pos + index + 1])), pos + index + 1);
      }
    }
  }

  function Then(first: Section, rest: Result<seq<Section>, FstError>): Result<seq<Section>, FstError> {
    if rest.Ok? then Ok([first] + rest.value) else rest
  }

  /** The sections visited from `pos` on, or the first error. */
  function Walk(bytes: seq<Byte>, pos: nat, limit: nat): Result<seq<Section>, FstError>
    decreases |bytes| - pos
  {
    if pos >= |bytes| then Ok([])
    else if pos + 9 > |bytes| then Err(Io)
    else
      var s := Section(pos + 1, BigEndian(bytes[pos + 1..pos + 9]));
      if bytes[pos] == END_MARKER && s.length == 0 then Ok([])
      else if s.length < 8 then Err(BadSectionLength)
      else if s.start + s.length > U64_MAX then Err(SectionOverflow)
      else if s.start + s.length > |bytes| then Err(SectionBeyondInput)
      else
        var bad := if IsHierarchy(bytes[pos]) then HierarchyError(bytes, bytes[pos], s, limit) else None;
        if bad.Some? then Err(bad.value) else Then(s, Walk(bytes, s.start + s.length, limit))
  }

  function Prepend(visited: seq<Section>, rest: Result<seq<Section>, FstError>): Result<seq<Section>, FstError> {
    if rest.Ok? then Ok(visited + rest.value) else rest
  }

  method CheckHierarchy(bytes: seq<Byte>, kind: Byte, s: Section, limit: nat) returns (bad: Option<FstError>)
    requires s.start + s.length <= |bytes|
    ensures bad == HierarchyError(bytes, kind, s, limit)
  {
    if s.length > MAX_HIERARCHY_COMPRESSED_BYTES {
      return Some(ResourceLimit(CompressedBytes, MAX_HIERARCHY_COMPRESSED_BYTES, s.length));
    }
    if s.length < 16 {
      return Some(TruncatedHeader);
    }
    var uncompressed := BigEndian(bytes[s.start + 8..s.start + 16]);
    if uncompressed > limit {
      return Some(ResourceLimit(UncompressedBytes, limit, uncompressed));
    }
    if kind == 7 {
      var intermediate := ReadVarint(bytes, s.start + 16);
      IntermediateScan(bytes, s.start + 16, limit, 0);
      if intermediate.Err? {
        return Some(intermediate.error);
      }
      if intermediate.value.0 > limit {
        return Some(ResourceLimit(IntermediateBytes, limit, intermediate.value.0));
      }
    }
    return None;
  }

  lemma Prepending(visited: seq<Section>, s: Section, rest: Result<seq<Section>, FstError>)
    ensures Prepend([], rest) == rest
    ensures Prepend(visited, Then(s, rest)) == Prepend(visited + [s], rest)
  {
    if rest.Ok? {
      assert [] + rest.value == rest.value;
      assert visited + ([s] + rest.value) == visited + [s] + rest.value;
    }
  }

  /** `preflight_hierarchy`. The position strictly increases, so the walk ends on every input. */
  method PreflightHierarchy(bytes: seq<Byte>, limit: nat) returns (r: Result<(), FstError>)
    ensures r == match Walk(bytes, 0, limit) case Ok(_) => Ok(()) case Err(error) => Err(error)
  {
    var pos := 0;
    ghost var visited: seq<Section> := [];
    Prepending(visited, Section(0, 0), Walk(bytes, pos, limit));
    while pos < |bytes|
      invariant Prepend(visited, Walk(bytes, pos, limit)) == Walk(bytes, 0, limit)
      decreases |bytes| - pos
    {
      var kind, start := bytes[pos], pos + 1;
      if start + 8 > |bytes| {
        return Err(Io);
      }
      var length := BigEndian(bytes[start..start + 8]);
      if kind == END_MARKER && length == 0 {
        break;
      }
      if length < 8 {
        return Err(BadSectionLength);
      }
      if start + length > U64_MAX {
        return Err(SectionOverflow);
      }
      if start + length > |bytes| {
        return Err(SectionBeyondInput);
      }
      if IsHierarchy(kind) {
        var bad := CheckHierarchy(bytes, kind, Section(start, length), limit);
        if bad.Some? {
          return Err(bad.value);
        }
      }
      Prepending(visited, Section(start, length), Walk(bytes, start + length, limit));
      visited := visited + [Section(start, length)];
      pos := start + length;
    }
    return Ok(());
  }

  // ------------------------------------------------------------------ what a pass means

  ghost predicate IntermediateFits(bytes: seq<Byte>, pos: nat, limit: nat) {
    exists value: nat, next: nat :: Reads(bytes, pos, value, next) && value <= limit
  }

  /** The declared sizes of a hierarchy section are within the limits. */
  ghost predicate SizesFit(bytes: seq<Byte>, s: Section, limit: nat)
    requires 1 <= s.start && s.start + s.length <= |bytes|
  {
    bytes[s.start - 1] == 4 || bytes[s.start - 1] == 6 || bytes[s.start - 1] == 7 ==>
      && 16 <= s.length <= MAX_HIERARCHY_COMPRESSED_BYTES
      && BigEndian(bytes[s.start + 8..s.start + 16]) <= limit
      && (bytes[s.start - 1] == 7 ==> IntermediateFits(bytes, s.start + 16, limit))
  }

  ghost predicate WellFormed(bytes: seq<Byte>, s: Section, limit: nat) {
    && 1 <= s.start && 8 <= s.length && s.start + s.length <= |bytes| && s.start + s.length <= U64_MAX
    && s.length == BigEndian(bytes[s.start..s.start + 8])
    && SizesFit(bytes, s, limit)
  }

  function EndOf(pos: nat, sections: seq<Section>, i: nat): nat
    requires i <= |sections|
  {
    if i == 0 then pos else sections[i - 1].start + sections[i - 1].length
  }

  /** The end of the file, or an end marker. */
  predicate WalkEnds(bytes: seq<Byte>, end: nat) {
    end >= |bytes| || (end + 9 <= |bytes| && bytes[end] == END_MARKER && BigEndian(bytes[end + 1..end + 9]) == 0)
  }

  predicate StartsAt(pos: nat, sections: seq<Section>, i: nat)
    requires i < |sections|
  {
    sections[i].start == EndOf(pos, sections, i) + 1
  }

  /** The sections lie end to end from `pos` on. */
  ghost predicate Tile(bytes: seq<Byte>, pos: nat, sections: seq<Section>) {
    && (forall i | 0 <= i < |sections| :: StartsAt(pos, sections, i))
    && WalkEnds(bytes, EndOf(pos, sections, |sections|))
  }

  ghost predicate AllWellFormed(bytes: seq<Byte>, sections: seq<Section>, limit: nat) {
    forall i | 0 <= i < |sections| :: WellFormed(bytes, sections[i], limit)
  }

  ghost predicate Partition(bytes: seq<Byte>, pos: nat, sections: seq<Section>, limit: nat) {
    Tile(bytes, pos, sections) && AllWellFormed(bytes, sections, limit)
  }

  lemma IntermediateCheck(bytes: seq<Byte>, pos: nat, limit: nat)
    ensures IntermediateError(bytes, pos, limit, 0).None? <==> IntermediateFits(bytes, pos, limit)
  {
    IntermediateScan(bytes, pos, limit, 0);
    if n :| Spans(bytes, pos, n) {
      assert Reads(bytes, pos, Word(Base128(bytes[pos..pos + n])), pos + n);
    }
  }

  lemma EndOfTail(pos: nat, s: Section, rest: seq<Section>, i: nat)
    requires i <= |rest|
    ensures EndOf(pos, [s] + rest, i + 1) == EndOf(s.start + s.length, rest, i)
  {
  }

  lemma TileCons(bytes: seq<Byte>, pos: nat, s: Section, rest: seq<Section>)
    ensures Tile(bytes, pos, [s] + rest) <==> s.start == pos + 1 && Tile(bytes, s.start + s.length, rest)
  {
    var all, end := [s] + rest, s.start + s.length;
    EndOfTail(pos, s, rest, |rest|);
    assert StartsAt(pos, all, 0) <==> s.start == pos + 1;
    forall i | 0 <= i < |rest| ensures StartsAt(end, rest, i) <==> StartsAt(pos, all, i + 1) {
      EndOfTail(pos, s, rest, i);
    }
    if s.start == pos + 1 && Tile(bytes, end, rest) {
      forall i | 0 <= i < |all| ensures StartsAt(pos, all, i) {
        assert i > 0 ==> StartsAt(end, rest, i - 1);
      }
    }
  }

  lemma AllWellFormedCons(bytes: seq<Byte>, s: Section, rest: seq<Section>, limit: nat)
    ensures AllWellFormed(bytes, [s] + rest, limit) <==>
              WellFormed(bytes, s, limit) && AllWellFormed(bytes, rest, limit)
  {
    var all := [s] + rest;
    if AllWellFormed(bytes, all, limit) {
      assert all[0] == s;
      forall i | 0 <= i < |rest| ensures WellFormed(bytes, rest[i], limit) {
        assert all[i + 1] == rest[i];
      }
    }
  }

  lemma PartitionCons(bytes: seq<Byte>, pos: nat, s: Section, rest: seq<Section>, limit: nat)
    ensures Partition(bytes, pos, [s] + rest, limit) <==>
            s.start == pos + 1 && WellFormed(bytes, s, limit) && Partition(bytes, s.start + s.length, rest, limit)
  {
    TileCons(bytes, pos, s, rest);
    AllWellFormedCons(bytes, s, rest, limit);
  }

  lemma SizesCheck(bytes: seq<Byte>, s: Section, limit: nat)
    requires 1 <= s.start && s.start + s.length <= |bytes|
    ensures SizesFit(bytes, s, limit) <==>
            (IsHierarchy(bytes[s.start - 1]) ==> HierarchyError(bytes, bytes[s.start - 1], s, limit).None?)
  {
    IntermediateCheck(bytes, s.start + 16, limit);
  }

  /** A well-formed section is visited. */
  lemma WalkVisits(bytes: seq<Byte>, s: Section, limit: nat)
    requires WellFormed(bytes, s, limit)
    ensures Walk(bytes, s.start - 1, limit) == Then(s, Walk(bytes, s.start + s.length, limit))
  {
    SizesCheck(bytes, s, limit);
  }

  /** A visited section is well-formed. */
  lemma VisitedIsWellFormed(bytes: seq<Byte>, pos: nat, limit: nat)
    requires Walk(bytes, pos, limit).Ok? && !WalkEnds(bytes, pos)
    ensures pos + 9 <= |bytes| && WellFormed(bytes, Section(pos + 1, BigEndian(bytes[pos + 1..pos + 9])), limit)
  {
    IntermediateCheck(bytes, pos + 17, limit);
  }

  lemma {:induction false} WalkPartitions(bytes: seq<Byte>, pos: nat, limit: nat)
    requires Walk(bytes, pos, limit).Ok?
    ensures Partition(bytes, pos, Walk(bytes, pos, limit).value, limit)
    decreases |bytes| - pos
  {
    if !WalkEnds(bytes, pos) {
      VisitedIsWellFormed(bytes, pos, limit);
      var s := Section(pos + 1, BigEndian(bytes[pos + 1..pos + 9]));
      WalkVisits(bytes, s, limit);
      WalkPartitions(bytes, s.start + s.length, limit);
      PartitionCons(bytes, pos, s, Walk(bytes, s.start + s.length, limit).value, limit);
    }
  }

  lemma WalkStops(bytes: seq<Byte>, pos: nat, limit: nat)
    requires WalkEnds(bytes, pos)
    ensures Walk(bytes, pos, limit) == Ok([])
  {
  }

  lemma PartitionHead(bytes: seq<Byte>, pos: nat, sections: seq<Section>, limit: nat)
    requires Partition(bytes, pos, sections, limit) && sections != []
    ensures var s := sections[0];
            && WellFormed(bytes, s, limit) && s.start == pos + 1
            && Partition(bytes, s.start + s.length, sections[1..], limit)
  {
    assert sections == [sections[0]] + sections[1..];
    PartitionCons(bytes, pos, sections[0], sections[1..], limit);
  }

  lemma WalkFromHead(bytes: seq<Byte>, pos: nat, sections: seq<Section>, limit: nat)
    requires sections != [] && WellFormed(bytes, sections[0], limit) && sections[0].start == pos + 1
    requires Walk(bytes, sections[0].start + sections[0].length, limit) == Ok(sections[1..])
    ensures Walk(bytes, pos, limit) == Ok(sections)
  {
    WalkVisits(bytes, sections[0], limit);
    assert sections == [sections[0]] + sections[1..];
  }

  lemma {:induction false} PartitionWalks(bytes: seq<Byte>, pos: nat, sections: seq<Section>, limit: nat)
    requires Partition(bytes, pos, sections, limit)
    ensures Walk(bytes, pos, limit) == Ok(sections)
    decreases |sections|
  {
    if sections == [] {
      WalkStops(bytes, pos, limit);
    } else {
      PartitionHead(bytes, pos, sections, limit);
      PartitionWalks(bytes, sections[0].start + sections[0].length, sections[1..], limit);
      WalkFromHead(bytes, pos, sections, limit);
    }
  }

  /** The walk accepts a file exactly when well-formed sections tile a prefix of it, up to the end
      of the file or an end marker; it visits those sections and no others. */
  lemma WalkIsPartition(bytes: seq<Byte>, limit: nat, sections: seq<Section>)
    ensures Walk(bytes, 0, limit) == Ok(sections) <==> Partition(bytes, 0, sections, limit)
  {
    if Partition(bytes, 0, sections, limit) {
      PartitionWalks(bytes, 0, sections, limit);
    }
    if Walk(bytes, 0, limit).Ok? {
      WalkPartitions(bytes, 0, limit);
    }
  }

  // ------------------------------------------------------------------ what an error means

  /** The length field of the section whose kind is at `pos`. */
  function LengthAt(bytes: seq<Byte>, pos: nat): nat
    requires pos + 9 <= |bytes|
  {
    BigEndian(bytes[pos + 1..pos + 9])
  }

  /** A section of a kind with a hierarchy lies at `pos`, inside the file. */
  predicate HierarchyAt(bytes: seq<Byte>, pos: nat) {
    && pos + 9 <= |bytes| && 8 <= LengthAt(bytes, pos) && pos + 1 + LengthAt(bytes, pos) <= |bytes|
    && pos + 1 + LengthAt(bytes, pos) <= U64_MAX && (bytes[pos] == 4 || bytes[pos] == 6 || bytes[pos] == 7)
  }

  /** The hierarchy section at `pos` has a header whose first two sizes are within the limits. */
  predicate HeaderFits(bytes: seq<Byte>, pos: nat, limit: nat) {
    && HierarchyAt(bytes, pos) && 16 <= LengthAt(bytes, pos) <= MAX_HIERARCHY_COMPRESSED_BYTES
    && BigEndian(bytes[pos + 9..pos + 17]) <= limit
  }

  ghost predicate NoNumberAt(bytes: seq<Byte>, pos: nat) {
    forall n :: !Spans(bytes, pos, n)
  }

  ghost predicate NumberAt(bytes: seq<Byte>, pos: nat, value: nat) {
    exists next: nat :: Reads(bytes, pos, value, next)
  }

  /** What is wrong with the header at `pos`. */
  ghost predicate Fault(bytes: seq<Byte>, pos: nat, limit: nat, error: FstError) {
    && pos < |bytes|
    && match error
       case Io =>
         || pos + 9 > |bytes|
         || (HeaderFits(bytes, pos, limit) && bytes[pos] == 7 && NoNumberAt(bytes, pos + 17) && pos + 27 > |bytes|)
       case BadSectionLength =>
         pos + 9 <= |bytes| && LengthAt(bytes, pos) < 8 && !(bytes[pos] == 255 && LengthAt(bytes, pos) == 0)
       case SectionOverflow =>
         pos + 9 <= |bytes| && 8 <= LengthAt(bytes, pos) && U64_MAX < pos + 1 + LengthAt(bytes, pos)
       case SectionBeyondInput =>
         pos + 9 <= |bytes| && 8 <= LengthAt(bytes, pos) && |bytes| < pos + 1 + LengthAt(bytes, pos) <= U64_MAX
       case TruncatedHeader => HierarchyAt(bytes, pos) && LengthAt(bytes, pos) < 16
       case ResourceLimit(CompressedBytes, most, actual) =>
         HierarchyAt(bytes, pos) && actual == LengthAt(bytes, pos) > most == MAX_HIERARCHY_COMPRESSED_BYTES
       case ResourceLimit(UncompressedBytes, most, actual) =>
         HierarchyAt(bytes, pos) && 16 <= LengthAt(bytes, pos) <= MAX_HIERARCHY_COMPRESSED_BYTES
         && actual == BigEndian(bytes[pos + 9..pos + 17]) > most == limit
       case ResourceLimit(IntermediateBytes, most, actual) =>
         HeaderFits(bytes, pos, limit) && bytes[pos] == 7 && most == limit < actual
         && NumberAt(bytes, pos + 17, actual)
       case BadLengthEncoding =>
         HeaderFits(bytes, pos, limit) && bytes[pos] == 7 && NoNumberAt(bytes, pos + 17) && pos + 27 <= |bytes|
  }

  /** The error of the section at `pos` itself, if it has one. */
  function ErrorAt(bytes: seq<Byte>, pos: nat, limit: nat): Option<FstError>
    requires pos < |bytes|
  {
    if pos + 9 > |bytes| then Some(Io)
    else
      var s := Section(pos + 1, LengthAt(bytes, pos));
      if bytes[pos] == END_MARKER && s.length == 0 then None
      else if s.length < 8 then Some(BadSectionLength)
      else if s.start + s.length > U64_MAX then Some(SectionOverflow)
      else if s.start + s.length > |bytes| then Some(SectionBeyondInput)
      else if IsHierarchy(bytes[pos]) then HierarchyError(bytes, bytes[pos], s, limit)
      else None
  }

  lemma IntermediateFault(bytes: seq<Byte>, pos: nat, limit: nat, error: FstError)
    ensures IntermediateError(bytes, pos, limit, 0) == Some(error) <==>
            || (error == Io && NoNumberAt(bytes, pos) && pos + 10 > |bytes|)
            || (error == BadLengthEncoding && NoNumberAt(bytes, pos) && pos + 10 <= |bytes|)
            || (error.ResourceLimit? && error.kind == IntermediateBytes && error.limit == limit < error.actual
                && NumberAt(bytes, pos, error.actual))
  {
    IntermediateScan(bytes, pos, limit, 0);
    if n :| Spans(bytes, pos, n) {
      var value := Word(Base128(bytes[pos..pos + n]));
      assert Reads(bytes, pos, value, pos + n);
      forall v: nat, next: nat | Reads(bytes, pos, v, next) ensures v == value {
        ReadsUnique(bytes, pos, v, next, value, pos + n);
      }
    } else {
      assert forall v: nat, next: nat :: !Reads(bytes, pos, v, next);
    }
  }

  lemma ErrorIsFault(bytes: seq<Byte>, pos: nat, limit: nat, error: FstError)
    requires pos < |bytes|
    ensures ErrorAt(bytes, pos, limit) == Some(error) <==> Fault(bytes, pos, limit, error)
  {
    if HeaderFits(bytes, pos, limit) && bytes[pos] == 7 {
      IntermediateFault(bytes, pos + 17, limit, error);
    }
  }

  lemma WalkByErrors(bytes: seq<Byte>, pos: nat, limit: nat)
    requires pos < |bytes|
    ensures ErrorAt(bytes, pos, limit).Some? ==> Walk(bytes, pos, limit) == Err(ErrorAt(bytes, pos, limit).value)
    ensures ErrorAt(bytes, pos, limit).None? && !WalkEnds(bytes, pos) ==>
              var s := Section(pos + 1, LengthAt(bytes, pos));
              && s.length >= 8 && WellFormed(bytes, s, limit)
              && Walk(bytes, pos, limit) == Then(s, Walk(bytes, s.start + s.length, limit))
  {
    if ErrorAt(bytes, pos, limit).None? && !WalkEnds(bytes, pos) {
      SizesCheck(bytes, Section(pos + 1, LengthAt(bytes, pos)), limit);
    }
  }

  /** The sections lie end to end from `pos` on, and the header after them has the fault. */
  ghost predicate FailsAfter(bytes: seq<Byte>, pos: nat, sections: seq<Section>, limit: nat, error: FstError) {
    && (forall i | 0 <= i < |sections| :: StartsAt(pos, sections, i))
    && AllWellFormed(bytes, sections, limit)
    && Fault(bytes, EndOf(pos, sections, |sections|), limit, error)
  }

  lemma FailsAfterCons(bytes: seq<Byte>, pos: nat, s: Section, rest: seq<Section>, limit: nat, error: FstError)
    ensures FailsAfter(bytes, pos, [s] + rest, limit, error) <==>
            s.start == pos + 1 && WellFormed(bytes, s, limit)
            && FailsAfter(bytes, s.start + s.length, rest, limit, error)
  {
    var all, end := [s] + rest, s.start + s.length;
    AllWellFormedCons(bytes, s, rest, limit);
    EndOfTail(pos, s, rest, |rest|);
    assert StartsAt(pos, all, 0) <==> s.start == pos + 1;
    forall i | 0 <= i < |rest| ensures StartsAt(end, rest, i) <==> StartsAt(pos, all, i + 1) {
      EndOfTail(pos, s, rest, i);
    }
    if s.start == pos + 1 && FailsAfter(bytes, end, rest, limit, error) {
      forall i | 0 <= i < |all| ensures StartsAt(pos, all, i) {
        assert i > 0 ==> StartsAt(end, rest, i - 1);
      }
    }
  }

  lemma {:induction false} WalkFails(bytes: seq<Byte>, pos: nat, limit: nat) returns (sections: seq<Section>)
    requires Walk(bytes, pos, limit).Err?
    ensures FailsAfter(bytes, pos, sections, limit, Walk(bytes, pos, limit).error)
    decreases |bytes| - pos
  {
    sections := [];
    WalkByErrors(bytes, pos, limit);
    if ErrorAt(bytes, pos, limit).Some? {
      ErrorIsFault(bytes, pos, limit, ErrorAt(bytes, pos, limit).value);
    } else {
      var s := Section(pos + 1, LengthAt(bytes, pos));
      var rest := WalkFails(bytes, s.start + s.length, limit);
      FailsAfterCons(bytes, pos, s, rest, limit, Walk(bytes, pos, limit).error);
      sections := [s] + rest;
    }
  }

  lemma {:induction false} FaultFailsWalk(bytes: seq<Byte>, pos: nat, sections: seq<Section>, limit: nat,
                                          error: FstError)
    requires FailsAfter(bytes, pos, sections, limit, error)
    ensures Walk(bytes, pos, limit) == Err(error)
    decreases |sections|
  {
    if sections == [] {
      ErrorIsFault(bytes, pos, limit, error);
      WalkByErrors(bytes, pos, limit);
    } else {
      var s, rest := sections[0], sections[1..];
      assert sections == [s] + rest;
      FailsAfterCons(bytes, pos, s, rest, limit, error);
      FaultFailsWalk(bytes, s.start + s.length, rest, limit, error);
      WalkVisits(bytes, s, limit);
    }
  }

  /** The walk fails with an error exactly when, after well-formed sections lying end to end from the
      start, the next header has just that fault. */
  lemma WalkFailsExactly(bytes: seq<Byte>, limit: nat, error: FstError)
    ensures Walk(bytes, 0, limit) == Err(error) <==>
            exists sections :: FailsAfter(bytes, 0, sections, limit, error)
  {
    if Walk(bytes, 0, limit) == Err(error) {
      var sections := WalkFails(bytes, 0, limit);
    }
    if sections :| FailsAfter(bytes, 0, sections, limit, error) {
      FaultFailsWalk(bytes, 0, sections, limit, error);
    }
  }

  // ------------------------------------------------------------------ where the intermediate length is read

  /** The section that holds the intermediate length also holds its last byte. */
  ghost predicate IntermediateInside(bytes: seq<Byte>, s: Section)
    requires s.start + s.length <= |bytes|
  {
    exists k :: s.start + 16 <= k < s.start + s.length && k < s.start + 26 && bytes[k] < 128
  }

  /** The intermediate length of an accepted section is read inside that section exactly when the
      section itself contains a final byte; nothing in the walk checks that it does. */
  lemma IntermediateStaysInside(bytes: seq<Byte>, s: Section, limit: nat, value: nat, next: nat)
    requires WellFormed(bytes, s, limit) && bytes[s.start - 1] == 7 && Reads(bytes, s.start + 16, value, next)
    ensures next <= s.start + s.length <==> IntermediateInside(bytes, s)
  {
    if next <= s.start + s.length {
      assert bytes[next - 1] < 128 && s.start + 16 <= next - 1 < s.start + 26;
    }
    if IntermediateInside(bytes, s) {
      var k :| s.start + 16 <= k < s.start + s.length && k < s.start + 26 && bytes[k] < 128;
      assert next - 1 <= k;
    }
  }

  const NOUGHT: seq<Byte> := [0, 0, 0, 0, 0, 0, 0, 0]
  const SIXTEEN: seq<Byte> := [0, 0, 0, 0, 0, 0, 0, 16]

  lemma Slice(before: seq<Byte>, word: seq<Byte>, after: seq<Byte>)
    ensures (before + word + after)[|before|..|before| + |word|] == word
  {
  }

  lemma {:induction false} AllZero(word: seq<Byte>)
    requires forall i | 0 <= i < |word| :: word[i] == 0
    ensures BigEndian(word) == 0
  {
    if word == [] {
    } else {
      AllZero(word[..|word| - 1]);
    }
  }

  /** The fields a walk over `bytes` meets. */
  predicate OverlappingFields(bytes: seq<Byte>) {
    && |bytes| == 26 && bytes[0] == 7 && BigEndian(bytes[1..9]) == 16 && BigEndian(bytes[9..17]) == 0
    && bytes[17] == END_MARKER && bytes[18] == 0 && BigEndian(bytes[18..26]) == 0
  }

  lemma ExampleOverlaps()
    ensures OverlappingFields([7] + SIXTEEN + NOUGHT + [END_MARKER] + NOUGHT)
  {
    var bytes := [7] + SIXTEEN + NOUGHT + [END_MARKER] + NOUGHT;
    AllZero(NOUGHT);
    AllZero(SIXTEEN[..7]);
    Slice([7], SIXTEEN, NOUGHT + [END_MARKER] + NOUGHT);
    Slice([7] + SIXTEEN, NOUGHT, [END_MARKER] + NOUGHT);
    Slice([7] + SIXTEEN + NOUGHT + [END_MARKER], NOUGHT, []);
    assert bytes == [7] + SIXTEEN + (NOUGHT + [END_MARKER] + NOUGHT);
    assert bytes == [7] + SIXTEEN + NOUGHT + ([END_MARKER] + NOUGHT);
    assert bytes == [7] + SIXTEEN + NOUGHT + [END_MARKER] + NOUGHT + [];
    assert bytes[1..9] == SIXTEEN && bytes[9..17] == NOUGHT && bytes[18..26] == NOUGHT;
  }

  lemma OverlapReads(bytes: seq<Byte>)
    requires OverlappingFields(bytes)
    ensures Reads(bytes, 17, 127, 19)
  {
    Base128Append([], 255);
    Base128Append([255], 0);
    assert bytes[17..19] == [] + [255] + [0];
  }

  lemma OverlapIsAccepted(bytes: seq<Byte>)
    requires OverlappingFields(bytes)
    ensures Walk(bytes, 0, 1000) == Ok([Section(1, 16)])
    ensures Reads(bytes, 17, 127, 19) && !IntermediateInside(bytes, Section(1, 16))
  {
    OverlapReads(bytes);
    var s := Section(1, 16);
    assert WellFormed(bytes, s, 1000);
    assert [s] + [] == [s];
    WalkVisits(bytes, s, 1000);
    assert Walk(bytes, 17, 1000) == Ok([]);
  }

  /** A file whose only section has no room for the intermediate length: the walk accepts it by
      reading that length from the end marker that follows. */
  lemma IntermediateFromTheNextSection()
    ensures var bytes := [7] + SIXTEEN + NOUGHT + [END_MARKER] + NOUGHT;
            && Walk(bytes, 0, 1000) == Ok([Section(1, 16)])
            && Reads(bytes, 17, 127, 19) && !IntermediateInside(bytes, Section(1, 16))
  {
    var bytes := [7] + SIXTEEN + NOUGHT + [END_MARKER] + NOUGHT;
    ExampleOverlaps();
    OverlapIsAccepted(bytes);
  }

  // ------------------------------------------------------------------ budgets of the catalog

  /** `charge_resource` on a 64-bit platform. */
  method ChargeResource(kind: LimitedSize, current: nat, amount: nat, limit: nat) returns (r: Result<nat, FstError>)
    requires limit <= U64_MAX && current <= U64_MAX && amount <= U64_MAX
    ensures r.Ok? <==> current + amount <= limit || limit == U64_MAX
    ensures r.Ok? ==> r.value == if current + amount <= U64_MAX then current + amount else U64_MAX
    ensures r.Err? ==>
              r.error == ResourceLimit(kind, limit, if current + amount <= U64_MAX then current + amount else U64_MAX)
  {
    var actual := if current + amount > U64_MAX then U64_MAX else current + amount;
    if actual > limit {
      return Err(ResourceLimit(kind, limit, actual));
    }
    return Ok(actual);
  }
}
