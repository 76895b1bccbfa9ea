/** Canonical unsigned decimals: how counters and 64-bit integers are written on the wire
    (src/server/protocol.rs). */
module Decimals {
  import opened Wrappers
  import opened Words

  function DigitChar(d: nat): char
    requires d < 10
  {
    '0' + d as char
  }

  predicate IsDigit(c: char) {
    '0' <= c <= '9'
  }

  function DigitValue(c: char): (d: nat)
    requires IsDigit(c)
    ensures d < 10 && DigitChar(d) == c
  {
    c as nat - '0' as nat
  }

  /** `u64::to_string`. */
  function Show(n: nat): string {
    if n < 10 then [DigitChar(n)] else Show(n / 10) + [DigitChar(n % 10)]
  }

  function Digits(n: nat): nat {
    |Show(n)|
  }

  predicate AllDigits(text: string) {
    forall i | 0 <= i < |text| :: IsDigit(text[i])
  }

  /** `validate_decimal`. */
  predicate Canonical(text: string) {
    text != "" && AllDigits(text) && !(|text| > 1 && text[0] == '0')
  }

  function Value(text: string): nat
    requires AllDigits(text)
  {
    if text == "" then 0 else Value(text[..|text| - 1]) * 10 + DigitValue(text[|text| - 1])
  }

  datatype DecimalError = NotCanonical | Overflow

  /** `parse_decimal_u64`. */
  function Parse(text: string): Result<nat, DecimalError> {
    if !Canonical(text) then Err(NotCanonical)
    else if Value(text) > U64_MAX then Err(Overflow)
    else Ok(Value(text))
  }

  lemma {:induction false} ShowIsCanonical(n: nat)
    ensures Canonical(Show(n)) && Value(Show(n)) == n
    ensures Show(n)[0] == '0' ==> n == 0
  {
    if n >= 10 {
      ShowIsCanonical(n / 10);
      assert Show(n)[..|Show(n)| - 1] == Show(n / 10);
    } else {
      assert Value(Show(n)[..0]) == 0;
    }
  }

  lemma {:induction false} ValueShows(text: string)
    requires Canonical(text)
    ensures Show(Value(text)) == text
    ensures |text| > 1 ==> Value(text) >= 10
  {
    var last := |text| - 1;
    if last == 0 {
      assert text[..0] == "";
    } else {
      ValueShows(text[..last]);
      assert Value(text[..last]) > 0 by {
        if last == 1 {
          assert text[..1][..0] == "";
        }
      }
      assert text == text[..last] + [text[last]];
    }
  }

  /** Parsing and printing are inverse on the canonical texts of 64-bit numbers, and nothing else
      parses. */
  lemma ParseShowInverse(text: string, n: nat)
    ensures Parse(text) == Ok(n) <==> n <= U64_MAX && text == Show(n)
  {
    ShowIsCanonical(n);
    if Canonical(text) {
      ValueShows(text);
    }
  }

  // ------------------------------------------------------------------ how long a number is

  lemma DigitsStep(n: nat)
    ensures Digits(n) == if n < 10 then 1 else Digits(n / 10) + 1
  {
  }

  lemma {:induction false} DigitsMonotone(a: nat, b: nat)
    requires a <= b
    ensures Digits(a) <= Digits(b)
  {
    if a < 10 {
    } else {
      DigitsMonotone(a / 10, b / 10);
    }
  }

  lemma {:induction false} DigitsOfSuccessor(n: nat)
    ensures Digits(n + 1) <= Digits(n) + 1
  {
    if n >= 10 {
      DigitsMonotone((n + 1) / 10, n / 10 + 1);
      DigitsOfSuccessor(n / 10);
    } else {
      assert Digits(n + 1) <= 2;
    }
  }

  /** Adding at most twenty to a number of two or more digits adds at most one digit. */
  lemma DigitsOfSmallSum(n: nat, m: nat)
    requires n >= 10 && m <= n + 20
    ensures Digits(m) <= Digits(n) + 1
  {
    DigitsMonotone(m, n + 20);
    var k := n / 10;
    assert (n + 20) / 10 == k + 2;
    DigitsStep(n + 20);
    DigitsStep(n);
    DigitsStep(k + 2);
    DigitsStep(k);
    if k >= 10 {
      DigitsMonotone((k + 2) / 10, k / 10 + 1);
      DigitsOfSuccessor(k / 10);
    } else {
      DigitsStep((k + 2) / 10);
    }
  }

  function Power10(k: nat): nat {
    if k == 0 then 1 else 10 * Power10(k - 1)
  }

  lemma {:induction false} DigitsBelowPower(n: nat, k: nat)
    requires k > 0 && n < Power10(k)
    ensures Digits(n) <= k
  {
    if n < 10 {
    } else {
      DigitsBelowPower(n / 10, k - 1);
    }
  }

  lemma DigitsOfU64(n: nat)
    requires n <= U64_MAX
    ensures Digits(n) <= 20
  {
    assert Power10(5) == 100_000;
    assert Power10(10) == 10_000_000_000;
    assert Power10(15) == 1_000_000_000_000_000;
    assert Power10(20) == 100_000_000_000_000_000_000;
    DigitsBelowPower(n, 20);
  }
}
