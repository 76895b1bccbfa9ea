/** The length of texts in bytes. */
module Utf8 {
  import opened Words

  function Utf8Length(c: char): nat {
    if c < '\U{80}' then 1 else if c < '\U{800}' then 2 else if c < '\U{10000}' then 3 else 4
  }

  function Utf8Bytes(text: string): nat {
    if text == "" then 0 else Utf8Bytes(text[..|text| - 1]) + Utf8Length(text[|text| - 1])
  }

  /** How many code points fit the payload bits of a sequence of `k` bytes (section 3 of RFC 3629). */
  function Capacity(k: nat): nat {
    Power2(if k <= 1 then 7 * k else 5 * k + 1)
  }

  lemma PowersOfTwo()
    ensures Power2(7) == 0x80 && Power2(11) == 0x800 && Power2(16) == 0x1_0000 && Power2(21) == 0x20_0000
  {
    assert Power2(5) == 32;
    assert Power2(10) == 1024;
    assert Power2(15) == 32_768;
    assert Power2(20) == 1_048_576;
  }

  /** A character takes the shortest sequence that it fits. */
  lemma ShortestEncoding(c: char, k: nat)
    requires 1 <= k <= 4
    ensures Utf8Length(c) <= k <==> c as int < Capacity(k)
  {
    PowersOfTwo();
  }
}
