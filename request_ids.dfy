/**
 * Request identifiers `req_<seconds>_<counter>`: the submission time in whole
 * seconds and the manager's request counter, both in decimal.
 */
module RequestIds {

  function DigitChar(d: nat): char
    requires d < 10
  {
    "0123456789"[d]
  }

  function DigitValue(c: char): int {
    c as int - '0' as int
  }

  /** Python's `str(n)` for a natural number: decimal, no leading zeros. */
  function Decimal(n: nat): (s: string)
    ensures |s| > 0
    ensures forall i :: 0 <= i < |s| ==> '0' <= s[i] <= '9'
  {
    if n < 10 then [DigitChar(n)] else Decimal(n / 10) + [DigitChar(n % 10)]
  }

  /** Python's `str(i)` for any integer. */
  function IntString(i: int): string {
    if i < 0 then "-" + Decimal(-i) else Decimal(i)
  }

  /** Reads a run of decimal digits back into a number. */
  function ParseDecimal(s: string): int {
    if s == [] then 0 else ParseDecimal(s[..|s| - 1]) * 10 + DigitValue(s[|s| - 1])
  }

  /** `f"req_{int(time.time())}_{self.request_counter}"` */
  function RequestId(seconds: int, counter: nat): string {
    "req_" + IntString(seconds) + "_" + Decimal(counter)
  }

  /** The characters after the last underscore (the whole string if there is none). */
  function AfterLastUnderscore(s: string): string {
    if s == [] then []
    else if s[|s| - 1] == '_' then []
    else AfterLastUnderscore(s[..|s| - 1]) + [s[|s| - 1]]
  }

  /** The counter part of an identifier, as a caller would read it back. */
  function CounterOf(id: string): int {
    ParseDecimal(AfterLastUnderscore(id))
  }

  lemma {:induction false} DecimalRoundTrip(n: nat)
    ensures ParseDecimal(Decimal(n)) == n
  {
    if n >= 10 {
      var s := Decimal(n);
      assert s[..|s| - 1] == Decimal(n / 10);
      DecimalRoundTrip(n / 10);
    }
  }

  lemma {:induction false} AfterLastUnderscoreOf(prefix: string, tail: string)
    requires forall i :: 0 <= i < |tail| ==> tail[i] != '_'
    ensures AfterLastUnderscore(prefix + "_" + tail) == tail
  {
    var s := prefix + "_" + tail;
    if tail != [] {
      var shorter := tail[..|tail| - 1];
      assert s[..|s| - 1] == prefix + "_" + shorter;
      AfterLastUnderscoreOf(prefix, shorter);
    }
  }

  /** The counter is recoverable from an identifier, whatever the time part was. */
  lemma RequestIdCounter(seconds: int, counter: nat)
    ensures CounterOf(RequestId(seconds, counter)) == counter
  {
    var digits := Decimal(counter);
    assert "req_" + IntString(seconds) + "_" + digits == ("req_" + IntString(seconds)) + "_" + digits;
    AfterLastUnderscoreOf("req_" + IntString(seconds), digits);
    DecimalRoundTrip(counter);
  }

  /**
   * Identifiers minted from different counter values differ, even when their
   * seconds differ too (so "req_1_23" and "req_12_3" never collide).
   */
  lemma RequestIdsDistinct(s1: int, c1: nat, s2: int, c2: nat)
    requires c1 != c2
    ensures RequestId(s1, c1) != RequestId(s2, c2)
  {
    RequestIdCounter(s1, c1);
    RequestIdCounter(s2, c2);
  }
}
