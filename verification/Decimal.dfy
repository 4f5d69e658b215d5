/** Decimal text of 64-bit integers, as `strconv` prints and parses it. */
module Decimal {
  import opened Text

  datatype Option<+T> = None | Some(value: T)

  const INT64_MIN: int := -0x8000_0000_0000_0000
  const INT64_MAX: int := 0x7FFF_FFFF_FFFF_FFFF

  type Int64 = n: int | INT64_MIN <= n <= INT64_MAX

  predicate IsDigit(c: char) { '0' <= c <= '9' }

  predicate AllDigits(s: string) {
    forall i | 0 <= i < |s| :: IsDigit(s[i])
  }

  function PrintNat(n: nat): (s: string)
    ensures s != "" && AllDigits(s)
  {
    if n < 10 then ["0123456789"[n]]
    else PrintNat(n / 10) + ["0123456789"[n % 10]]
  }

  function NatValue(s: string): nat
    requires AllDigits(s)
  {
    if s == "" then 0
    else 10 * NatValue(s[..|s| - 1]) + (s[|s| - 1] as int - '0' as int)
  }

  function PrintInt(n: int): string {
    if n < 0 then "-" + PrintNat(-n) else PrintNat(n)
  }

  /** `strconv.ParseInt(raw, 10, 64)`: an optional sign, at least one digit,
      nothing else, and a value that fits. */
  function ParseInt(raw: string): Option<Int64> {
    var signed := raw != "" && (raw[0] == '-' || raw[0] == '+');
    var digits := if signed then raw[1..] else raw;
    if digits == "" || !AllDigits(digits) then None
    else
      var magnitude: int := NatValue(digits);
      var n := if signed && raw[0] == '-' then -magnitude else magnitude;
      if INT64_MIN <= n <= INT64_MAX then Some(n) else None
  }

  lemma {:induction false} NatRoundTrip(n: nat)
    ensures NatValue(PrintNat(n)) == n
  {
    if n >= 10 {
      NatRoundTrip(n / 10);
      var s := PrintNat(n);
      assert s[..|s| - 1] == PrintNat(n / 10);
    }
  }

  /** Every 64-bit integer survives printing and parsing, and its text needs
      no trimming. */
  lemma IntRoundTrip(n: Int64)
    ensures ParseInt(PrintInt(n)) == Some(n)
    ensures TrimSpace(PrintInt(n)) == PrintInt(n) != ""
  {
    var a: nat := if n < 0 then -(n as int) else n;
    NatRoundTrip(a);
    var s := PrintInt(n);
    assert n < 0 ==> s[1..] == PrintNat(a);
    assert Trimmed(s);
  }
}
