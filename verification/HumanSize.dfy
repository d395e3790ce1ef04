/** The loop that picks the unit of a file size. */
module HumanSize {
  const INT64_MAX: int := 9223372036854775807
  const UNITS := "KMGTPE"

  function Power1024(n: nat): (p: nat)
    ensures p > 0
  {
    if n == 0 then 1 else 1024 * Power1024(n - 1)
  }

  lemma Times(c: nat, a: nat, b: nat)
    requires a <= b
    ensures c * a <= c * b
  {
  }

  lemma QuotientIs(a: nat, d: nat, q: nat)
    requires d > 0 && d * q <= a < d * (q + 1)
    ensures a / d == q
  {
    var p := a / d;
    assert d * p <= a < d * (p + 1);
    if p < q { Times(d, p + 1, q); }
    if q < p { Times(d, q + 1, p); }
  }

  /** Dividing once more by 1024 is dividing by the next power. */
  lemma DivideOn(size: nat, div: nat, n: nat)
    requires div * n <= size < div * (n + 1)
    ensures (div * 1024) * (n / 1024) <= size < (div * 1024) * (n / 1024 + 1)
  {
    Times(div, 1024 * (n / 1024), n);
    Times(div, n + 1, 1024 * (n / 1024 + 1));
    assert (div * 1024) * (n / 1024) == div * (1024 * (n / 1024));
    assert (div * 1024) * (n / 1024 + 1) == div * (1024 * (n / 1024 + 1));
  }

  datatype Shown = Bytes(size: int) | Scaled(size: int, divisor: int, unit: char)

  /** From 1024 bytes on the divisor is the largest power of 1024 not above the
      size, so the number shown is at least 1 and below 1024; nothing overflows
      an int64 and the unit exists. */
  method Humanize(size: int) returns (r: Shown)
    requires -9223372036854775808 <= size <= 9223372036854775807
    ensures size < 1024 <==> r == Bytes(size)
    ensures 1024 <= size < 1048576 ==> r == Scaled(size, 1024, 'K')
    ensures 1048576 <= size < 1073741824 ==> r == Scaled(size, 1048576, 'M')
    ensures 1073741824 <= size < 1099511627776 ==> r == Scaled(size, 1073741824, 'G')
    ensures 1099511627776 <= size < 1125899906842624 ==> r == Scaled(size, 1099511627776, 'T')
    ensures 1125899906842624 <= size < 1152921504606846976 ==> r == Scaled(size, 1125899906842624, 'P')
    ensures 1152921504606846976 <= size ==> r == Scaled(size, 1152921504606846976, 'E')
    ensures r.Scaled? ==> 1 <= size / r.divisor < 1024 && r.divisor <= 9223372036854775807
  {
    if size < 1024 { return Bytes(size); }
    var div, exp := 1024, 0;
    var n := size / 1024;
    assert Power1024(1) == 1024;
    while n >= 1024
      invariant exp >= 0 && div == Power1024(exp + 1)
      invariant n >= 1 && div * n <= size < div * (n + 1)
      decreases n
    {
      Times(div, 1024, n);
      UnitInRange(size, exp + 1);
      DivideOn(size, div, n);
      // div * 1024 is still an int64, and the next index is still in "KMGTPE".
      assert div * 1024 <= size <= INT64_MAX && exp + 1 < |UNITS|;
      n := n / 1024;
      div := div * 1024;
      exp := exp + 1;
    }
    Times(div, 1, n);
    Times(div, n + 1, 1024);
    UnitInRange(size, exp);
    QuotientIs(size, div, n);
    PowersAre(exp);
    r := Scaled(size, div, UNITS[exp]);
  }

  lemma PowersAre(exp: nat)
    requires exp < 6
    ensures Power1024(exp + 1) ==
            [1024, 1048576, 1073741824, 1099511627776, 1125899906842624, 1152921504606846976][exp]
    ensures Power1024(exp + 2) == Power1024(exp + 1) * 1024
  {
    assert Power1024(1) == 1024 && Power1024(2) == 1048576 && Power1024(3) == 1073741824;
    assert Power1024(4) == 1099511627776 && Power1024(5) == 1125899906842624;
    assert Power1024(6) == 1152921504606846976;
  }

  /** An int64 is below 1024 to the seventh. */
  lemma UnitInRange(size: nat, exp: nat)
    requires size <= INT64_MAX && Power1024(exp + 1) <= size
    ensures exp < |UNITS|
  {
    assert Power1024(3) == 1073741824;
    assert Power1024(7) == 1024 * 1024 * 1024 * 1024 * Power1024(3);
    if exp >= 6 { PowersGrow(7, exp + 1); }
  }

  lemma {:induction false} PowersGrow(m: nat, n: nat)
    requires m <= n
    ensures Power1024(m) <= Power1024(n)
  {
    if m < n { PowersGrow(m, n - 1); }
  }
}
