/** Signed 64-bit numbers: wrap-around, %d and strconv.ParseInt. */
module Int64 {
  import opened Text

  const TWO63: int := 9223372036854775808

  predicate Fits(x: int) {
    -TWO63 <= x < TWO63
  }

  /** The number an int64 holds after arithmetic gave x. */
  function Wrap64(x: int): int {
    (x + TWO63) % (2 * TWO63) - TWO63
  }

  lemma WrapInRange(x: int)
    requires Fits(x)
    ensures Wrap64(x) == x
  {
  }

  /** Wrapping around changes a number by a multiple of two to the sixty-fourth. */
  lemma WrapIs(x: int)
    ensures Fits(x) <==> -9223372036854775808 <= x <= 9223372036854775807
    ensures -9223372036854775808 <= Wrap64(x) <= 9223372036854775807
    ensures (Wrap64(x) - x) % 18446744073709551616 == 0
  {
    var q := (x + TWO63) / (2 * TWO63);
    assert Wrap64(x) == x + (-q) * 18446744073709551616;
  }

  function Print(x: int): string {
    if x < 0 then "-" + Decimal(-x) else Decimal(x)
  }

  predicate IsNumeral(s: string) {
    s != "" && forall i | 0 <= i < |s| :: IsDigit(s[i])
  }

  /** ParseInt in base 10 with 64 bits: an optional sign, then digits only. */
  function ParseInt(s: string): Option<int> {
    if s == "" then None
    else
      var digits := if s[0] == '-' || s[0] == '+' then s[1..] else s;
      if !IsNumeral(digits) then None
      else
        var n: int := Number(digits);
        var x := if s[0] == '-' then -n else n;
        if Fits(x) then Some(x) else None
  }

  /** Digits after at most one sign are read as the number they denote, if it fits. */
  lemma ParseIntOf(sign: string, digits: string)
    requires sign in {"", "+", "-"} && digits != "" && forall c | c in digits :: IsDigit(c)
    ensures var n: int := Number(digits);
            ParseInt(sign + digits) ==
            if sign == "-" then (if n <= 9223372036854775808 then Some(-n) else None)
            else if n <= 9223372036854775807 then Some(n) else None
  {
    hide Number;
    forall i | 0 <= i < |digits| ensures IsDigit(digits[i]) { assert digits[i] in digits; }
    var s := sign + digits;
    var rest := if s[0] == '-' || s[0] == '+' then s[1..] else s;
    assert digits[0] in digits;
    assert rest == digits;
    assert s[0] == '-' <==> sign == "-";
  }

  /** And nothing else is read. */
  lemma ParseIntTakes(s: string) returns (sign: string, digits: string)
    requires ParseInt(s).Some?
    ensures s == sign + digits && sign in {"", "+", "-"} && digits != "" && forall c | c in digits :: IsDigit(c)
  {
    if s[0] == '-' || s[0] == '+' {
      sign, digits := [s[0]], s[1..];
    } else {
      sign, digits := "", s;
    }
    assert IsNumeral(digits);
  }

  /** A minus sign for negative numbers, no sign for others, no zero in front. */
  lemma PrintIsPlain(x: int)
    ensures Print(x) != "" && (Print(x)[0] == '-' <==> x < 0) && (Print(x)[0] == '0' <==> x == 0)
    ensures forall i | 1 <= i < |Print(x)| :: IsDigit(Print(x)[i])
    ensures x >= 0 ==> IsDigit(Print(x)[0])
    ensures x < 0 ==> |Print(x)| > 1 && Print(x)[1] != '0'
  {
    var digits := Decimal(if x < 0 then -x else x);
    DecimalIsPlain(if x < 0 then -x else x);
    forall i | 0 <= i < |digits| ensures IsDigit(digits[i]) { assert digits[i] in digits; }
  }

  lemma ParseOfPrint(x: int)
    requires Fits(x)
    ensures ParseInt(Print(x)) == Some(x)
  {
    hide Decimal, Number;
    var digits := Decimal(if x < 0 then -x else x);
    NumberOfDecimal(if x < 0 then -x else x);
    forall i | 0 <= i < |digits| ensures IsDigit(digits[i]) { assert digits[i] in digits; }
    if x < 0 { assert Print(x)[1..] == digits; }
  }
}
