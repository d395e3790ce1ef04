/** Times as Go formats and parses them: calendar fields with a zone offset in
    whole minutes, RFC 3339 text (section 5.6 of RFC 3339), and the fixed-width
    UTC stamp that begins every spool item's name. */
module CivilTime {
  import opened Text

  /** A time with a four-digit year. `offset` is in minutes east of UTC. */
  datatype Time = Time(year: nat, month: nat, day: nat, hour: nat, minute: nat, second: nat, nanos: nat, offset: int)

  predicate IsLeap(y: nat) {
    y % 4 == 0 && (y % 100 != 0 || y % 400 == 0)
  }

  function DaysIn(y: nat, m: nat): nat {
    if m == 2 then (if IsLeap(y) then 29 else 28)
    else if m == 4 || m == 6 || m == 9 || m == 11 then 30
    else 31
  }

  predicate Valid(t: Time) {
    && t.year < 10000 && 1 <= t.month <= 12 && 1 <= t.day <= DaysIn(t.year, t.month)
    && t.hour < 24 && t.minute < 60 && t.second < 60 && t.nanos < 1000000000
    && -1440 < t.offset < 1440
  }

  // ----------------------------------------------------- RFC 3339, printing

  /** Digits without the zeros at the end. */
  function StripZeros(s: string): string {
    if s != [] && s[|s| - 1] == '0' then StripZeros(s[..|s| - 1]) else s
  }

  function Fraction(nanos: nat): string {
    var digits := StripZeros(Fixed(nanos, 9));
    if digits == "" then "" else "." + digits
  }

  function Zone(offset: int): string
    requires -1440 < offset < 1440
  {
    if offset == 0 then "Z"
    else
      var minutes: nat := if offset < 0 then -offset else offset;
      (if offset < 0 then "-" else "+") + Fixed(minutes / 60, 2) + ":" + Fixed(minutes % 60, 2)
  }

  /** Date and time of day, nineteen characters. */
  function Clock(t: Time): (s: string)
    ensures |s| == 19
  {
    Fixed(t.year, 4) + "-" + Fixed(t.month, 2) + "-" + Fixed(t.day, 2) + "T" +
    Fixed(t.hour, 2) + ":" + Fixed(t.minute, 2) + ":" + Fixed(t.second, 2)
  }

  /** time.RFC3339Nano. */
  function Format(t: Time): string
    requires Valid(t)
  {
    Clock(t) + Fraction(t.nanos) + Zone(t.offset)
  }

  // ------------------------------------------------------ RFC 3339, parsing

  /** The number in s[i..j], when those are digits. */
  function Field(s: string, i: nat, j: nat): Option<nat>
    requires i <= j <= |s|
  {
    if forall k | i <= k < j :: IsDigit(s[k]) then Some(Number(s[i..j])) else None
  }

  function DigitsFrom(s: string, i: nat): (j: nat)
    requires i <= |s|
    ensures i <= j <= |s| && (forall k | i <= k < j :: IsDigit(s[k])) && (j < |s| ==> !IsDigit(s[j]))
    decreases |s| - i
  {
    if i < |s| && IsDigit(s[i]) then DigitsFrom(s, i + 1) else i
  }

  /** Fraction digits as nanoseconds; digits past the ninth are dropped. */
  function Nanos(digits: string): nat
    requires forall c | c in digits :: IsDigit(c)
  {
    if |digits| >= 9 then Number(digits[..9]) else Number(digits) * Pow10(9 - |digits|)
  }

  function ParseZone(s: string): Option<int> {
    if s == "Z" then Some(0)
    else if |s| != 6 || (s[0] != '+' && s[0] != '-') || s[3] != ':' then None
    else
      var h, m := Field(s, 1, 3), Field(s, 4, 6);
      if h.None? || m.None? || h.value >= 24 || m.value >= 60 then None
      else Some(if s[0] == '-' then -(h.value * 60 + m.value) else h.value * 60 + m.value)
  }

  function ParseClock(s: string): Option<Time>
    requires |s| == 19
  {
    var y, mo, d := Field(s, 0, 4), Field(s, 5, 7), Field(s, 8, 10);
    var h, mi, se := Field(s, 11, 13), Field(s, 14, 16), Field(s, 17, 19);
    if s[4] != '-' || s[7] != '-' || s[10] != 'T' || s[13] != ':' || s[16] != ':' then None
    else if y.None? || mo.None? || d.None? || h.None? || mi.None? || se.None? then None
    else
      var t := Time(y.value, mo.value, d.value, h.value, mi.value, se.value, 0, 0);
      if Valid(t) then Some(t) else None
  }

  /** time.Parse with the RFC 3339 layout: an optional fraction after the clock. */
  function Parse(s: string): Option<Time> {
    if |s| < 20 then None
    else
      var t := ParseClock(s[..19]);
      var dot := s[19] == '.';
      var end := if dot then DigitsFrom(s, 20) else 19;
      if t.None? || (dot && end == 20) then None
      else
        var zone := ParseZone(s[end..]);
        if zone.None? then None
        else Some(t.value.(nanos := if dot then Nanos(s[20..end]) else 0, offset := zone.value))
  }

  // ------------------------------------------------------------- round trip

  lemma FieldOfFixed(s: string, i: nat, n: nat, w: nat)
    requires i + w <= |s| && s[i..i + w] == Fixed(n, w) && n < Pow10(w)
    ensures Field(s, i, i + w) == Some(n)
  {
    forall k | i <= k < i + w ensures IsDigit(s[k]) {
      assert s[k] == Fixed(n, w)[k - i];
      assert Fixed(n, w)[k - i] in Fixed(n, w);
    }
    NumberOfFixed(n, w);
  }

  lemma ParseOfDate(t: Time)
    requires Valid(t)
    ensures var s := Clock(t);
            && Field(s, 0, 4) == Some(t.year) && Field(s, 5, 7) == Some(t.month) && Field(s, 8, 10) == Some(t.day)
            && s[4] == '-' && s[7] == '-' && s[10] == 'T'
  {
    hide Field;
    var s := Clock(t);
    assert Pow10(2) == 100 && Pow10(4) == 10000;
    assert s[0..4] == Fixed(t.year, 4) && s[5..7] == Fixed(t.month, 2) && s[8..10] == Fixed(t.day, 2);
    FieldOfFixed(s, 0, t.year, 4);
    FieldOfFixed(s, 5, t.month, 2);
    FieldOfFixed(s, 8, t.day, 2);
  }

  lemma ParseOfTimeOfDay(t: Time)
    requires Valid(t)
    ensures var s := Clock(t);
            && Field(s, 11, 13) == Some(t.hour) && Field(s, 14, 16) == Some(t.minute)
            && Field(s, 17, 19) == Some(t.second)
            && s[13] == ':' && s[16] == ':'
  {
    hide Field;
    var s := Clock(t);
    assert Pow10(2) == 100;
    assert s[11..13] == Fixed(t.hour, 2) && s[14..16] == Fixed(t.minute, 2) && s[17..19] == Fixed(t.second, 2);
    FieldOfFixed(s, 11, t.hour, 2);
    FieldOfFixed(s, 14, t.minute, 2);
    FieldOfFixed(s, 17, t.second, 2);
  }

  lemma ParseOfClock(t: Time)
    requires Valid(t)
    ensures ParseClock(Clock(t)) == Some(t.(nanos := 0, offset := 0))
  {
    hide Field, Clock;
    ParseOfDate(t);
    ParseOfTimeOfDay(t);
  }

  lemma ParseOfZone(offset: int)
    requires -1440 < offset < 1440
    ensures ParseZone(Zone(offset)) == Some(offset)
  {
    if offset != 0 {
      var s := Zone(offset);
      var minutes: nat := if offset < 0 then -offset else offset;
      hide Field;
      assert Pow10(2) == 100;
      assert s[1..3] == Fixed(minutes / 60, 2);
      assert s[4..6] == Fixed(minutes % 60, 2);
      FieldOfFixed(s, 1, minutes / 60, 2);
      FieldOfFixed(s, 4, minutes % 60, 2);
    }
  }

  lemma TimesTen(a: nat, b: nat)
    ensures a * (10 * b) == 10 * (a * b)
  {
  }

  /** Stripping zeros and scaling back gives the same number. */
  lemma {:induction false} StripZerosScales(s: string)
    requires forall c | c in s :: IsDigit(c)
    ensures |StripZeros(s)| <= |s| && forall c | c in StripZeros(s) :: IsDigit(c)
    ensures Number(StripZeros(s)) * Pow10(|s| - |StripZeros(s)|) == Number(s)
  {
    if s != [] && s[|s| - 1] == '0' {
      var front := s[..|s| - 1];
      StripZerosScales(front);
      assert StripZeros(s) == StripZeros(front);
      var w := |front| - |StripZeros(front)|;
      assert Number(s) == 10 * Number(front) && Pow10(w + 1) == 10 * Pow10(w);
      TimesTen(Number(StripZeros(front)), Pow10(w));
    }
  }

  lemma {:induction false} DigitsUpTo(s: string, i: nat, j: nat)
    requires i <= j <= |s| && (forall k | i <= k < j :: IsDigit(s[k])) && (j < |s| ==> !IsDigit(s[j]))
    ensures DigitsFrom(s, i) == j
    decreases j - i
  {
    if i < j { DigitsUpTo(s, i + 1, j); }
  }

  lemma ParseOfFraction(nanos: nat)
    requires nanos < 1000000000
    ensures var f := Fraction(nanos);
            f == "" ==> nanos == 0
    ensures var f := Fraction(nanos);
            f != "" ==> f[0] == '.' && |f| > 1 && (forall c | c in f[1..] :: IsDigit(c)) && Nanos(f[1..]) == nanos
  {
    var digits := Fixed(nanos, 9);
    assert Pow10(9) == 1000000000;
    NumberOfFixed(nanos, 9);
    StripZerosScales(digits);
    var f := Fraction(nanos);
    if f != "" {
      assert f[1..] == StripZeros(digits);
      if |f[1..]| == 9 { assert f[1..][..9] == f[1..]; assert Pow10(0) == 1; }
    }
  }

  /** The digits after the point end where the zone begins. */
  lemma FractionEnds(s: string, f: string, z: string)
    requires |s| >= 19 && s[19..] == f + z && |f| > 1 && f[0] == '.' && z != "" && !IsDigit(z[0])
    requires forall c | c in f[1..] :: IsDigit(c)
    ensures DigitsFrom(s, 20) == 19 + |f| && s[19] == '.' && s[20..19 + |f|] == f[1..] && s[19 + |f|..] == z
  {
    hide Number;
    var end := 19 + |f|;
    assert s == s[..19] + (f + z);
    forall k | 20 <= k < end ensures IsDigit(s[k]) { assert s[k] == f[1..][k - 20]; }
    assert s[end] == z[0];
    DigitsUpTo(s, 20, end);
  }

  /** Parse works piece by piece. */
  lemma ParseOfPieces(c: string, f: string, z: string, t: Time, nanos: nat, offset: int)
    requires |c| == 19 && ParseClock(c) == Some(t) && ParseZone(z) == Some(offset)
    requires z != "" && !IsDigit(z[0]) && z[0] != '.'
    requires if f == "" then nanos == 0
             else |f| > 1 && f[0] == '.' && (forall d | d in f[1..] :: IsDigit(d)) && Nanos(f[1..]) == nanos
    ensures Parse(c + f + z) == Some(t.(nanos := nanos, offset := offset))
  {
    var s := c + f + z;
    assert s[..19] == c && s[19..] == f + z;
    if f == "" {
      assert s[19] == z[0] && s[19..] == z;
    } else {
      FractionEnds(s, f, z);
    }
  }

  /** Parsing a printed time gives back every calendar field, the nanoseconds
      and the offset. */
  lemma ParseOfFormat(t: Time)
    requires Valid(t)
    ensures Parse(Format(t)) == Some(t)
  {
    ParseOfClock(t);
    ParseOfZone(t.offset);
    ParseOfFraction(t.nanos);
    ParseOfPieces(Clock(t), Fraction(t.nanos), Zone(t.offset), t.(nanos := 0, offset := 0), t.nanos, t.offset);
  }

  lemma FixedOfField(s: string, i: nat, j: nat)
    requires i <= j <= |s| && Field(s, i, j).Some?
    ensures s[i..j] == Fixed(Field(s, i, j).value, j - i)
  {
    forall c | c in s[i..j] ensures IsDigit(c) {
      var k :| 0 <= k < j - i && s[i..j][k] == c;
      assert s[i + k] == c;
    }
    FixedOfNumber(s[i..j]);
  }

  /** Whatever parses is a date and a time of day that exist, printed as Format
      prints them. */
  lemma ParseIsSound(s: string)
    requires Parse(s).Some?
    ensures Valid(Parse(s).value) && Clock(Parse(s).value) == s[..19]
  {
    hide Number, Pow10, Fixed, Field, Nanos, DigitsFrom;
    var c, t := s[..19], Parse(s).value;
    FixedOfField(c, 0, 4);
    FixedOfField(c, 5, 7);
    FixedOfField(c, 8, 10);
    FixedOfField(c, 11, 13);
    FixedOfField(c, 14, 16);
    FixedOfField(c, 17, 19);
    assert c == c[0..4] + "-" + c[5..7] + "-" + c[8..10] + "T" + c[11..13] + ":" + c[14..16] + ":" + c[17..19];
    NanosFit(s);
  }

  /** Digits after the ninth do not count. */
  lemma NanosOfNine(digits: string, more: string)
    requires |digits| == 9 && (forall c | c in digits :: IsDigit(c)) && forall c | c in digits + more :: IsDigit(c)
    ensures Nanos(digits + more) == Number(digits)
  {
    hide Number, Pow10;
    assert (digits + more)[..9] == digits;
  }

  lemma MoreDigits(digits: string)
    requires forall c | c in digits :: IsDigit(c)
    ensures (forall c | c in digits + "0" :: IsDigit(c)) && Number(digits + "0") == 10 * Number(digits)
  {
    assert (digits + "0")[..|digits|] == digits;
  }

  /** And zeros at the end change nothing. */
  lemma NanosOfZero(digits: string)
    requires |digits| < 9 && forall c | c in digits :: IsDigit(c)
    ensures (forall c | c in digits + "0" :: IsDigit(c)) && Nanos(digits + "0") == Nanos(digits)
  {
    hide Number;
    var p, q := Pow10(8 - |digits|), Pow10(9 - |digits|);
    assert q == 10 * p && Pow10(0) == 1;
    MoreDigits(digits);
    TimesTen(Number(digits), p);
    if |digits| == 8 { assert (digits + "0")[..9] == digits + "0"; }
  }

  /** At most nine digits count, so the nanoseconds stay below a second. */
  lemma NanosFit(s: string)
    requires |s| >= 20
    ensures Nanos(s[20..DigitsFrom(s, 20)]) < 1000000000
  {
    hide Nanos;
    NanosBelow(s[20..DigitsFrom(s, 20)]);
    assert Pow10(9) == 1000000000;
  }

  lemma NanosBelow(digits: string)
    requires forall c | c in digits :: IsDigit(c)
    ensures Nanos(digits) < Pow10(9)
  {
    hide Number, Pow10, Fixed;
    if |digits| >= 9 {
      FixedOfNumber(digits[..9]);
    } else {
      FixedOfNumber(digits);
      ScaledFits(Number(digits), |digits|, 9 - |digits|);
    }
  }

  lemma ScaledFits(n: nat, a: nat, b: nat)
    requires n < Pow10(a)
    ensures n * Pow10(b) < Pow10(a + b)
  {
    Pow10Sum(a, b);
    LessTimes(n, Pow10(a), Pow10(b));
  }

  lemma {:induction false} Pow10Sum(a: nat, b: nat)
    ensures Pow10(a) * Pow10(b) == Pow10(a + b)
  {
    if b > 0 {
      Pow10Sum(a, b - 1);
      TimesTen(Pow10(a), Pow10(b - 1));
    }
  }

  lemma LessTimes(a: nat, b: nat, c: nat)
    requires a < b && c > 0
    ensures a * c < b * c
  {
  }

  /** The shortest form: no zero ends the fraction, none at all for a whole second,
      and Z instead of a zero offset. */
  lemma FormatIsShort(t: Time)
    requires Valid(t)
    ensures Fraction(t.nanos) == "" <==> t.nanos == 0
    ensures Fraction(t.nanos) != "" ==> Fraction(t.nanos)[|Fraction(t.nanos)| - 1] != '0'
    ensures t.offset == 0 ==> Format(t) == Clock(t) + Fraction(t.nanos) + "Z"
    ensures t.offset != 0 ==> Format(t)[|Format(t)| - 6] == if t.offset < 0 then '-' else '+'
    ensures t.offset != 0 ==> Format(t)[|Format(t)| - 3] == ':'
  {
    hide Number;
    ParseOfFraction(t.nanos);
    Stripped(Fixed(t.nanos, 9));
    StripZerosOf0(t.nanos);
    var f := StripZeros(Fixed(t.nanos, 9));
    if f != "" { assert ("." + f)[|f|] == f[|f| - 1]; }
    if t.offset != 0 {
      var zone := Zone(t.offset);
      assert |zone| == 6 && zone[3] == ':';
      assert Format(t) == Clock(t) + Fraction(t.nanos) + zone;
    }
  }

  lemma {:induction false} Stripped(s: string)
    ensures StripZeros(s) != "" ==> StripZeros(s)[|StripZeros(s)| - 1] != '0'
    ensures (forall i | 0 <= i < |s| :: s[i] == '0') ==> StripZeros(s) == ""
  {
    if s != "" { Stripped(s[..|s| - 1]); }
  }

  lemma StripZerosOf0(nanos: nat)
    ensures nanos == 0 ==> StripZeros(Fixed(nanos, 9)) == ""
  {
    if nanos == 0 {
      assert Fixed(0, 9) == "000000000" by { ZerosFixed(9); }
      Stripped("000000000");
    }
  }

  lemma {:induction false} ZerosFixed(w: nat)
    ensures Fixed(0, w) == seq(w, _ => '0')
  {
    if w > 0 { ZerosFixed(w - 1); }
  }

  /** The text is printable ASCII of bounded length, with no quote or newline. */
  lemma FormatPlain(t: Time)
    requires Valid(t)
    ensures |Format(t)| <= 35
    ensures forall c | c in Format(t) :: '+' <= c <= 'Z'
  {
    StripZerosScales(Fixed(t.nanos, 9));
    assert |Fraction(t.nanos)| <= 10 && |Zone(t.offset)| <= 6;
    assert forall n, w: nat, c | c in Fixed(n, w) :: IsDigit(c);
    assert forall c | c in Clock(t) :: '+' <= c <= 'Z';
    assert forall c | c in Fraction(t.nanos) :: '+' <= c <= 'Z';
    assert forall c | c in Zone(t.offset) :: '+' <= c <= 'Z';
  }

  // ------------------------------------------------------------ item stamps

  /** The layout 20060102T150405.000000000Z. */
  function Stamp(t: Time): (s: string)
    ensures |s| == 26
  {
    Fixed(t.year, 4) + (Fixed(t.month, 2) + (Fixed(t.day, 2) + ("T" + TimeOfDay(t))))
  }

  function TimeOfDay(t: Time): (s: string)
    ensures |s| == 17
  {
    Fixed(t.hour, 2) + (Fixed(t.minute, 2) + (Fixed(t.second, 2) + ("." + (Fixed(t.nanos, 9) + "Z"))))
  }

  function DaysBeforeMonth(y: nat, m: nat): nat {
    if m <= 1 then 0 else DaysBeforeMonth(y, m - 1) + DaysIn(y, m - 1)
  }

  function DaysBeforeYear(y: nat): nat {
    if y == 0 then 0 else DaysBeforeYear(y - 1) + DaysBeforeMonth(y - 1, 13)
  }

  function DayNumber(t: Time): nat {
    DaysBeforeYear(t.year) + DaysBeforeMonth(t.year, t.month) + t.day
  }

  /** Nanoseconds since the start of year 0, in UTC. */
  function Instant(t: Time): int {
    (((DayNumber(t) * 24 + t.hour) * 60 + t.minute - t.offset) * 60 + t.second) * 1000000000 + t.nanos
  }

  /** The layout field by field. */
  lemma StampIs(t: Time)
    requires Valid(t)
    ensures var s := Stamp(t);
            && Field(s, 0, 4) == Some(t.year) && Field(s, 4, 6) == Some(t.month) && Field(s, 6, 8) == Some(t.day)
            && Field(s, 9, 11) == Some(t.hour) && Field(s, 11, 13) == Some(t.minute)
            && Field(s, 13, 15) == Some(t.second) && Field(s, 16, 25) == Some(t.nanos)
            && s[8] == 'T' && s[15] == '.' && s[25] == 'Z'
  {
    hide Field;
    var s := Stamp(t);
    assert Pow10(2) == 100 && Pow10(4) == 10000 && Pow10(9) == 1000000000;
    assert s[9..] == TimeOfDay(t);
    assert s[0..4] == Fixed(t.year, 4) && s[4..6] == Fixed(t.month, 2) && s[6..8] == Fixed(t.day, 2);
    assert s[9..11] == Fixed(t.hour, 2) && s[11..13] == Fixed(t.minute, 2) && s[13..15] == Fixed(t.second, 2);
    assert s[16..25] == Fixed(t.nanos, 9);
    FieldOfFixed(s, 0, t.year, 4);
    FieldOfFixed(s, 4, t.month, 2);
    FieldOfFixed(s, 6, t.day, 2);
    FieldOfFixed(s, 9, t.hour, 2);
    FieldOfFixed(s, 11, t.minute, 2);
    FieldOfFixed(s, 13, t.second, 2);
    FieldOfFixed(s, 16, t.nanos, 9);
  }

  /** The Gregorian calendar, as a table and a closed form. */
  lemma MonthsAre(y: nat, m: nat)
    requires 1 <= m <= 13
    ensures DaysBeforeMonth(y, m) ==
            [0, 31, 59, 90, 120, 151, 181, 212, 243, 273, 304, 334, 365][m - 1] +
            if m > 2 && y % 4 == 0 && (y % 100 != 0 || y % 400 == 0) then 1 else 0
  {
    if m > 1 { MonthsAre(y, m - 1); }
  }

  lemma StepOf4(y: nat)
    ensures (y + 4) / 4 - (y + 3) / 4 == if y % 4 == 0 then 1 else 0
  {
  }

  lemma StepOf100(y: nat)
    ensures (y + 100) / 100 - (y + 99) / 100 == if y % 100 == 0 then 1 else 0
  {
  }

  lemma StepOf400(y: nat)
    ensures (y + 400) / 400 - (y + 399) / 400 == if y % 400 == 0 then 1 else 0
  {
  }

  lemma LeapsNest(y: nat)
    ensures (y % 400 == 0 ==> y % 100 == 0) && (y % 100 == 0 ==> y % 4 == 0)
  {
    if y % 100 == 0 { assert y == 4 * (25 * (y / 100)); }
    if y % 400 == 0 { assert y == 100 * (4 * (y / 400)); }
  }

  lemma YearStep(y: nat)
    ensures (y + 4) / 4 - (y + 100) / 100 + (y + 400) / 400 ==
            (y + 3) / 4 - (y + 99) / 100 + (y + 399) / 400 +
            if y % 4 == 0 && (y % 100 != 0 || y % 400 == 0) then 1 else 0
  {
    StepOf4(y);
    StepOf100(y);
    StepOf400(y);
    LeapsNest(y);
  }

  lemma {:induction false} YearsAre(y: nat)
    ensures DaysBeforeYear(y) == 365 * y + (y + 3) / 4 - (y + 99) / 100 + (y + 399) / 400
  {
    if y > 0 {
      YearsAre(y - 1);
      MonthsAre(y - 1, 13);
      YearStep(y - 1);
    }
  }

  /** Dates that exist, and nanoseconds counted from the start of the year 0. */
  lemma TimesAre(t: Time)
    requires 1 <= t.month <= 12
    ensures Valid(t) <==>
              && t.year <= 9999 && 1 <= t.day <= DaysBeforeMonth(t.year, t.month + 1) - DaysBeforeMonth(t.year, t.month)
              && t.hour <= 23 && t.minute <= 59 && t.second <= 59 && t.nanos <= 999999999
              && -1439 <= t.offset <= 1439
    ensures Instant(t) ==
            (DaysBeforeYear(t.year) + DaysBeforeMonth(t.year, t.month) + t.day) * 86400000000000 +
            t.hour * 3600000000000 + (t.minute - t.offset) * 60000000000 + t.second * 1000000000 + t.nanos
  {
  }

  /** Midnight of a New Year's Day in UTC. */
  lemma YearBegins(y: nat)
    ensures Instant(Time(y, 1, 1, 0, 0, 0, 0, 0)) ==
            (365 * y + (y + 3) / 4 - (y + 99) / 100 + (y + 399) / 400 + 1) * 86400000000000
  {
    YearsAre(y);
    MonthsAre(y, 1);
  }

  lemma {:induction false} MonthsGrow(y: nat, m: nat, n: nat)
    requires 1 <= m < n
    ensures DaysBeforeMonth(y, m) + DaysIn(y, m) <= DaysBeforeMonth(y, n)
  {
    if m + 1 < n { MonthsGrow(y, m, n - 1); }
  }

  lemma {:induction false} YearsGrow(y: nat, z: nat)
    requires y < z
    ensures DaysBeforeYear(y) + DaysBeforeMonth(y, 13) <= DaysBeforeYear(z)
  {
    if y + 1 < z { YearsGrow(y, z - 1); }
  }

  /** Later dates have larger day numbers. */
  lemma DayNumberGrows(a: Time, b: Time)
    requires Valid(a) && Valid(b)
    requires a.year < b.year || (a.year == b.year && (a.month < b.month || (a.month == b.month && a.day < b.day)))
    ensures DayNumber(a) < DayNumber(b)
  {
    if a.year < b.year {
      YearsGrow(a.year, b.year);
      MonthsGrow(a.year, a.month, 13);
    } else if a.month < b.month {
      MonthsGrow(a.year, a.month, b.month);
    }
  }

  /** Two field lists compared from the year down. */
  predicate Earlier(a: Time, b: Time) {
    a.year < b.year || (a.year == b.year && (a.month < b.month ||
    (a.month == b.month && (a.day < b.day || (a.day == b.day && EarlierInDay(a, b))))))
  }

  lemma EarlierIsBefore(a: Time, b: Time)
    requires Valid(a) && Valid(b) && a.offset == b.offset == 0 && Earlier(a, b)
    ensures Instant(a) < Instant(b)
  {
    if a.year != b.year || a.month != b.month || a.day != b.day { DayNumberGrows(a, b); }
  }

  /** One fixed-width field followed by the rest. */
  lemma PartOrder(m: nat, u: string, n: nat, v: string, w: nat)
    requires m < Pow10(w) && n < Pow10(w)
    ensures Before(Fixed(m, w) + u, Fixed(n, w) + v) <==> m < n || (m == n && Before(u, v))
    ensures Fixed(m, w) + u == Fixed(n, w) + v ==> m == n && u == v
  {
    BeforeConcat(Fixed(m, w), u, Fixed(n, w), v);
    BeforeFixed(m, n, w);
    if Fixed(m, w) + u == Fixed(n, w) + v {
      assert (Fixed(m, w) + u)[..w] == (Fixed(n, w) + v)[..w];
      assert (Fixed(m, w) + u)[w..] == u && (Fixed(n, w) + v)[w..] == v;
    }
  }

  /** A literal followed by the rest. */
  lemma MarkOrder(mark: string, u: string, v: string)
    ensures Before(mark + u, mark + v) <==> Before(u, v)
    ensures mark + u == mark + v ==> u == v
  {
    BeforeConcat(mark, u, mark, v);
    NotBeforeItself(mark);
    if mark + u == mark + v { assert (mark + u)[|mark|..] == u && (mark + v)[|mark|..] == v; }
  }

  predicate EarlierInDay(a: Time, b: Time) {
    a.hour < b.hour || (a.hour == b.hour && (a.minute < b.minute ||
    (a.minute == b.minute && (a.second < b.second || (a.second == b.second && a.nanos < b.nanos)))))
  }

  lemma TimeOfDayOrder(a: Time, b: Time)
    requires Valid(a) && Valid(b)
    ensures Before(TimeOfDay(a), TimeOfDay(b)) <==> EarlierInDay(a, b)
    ensures TimeOfDay(a) == TimeOfDay(b) ==>
              a.hour == b.hour && a.minute == b.minute && a.second == b.second && a.nanos == b.nanos
  {
    assert Pow10(2) == 100 && Pow10(9) == 1000000000;
    var n1, n2 := Fixed(a.nanos, 9) + "Z", Fixed(b.nanos, 9) + "Z";
    var s1, s2 := Fixed(a.second, 2) + ("." + n1), Fixed(b.second, 2) + ("." + n2);
    NotBeforeItself("Z");
    PartOrder(a.nanos, "Z", b.nanos, "Z", 9);
    MarkOrder(".", n1, n2);
    PartOrder(a.second, "." + n1, b.second, "." + n2, 2);
    PartOrder(a.minute, s1, b.minute, s2, 2);
    PartOrder(a.hour, Fixed(a.minute, 2) + s1, b.hour, Fixed(b.minute, 2) + s2, 2);
  }

  lemma StampOrder(a: Time, b: Time)
    requires Valid(a) && Valid(b)
    ensures Before(Stamp(a), Stamp(b)) <==> Earlier(a, b)
    ensures Stamp(a) == Stamp(b) ==> a == b.(offset := a.offset)
  {
    assert Pow10(2) == 100 && Pow10(4) == 10000;
    TimeOfDayOrder(a, b);
    var d1, d2 := Fixed(a.day, 2) + ("T" + TimeOfDay(a)), Fixed(b.day, 2) + ("T" + TimeOfDay(b));
    MarkOrder("T", TimeOfDay(a), TimeOfDay(b));
    PartOrder(a.day, "T" + TimeOfDay(a), b.day, "T" + TimeOfDay(b), 2);
    PartOrder(a.month, d1, b.month, d2, 2);
    PartOrder(a.year, Fixed(a.month, 2) + d1, b.year, Fixed(b.month, 2) + d2, 4);
  }

  /** Stamps compare as strings exactly as the times they stand for. */
  lemma StampsFollowTime(a: Time, b: Time)
    requires Valid(a) && Valid(b) && a.offset == b.offset == 0
    ensures Before(Stamp(a), Stamp(b)) <==> Instant(a) < Instant(b)
  {
    StampOrder(a, b);
    if Earlier(a, b) {
      EarlierIsBefore(a, b);
    } else if Earlier(b, a) {
      EarlierIsBefore(b, a);
    } else {
      assert a == b;
    }
  }

  // ------------------------------------------------------ conversion to UTC

  /** Minutes since the start of the local day, read in UTC: it may lie in the
      day before or after. */
  function UtcMinutes(t: Time): int {
    t.hour * 60 + t.minute - t.offset
  }

  /** The year still has four digits in UTC. */
  predicate UtcFits(t: Time) {
    && (UtcMinutes(t) < 0 ==> t.year > 0 || t.month > 1 || t.day > 1)
    && (UtcMinutes(t) >= 1440 ==> t.year < 9999 || t.month < 12 || t.day < 31)
  }

  function NextDay(t: Time): Time {
    if t.day < DaysIn(t.year, t.month) then t.(day := t.day + 1)
    else if t.month < 12 then t.(month := t.month + 1, day := 1)
    else t.(year := t.year + 1, month := 1, day := 1)
  }

  function PreviousDay(t: Time): Time
    requires Valid(t) && (t.year > 0 || t.month > 1 || t.day > 1)
  {
    if t.day > 1 then t.(day := t.day - 1)
    else if t.month > 1 then t.(month := t.month - 1, day := DaysIn(t.year, t.month - 1))
    else t.(year := t.year - 1, month := 12, day := 31)
  }

  /** The clock of the UTC time, on the local date. */
  function UtcClock(t: Time): Time
    requires Valid(t)
  {
    var minutes := UtcMinutes(t) % 1440;
    t.(hour := minutes / 60, minute := minutes % 60, offset := 0)
  }

  function Utc(t: Time): Time
    requires Valid(t) && UtcFits(t)
  {
    if UtcMinutes(t) < 0 then UtcClock(PreviousDay(t))
    else if UtcMinutes(t) >= 1440 then UtcClock(NextDay(t))
    else UtcClock(t)
  }

  lemma StartsTooEarly(t: Time)
    requires Valid(t)
    ensures UtcMinutes(t) < 0 && t.year == 0 && t.month == 1 && t.day == 1 <==>
            Instant(t) < Instant(Time(0, 1, 1, 0, 0, 0, 0, 0))
  {
    hide DayNumber;
    var first := Time(0, 1, 1, 0, 0, 0, 0, 0);
    if t.year > 0 || t.month > 1 || t.day > 1 { DayNumberGrows(first, t); } else { SameDate(first, t); }
  }

  lemma EndsTooLate(t: Time)
    requires Valid(t)
    ensures UtcMinutes(t) >= 1440 && t.year == 9999 && t.month == 12 && t.day == 31 <==>
            Instant(t) > Instant(Time(9999, 12, 31, 23, 59, 59, 999999999, 0))
  {
    hide DayNumber;
    var last := Time(9999, 12, 31, 23, 59, 59, 999999999, 0);
    if t.year < 9999 || t.month < 12 || t.day < 31 { DayNumberGrows(t, last); } else { SameDate(t, last); }
  }

  /** The instants that have a four-digit year in UTC. */
  lemma UtcFitsIs(t: Time)
    requires Valid(t)
    ensures UtcFits(t) <==>
            Instant(Time(0, 1, 1, 0, 0, 0, 0, 0)) <= Instant(t) <=
            Instant(Time(9999, 12, 31, 23, 59, 59, 999999999, 0))
  {
    hide Instant;
    StartsTooEarly(t);
    EndsTooLate(t);
  }

  lemma SameDate(a: Time, b: Time)
    requires a.year == b.year && a.month == b.month && a.day == b.day
    ensures DayNumber(a) == DayNumber(b)
  {
  }

  predicate SameClock(t: Time, u: Time) {
    u == t.(year := u.year, month := u.month, day := u.day)
  }

  lemma NextDayIsNext(t: Time)
    requires Valid(t) && (t.year < 9999 || t.month < 12 || t.day < 31)
    ensures Valid(NextDay(t)) && DayNumber(NextDay(t)) == DayNumber(t) + 1 && SameClock(t, NextDay(t))
  {
  }

  lemma PreviousDayIsPrevious(t: Time)
    requires Valid(t) && (t.year > 0 || t.month > 1 || t.day > 1)
    ensures Valid(PreviousDay(t)) && DayNumber(PreviousDay(t)) == DayNumber(t) - 1 && SameClock(t, PreviousDay(t))
  {
    if t.day == 1 && t.month == 1 {
      var y := t.year - 1;
      assert DaysBeforeYear(t.year) == DaysBeforeYear(y) + DaysBeforeMonth(y, 13);
      assert DaysBeforeMonth(y, 13) == DaysBeforeMonth(y, 12) + 31;
    }
  }

  lemma UtcClockIs(t: Time)
    requires Valid(t)
    ensures var u := UtcClock(t);
            && Valid(u) && DayNumber(u) == DayNumber(t) && u.hour * 60 + u.minute == UtcMinutes(t) % 1440
            && u.second == t.second && u.nanos == t.nanos && u.offset == 0
  {
    hide DaysBeforeYear, DaysBeforeMonth;
  }

  /** Converting to UTC keeps the instant. */
  lemma UtcKeepsInstant(t: Time)
    requires Valid(t) && UtcFits(t)
    ensures Valid(Utc(t)) && Utc(t).offset == 0 && Instant(Utc(t)) == Instant(t)
  {
    hide DayNumber, NextDay, PreviousDay, UtcClock, DaysIn;
    var minutes := UtcMinutes(t);
    if minutes < 0 {
      PreviousDayIsPrevious(t);
      UtcClockIs(PreviousDay(t));
      assert minutes % 1440 == minutes + 1440;
    } else if minutes >= 1440 {
      NextDayIsNext(t);
      UtcClockIs(NextDay(t));
      assert minutes % 1440 == minutes - 1440;
    } else {
      UtcClockIs(t);
    }
  }

  /** The UTC time in the layout of Stamp. In UTC the year can run out of four
      digits on either side; Go then prints one character more. */
  function UtcStamp(t: Time): string
    requires Valid(t)
  {
    if UtcFits(t) then Stamp(Utc(t))
    else (if t.year == 0 then "-00011231T" else "100000101T") + TimeOfDay(UtcClock(t))
  }

  /** Outside them the date is written out, and the time of day is that of the day
      next to it. */
  lemma UtcStampOutside(t: Time) returns (u: Time)
    requires Valid(t) && !UtcFits(t)
    ensures Valid(u) && u.offset == 0
    ensures Instant(u) == Instant(t) + if t.year == 0 then 86400000000000 else -86400000000000
    ensures UtcStamp(t) == (if t.year == 0 then "-00011231T" else "100000101T") + Stamp(u)[9..]
  {
    hide DayNumber, Fixed, UtcClock;
    u := UtcClock(t);
    UtcClockIs(t);
    assert Stamp(u)[9..] == TimeOfDay(u);
  }

  /** The stamps of two times in any zones are ordered as strings exactly as the
      instants. */
  lemma UtcStampsFollowTime(a: Time, b: Time)
    requires Valid(a) && Valid(b) && UtcFits(a) && UtcFits(b)
    ensures Before(UtcStamp(a), UtcStamp(b)) <==> Instant(a) < Instant(b)
  {
    UtcKeepsInstant(a);
    UtcKeepsInstant(b);
    StampsFollowTime(Utc(a), Utc(b));
  }
}
