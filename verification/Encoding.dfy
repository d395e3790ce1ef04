/** Byte encodings: base64url without padding (RFC 4648, section 5) and
    hexadecimal (section 8). */
module Encoding {
  import opened Text

  /** A string whose characters are bytes. */
  ghost predicate IsBytes(s: string) {
    forall i | 0 <= i < |s| :: s[i] as int < 256
  }

  type ByteString = s: string | IsBytes(s)

  // ---------------------------------------------------------------- base64

  function Symbol(v: nat): (c: char)
    requires v < 64
    ensures c != '\r' && c != '\n'
  {
    if v < 26 then 'A' + v as char
    else if v < 52 then 'a' + (v - 26) as char
    else if v < 62 then '0' + (v - 52) as char
    else if v == 62 then '-' else '_'
  }

  function SymbolValue(c: char): (v: Option<nat>)
    ensures v.Some? ==> v.value < 64
  {
    if 'A' <= c <= 'Z' then Some((c - 'A') as int)
    else if 'a' <= c <= 'z' then Some((c - 'a') as int + 26)
    else if '0' <= c <= '9' then Some((c - '0') as int + 52)
    else if c == '-' then Some(62)
    else if c == '_' then Some(63)
    else None
  }

  lemma ValueOfSymbol(v: nat)
    requires v < 64
    ensures SymbolValue(Symbol(v)) == Some(v)
  {
  }

  /** The alphabet of section 5: four runs of characters and two single ones. */
  lemma SymbolsAre(v: nat)
    requires v < 63
    ensures Symbol(0) == 'A' && Symbol(25) == 'Z' && Symbol(26) == 'a' && Symbol(51) == 'z'
    ensures Symbol(52) == '0' && Symbol(61) == '9' && Symbol(62) == '-' && Symbol(63) == '_'
    ensures v !in {25, 51, 61, 62} ==> Symbol(v + 1) as int == Symbol(v) as int + 1
  {
  }

  /** Only a symbol has a value. */
  lemma ValuesAreOfSymbols(c: char)
    requires SymbolValue(c).Some?
    ensures Symbol(SymbolValue(c).value) == c
  {
  }

  type Sextet = v: nat | v < 64

  /** Three bytes as four digits in base 64. */
  function Group(a: char, b: char, c: char): (d: seq<Sextet>)
    requires a as int < 256 && b as int < 256 && c as int < 256
    ensures |d| == 4
  {
    var n := a as int * 65536 + b as int * 256 + c as int;
    [n / 262144, n / 4096 % 64, n / 64 % 64, n % 64]
  }

  function Ungroup(d0: Sextet, d1: Sextet, d2: Sextet, d3: Sextet): (s: string)
    ensures |s| == 3
  {
    var n: int := d0 as int * 262144 + d1 as int * 4096 + d2 as int * 64 + d3 as int;
    [(n / 65536) as char, (n / 256 % 256) as char, (n % 256) as char]
  }

  /** A 24-bit number from its base-64 digits, and its bytes. */
  lemma FourDigits(n: nat)
    requires n < 16777216
    ensures n / 262144 * 262144 + n / 4096 % 64 * 4096 + n / 64 % 64 * 64 + n % 64 == n
  {
    var a, b := n / 64, n / 4096;
    assert a / 64 == b && b / 64 == n / 262144;
    assert n == a * 64 + n % 64 && a == b * 64 + a % 64 && b == b / 64 * 64 + b % 64;
  }

  lemma ThreeBytes(a: nat, b: nat, c: nat)
    requires a < 256 && b < 256 && c < 256
    ensures var n := a * 65536 + b * 256 + c; n / 65536 == a && n / 256 % 256 == b && n % 256 == c && n < 16777216
    ensures c == 0 ==> (a * 65536 + b * 256 + c) % 64 == 0
    ensures b == 0 && c == 0 ==> (a * 65536 + b * 256 + c) / 64 % 64 == 0
  {
  }

  lemma UngroupOfGroup(a: char, b: char, c: char)
    requires a as int < 256 && b as int < 256 && c as int < 256
    ensures var d := Group(a, b, c); Ungroup(d[0], d[1], d[2], d[3]) == [a, b, c]
    ensures c as int == 0 ==> Group(a, b, c)[3] == 0
    ensures b as int == 0 && c as int == 0 ==> Group(a, b, c)[2] == 0
  {
    ThreeBytes(a as int, b as int, c as int);
    FourDigits(a as int * 65536 + b as int * 256 + c as int);
  }

  /** One or two bytes at the end are two or three digits. */
  function Sextets(s: string): seq<Sextet>
    requires IsBytes(s)
  {
    if s == "" then []
    else if |s| == 1 then Group(s[0], 0 as char, 0 as char)[..2]
    else if |s| == 2 then Group(s[0], s[1], 0 as char)[..3]
    else Group(s[0], s[1], s[2]) + Sextets(s[3..])
  }

  function Encode(s: string): (r: string)
    requires IsBytes(s)
    ensures |r| == |Sextets(s)| && forall i | 0 <= i < |r| :: r[i] == Symbol(Sextets(s)[i])
  {
    seq(|Sextets(s)|, i requires 0 <= i < |Sextets(s)| => Symbol(Sextets(s)[i]))
  }

  /** The decoder skips line ends. */
  function WithoutLineEnds(s: string): string {
    if s == "" then ""
    else (if s[0] == '\r' || s[0] == '\n' then "" else [s[0]]) + WithoutLineEnds(s[1..])
  }

  /** The digits the symbols stand for, if all of them are symbols. */
  function Values(s: string): Option<seq<Sextet>> {
    if s == "" then Some([])
    else
      var v, rest := SymbolValue(s[0]), Values(s[1..]);
      if v.None? || rest.None? then None else Some([v.value] + rest.value)
  }

  /** A last group of two or three digits gives one or two bytes, whatever its
      spare bits are; a last group of one is an error. */
  function FromSextets(d: seq<Sextet>): Option<string> {
    if d == [] then Some("")
    else if |d| == 1 then None
    else if |d| == 2 then Some(Ungroup(d[0], d[1], 0, 0)[..1])
    else if |d| == 3 then Some(Ungroup(d[0], d[1], d[2], 0)[..2])
    else
      var rest := FromSextets(d[4..]);
      if rest.None? then None else Some(Ungroup(d[0], d[1], d[2], d[3]) + rest.value)
  }

  function Decode(s: string): Option<string> {
    var values := Values(WithoutLineEnds(s));
    if values.None? then None else FromSextets(values.value)
  }

  lemma {:induction false} NoLineEnds(s: string)
    requires forall i | 0 <= i < |s| :: s[i] != '\r' && s[i] != '\n'
    ensures WithoutLineEnds(s) == s
  {
    if s != "" {
      NoLineEnds(s[1..]);
      assert s == [s[0]] + s[1..];
    }
  }

  lemma {:induction false} ValuesOfSymbols(d: seq<Sextet>, s: string)
    requires |s| == |d| && forall i | 0 <= i < |s| :: s[i] == Symbol(d[i])
    ensures Values(s) == Some(d)
  {
    if s != "" {
      ValueOfSymbol(d[0]);
      ValuesOfSymbols(d[1..], s[1..]);
      assert d == [d[0]] + d[1..];
    }
  }

  lemma {:induction false} FromSextetsOfSextets(s: string)
    requires IsBytes(s)
    ensures FromSextets(Sextets(s)) == Some(s)
  {
    if |s| == 1 {
      UngroupOfGroup(s[0], 0 as char, 0 as char);
      assert [s[0], 0 as char, 0 as char][..1] == s;
    } else if |s| == 2 {
      UngroupOfGroup(s[0], s[1], 0 as char);
      assert [s[0], s[1], 0 as char][..2] == s;
    } else if |s| >= 3 {
      FromSextetsOfSextets(s[3..]);
      UngroupOfGroup(s[0], s[1], s[2]);
      assert Sextets(s)[4..] == Sextets(s[3..]);
      assert [s[0], s[1], s[2]] + s[3..] == s;
    }
  }

  /** Decoding undoes encoding, for all bytes. */
  lemma DecodeOfEncode(s: string)
    requires IsBytes(s)
    ensures Decode(Encode(s)) == Some(s)
  {
    NoLineEnds(Encode(s));
    ValuesOfSymbols(Sextets(s), Encode(s));
    FromSextetsOfSextets(s);
  }

  /** Decoding refuses exactly what, line ends aside, holds a foreign character or
      ends in a group of one. */
  lemma DecodeTakes(s: string)
    requires forall i | 0 <= i < |s| :: s[i] != '\r' && s[i] != '\n'
    ensures Decode(s).Some? <==> |s| % 4 != 1 && forall c | c in s :: SymbolValue(c).Some?
  {
    NoLineEnds(s);
    ValuesTake(s);
    if Values(s).Some? { FromSextetsTake(Values(s).value); }
  }

  lemma {:induction false} ValuesTake(s: string)
    ensures Values(s).Some? <==> forall c | c in s :: SymbolValue(c).Some?
    ensures Values(s).Some? ==> |Values(s).value| == |s|
  {
    if s != "" {
      ValuesTake(s[1..]);
      assert s == [s[0]] + s[1..];
    }
  }

  lemma {:induction false} FromSextetsTake(d: seq<Sextet>)
    ensures FromSextets(d).Some? <==> |d| % 4 != 1
  {
    hide Ungroup;
    if |d| >= 4 { FromSextetsTake(d[4..]); }
  }

  // ----------------------------------------------------------- hexadecimal

  function HexDigit(v: nat): (c: char)
    requires v < 16
    ensures c != '|' && c as int < 256
  {
    if v < 10 then '0' + v as char else 'a' + (v - 10) as char
  }

  function HexValue(c: char): (v: Option<nat>)
    ensures v.Some? ==> v.value < 16
  {
    if '0' <= c <= '9' then Some((c - '0') as int)
    else if 'a' <= c <= 'f' then Some((c - 'a') as int + 10)
    else if 'A' <= c <= 'F' then Some((c - 'A') as int + 10)
    else None
  }

  function EncodeHex(s: string): (r: string)
    requires IsBytes(s)
    ensures IsBytes(r) && '|' !in r
  {
    if s == "" then "" else [HexDigit(s[0] as int / 16), HexDigit(s[0] as int % 16)] + EncodeHex(s[1..])
  }

  function DecodeHex(s: string): Option<string> {
    if s == "" then Some("")
    else if |s| == 1 then None
    else
      var high, low, rest := HexValue(s[0]), HexValue(s[1]), DecodeHex(s[2..]);
      if high.None? || low.None? || rest.None? then None
      else Some([(high.value * 16 + low.value) as char] + rest.value)
  }

  /** Small letters are printed, both cases are read. */
  lemma HexDigitsAre(v: nat, c: char)
    requires v < 16
    ensures HexDigit(v) == "0123456789abcdef"[v]
    ensures HexValue(c).Some? <==> c in "0123456789abcdefABCDEF"
  {
    var digits := "0123456789abcdefABCDEF";
    assert forall i | 0 <= i < 22 :: HexValue(digits[i]).Some?;
    if HexValue(c).Some? {
      assert c == digits[HexValue(c).value] || c == digits[HexValue(c).value + 6];
    }
  }

  /** Pairs of hexadecimal digits are read, and nothing else. */
  lemma {:induction false} DecodeHexTakes(s: string)
    ensures DecodeHex(s).Some? <==> |s| % 2 == 0 && forall c | c in s :: HexValue(c).Some?
    ensures DecodeHex(s).Some? ==> |DecodeHex(s).value| == |s| / 2
  {
    hide HexValue;
    if |s| >= 2 {
      DecodeHexTakes(s[2..]);
      assert s == [s[0], s[1]] + s[2..];
    }
  }

  /** Each pair is a byte, the high digit first. */
  lemma {:induction false} DecodeHexIs(s: string, i: nat)
    requires DecodeHex(s).Some? && 2 * i + 1 < |s|
    ensures i < |DecodeHex(s).value| && HexValue(s[2 * i]).Some? && HexValue(s[2 * i + 1]).Some?
    ensures DecodeHex(s).value[i] as int == HexValue(s[2 * i]).value * 16 + HexValue(s[2 * i + 1]).value
  {
    if i > 0 {
      DecodeHexIs(s[2..], i - 1);
      assert s[2..][2 * (i - 1)] == s[2 * i] && s[2..][2 * (i - 1) + 1] == s[2 * i + 1];
    }
  }

  lemma DecodeHexNothing()
    ensures DecodeHex("") == Some("")
  {
  }

  lemma DecodeHexPair(high: char, low: char, rest: string)
    requires HexValue(high).Some? && HexValue(low).Some? && DecodeHex(rest).Some?
    ensures DecodeHex([high, low] + rest) ==
            Some([(HexValue(high).value * 16 + HexValue(low).value) as char] + DecodeHex(rest).value)
  {
    assert ([high, low] + rest)[2..] == rest;
  }

  lemma ValueOfHexDigit(v: nat)
    requires v < 16
    ensures HexValue(HexDigit(v)) == Some(v)
  {
  }

  lemma {:induction false} DecodeOfEncodeHex(s: string)
    requires IsBytes(s)
    ensures DecodeHex(EncodeHex(s)) == Some(s)
  {
    hide HexDigit, HexValue, DecodeHex;
    if s == "" {
      DecodeHexNothing();
    } else {
      DecodeOfEncodeHex(s[1..]);
      ValueOfHexDigit(s[0] as int / 16);
      ValueOfHexDigit(s[0] as int % 16);
      DecodeHexPair(HexDigit(s[0] as int / 16), HexDigit(s[0] as int % 16), EncodeHex(s[1..]));
      assert s == [s[0]] + s[1..];
    }
  }
}
