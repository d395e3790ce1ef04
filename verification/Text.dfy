/** The pieces of Go's strings package the store uses, on strings whose
    characters stand for bytes. Letter case and white space are ASCII. */
module Text {
  datatype Option<+T> = None | Some(value: T) {
    function GetOr(default: T): T {
      if Some? then value else default
    }
  }

  function LowerChar(c: char): char {
    if 'A' <= c <= 'Z' then c - 'A' + 'a' else c
  }

  function Lower(s: string): (r: string)
    ensures |r| == |s| && forall i | 0 <= i < |s| :: r[i] == LowerChar(s[i])
  {
    seq(|s|, i requires 0 <= i < |s| => LowerChar(s[i]))
  }

  /** Only the twenty-six capitals change, each to its own small letter. */
  lemma LowerIsAscii(s: string)
    ensures Lower("ABCDEFGHIJKLMNOPQRSTUVWXYZ") == "abcdefghijklmnopqrstuvwxyz"
    ensures (forall c | c in s :: c < 'A' || 'Z' < c) ==> Lower(s) == s
  {
    if forall c | c in s :: c < 'A' || 'Z' < c {
      forall i | 0 <= i < |s| ensures LowerChar(s[i]) == s[i] { assert s[i] in s; }
    }
  }

  const SPACES: set<char> := {' ', '\t', '\n', '\r', 11 as char, 12 as char}

  function TrimLeft(s: string, cut: set<char>): string {
    if s != [] && s[0] in cut then TrimLeft(s[1..], cut) else s
  }

  function TrimRight(s: string, cut: set<char>): string {
    if s != [] && s[|s| - 1] in cut then TrimRight(s[..|s| - 1], cut) else s
  }

  function Trim(s: string, cut: set<char>): string {
    TrimRight(TrimLeft(s, cut), cut)
  }

  function TrimSpace(s: string): string {
    Trim(s, SPACES)
  }

  ghost predicate Within(s: string, cut: set<char>) {
    forall i | 0 <= i < |s| :: s[i] in cut
  }

  /** Nothing left to trim. */
  predicate Trimmed(s: string, cut: set<char>) {
    s == [] || (s[0] !in cut && s[|s| - 1] !in cut)
  }

  lemma {:induction false} TrimLeftParts(s: string, cut: set<char>)
    returns (front: string)
    ensures s == front + TrimLeft(s, cut) && Within(front, cut)
    ensures TrimLeft(s, cut) != [] ==> TrimLeft(s, cut)[0] !in cut
  {
    if s != [] && s[0] in cut {
      var rest := TrimLeftParts(s[1..], cut);
      front := [s[0]] + rest;
    } else {
      front := [];
    }
  }

  lemma {:induction false} TrimRightParts(s: string, cut: set<char>)
    returns (back: string)
    ensures s == TrimRight(s, cut) + back && Within(back, cut)
    ensures TrimRight(s, cut) != [] ==> TrimRight(s, cut)[|TrimRight(s, cut)| - 1] !in cut
  {
    if s != [] && s[|s| - 1] in cut {
      var rest := TrimRightParts(s[..|s| - 1], cut);
      back := rest + [s[|s| - 1]];
    } else {
      back := [];
    }
  }

  /** What Trim cuts off, and that it leaves nothing to cut. */
  lemma TrimParts(s: string, cut: set<char>) returns (front: string, back: string)
    ensures s == front + Trim(s, cut) + back && Within(front, cut) && Within(back, cut)
    ensures Trimmed(Trim(s, cut), cut)
  {
    front := TrimLeftParts(s, cut);
    back := TrimRightParts(TrimLeft(s, cut), cut);
    if Trim(s, cut) != [] { assert TrimLeft(s, cut)[0] == Trim(s, cut)[0]; }
  }

  lemma TrimOfTrimmed(s: string, cut: set<char>)
    requires Trimmed(s, cut)
    ensures Trim(s, cut) == s
  {
  }

  /** Trimming is determined by what it cuts off. */
  lemma {:induction false} TrimUnique(front: string, s: string, back: string, cut: set<char>)
    requires Within(front, cut) && Within(back, cut) && Trimmed(s, cut)
    ensures Trim(front + s + back, cut) == s
  {
    var all := front + s + back;
    if front != [] {
      assert all[1..] == front[1..] + s + back;
      TrimUnique(front[1..], s, back, cut);
    } else if back != [] {
      assert all == s + back;
      if s == [] {
        assert all[1..] == front + s + back[1..];
        TrimUnique(front, s, back[1..], cut);
      } else {
        assert TrimLeft(all, cut) == all;
        assert all[..|all| - 1] == front + s + back[..|back| - 1];
        TrimUnique(front, s, back[..|back| - 1], cut);
        assert TrimLeft(all[..|all| - 1], cut) == all[..|all| - 1];
      }
    } else {
      assert all == s;
    }
  }

  /** White space is tab, line feed, vertical tab, form feed, carriage return and
      blank; TrimSpace takes it off both ends, and nothing else. */
  lemma TrimSpaceIs(front: string, s: string, back: string)
    requires forall c | c in front + back :: c as int in {9, 10, 11, 12, 13, 32}
    requires s == "" || (s[0] as int !in {9, 10, 11, 12, 13, 32} && s[|s| - 1] as int !in {9, 10, 11, 12, 13, 32})
    ensures TrimSpace(front + s + back) == s
  {
    forall i | 0 <= i < |front| ensures front[i] in SPACES { assert front[i] in front + back; }
    forall i | 0 <= i < |back| ensures back[i] in SPACES { assert back[i] in front + back; }
    TrimUnique(front, s, back, SPACES);
  }

  lemma LowerTwice(s: string)
    ensures Lower(Lower(s)) == Lower(s)
  {
  }

  /** Case folding changes no white space and makes none. */
  lemma TrimLowerCommute(s: string)
    ensures TrimSpace(Lower(s)) == Lower(TrimSpace(s))
  {
    var front, back := TrimParts(s, SPACES);
    var middle := TrimSpace(s);
    assert Lower(s) == Lower(front) + Lower(middle) + Lower(back);
    TrimUnique(Lower(front), Lower(middle), Lower(back), SPACES);
  }

  /** A normalised name stays as it is. */
  lemma NormalNameIsFixed(s: string)
    ensures Lower(TrimSpace(Lower(TrimSpace(s)))) == Lower(TrimSpace(s))
  {
    TrimLowerCommute(TrimSpace(s));
    var front, back := TrimParts(s, SPACES);
    TrimOfTrimmed(TrimSpace(s), SPACES);
    LowerTwice(TrimSpace(s));
  }

  // -------------------------------------------------------------- searching

  predicate At(s: string, i: int, sub: string) {
    0 <= i <= |s| - |sub| && s[i..i + |sub|] == sub
  }

  predicate Contains(s: string, sub: string) {
    exists i | 0 <= i <= |s| - |sub| :: At(s, i, sub)
  }

  predicate HasSuffix(s: string, suffix: string) {
    |suffix| <= |s| && s[|s| - |suffix|..] == suffix
  }

  predicate HasPrefix(s: string, prefix: string) {
    |prefix| <= |s| && s[..|prefix|] == prefix
  }

  function TrimPrefix(s: string, prefix: string): string {
    if HasPrefix(s, prefix) then s[|prefix|..] else s
  }

  /** Searching, by what is left around what is found. */
  lemma FoundIs(s: string, sub: string)
    ensures Contains(s, sub) <==> exists a, b :: s == a + sub + b
  {
    if Contains(s, sub) {
      var i :| 0 <= i <= |s| - |sub| && At(s, i, sub);
      assert s == s[..i] + sub + s[i + |sub|..];
    }
    forall a, b | s == a + sub + b ensures Contains(s, sub) { assert At(s, |a|, sub); }
  }

  lemma EndsAre(s: string, sub: string)
    ensures HasSuffix(s, sub) <==> exists a :: s == a + sub
    ensures HasPrefix(s, sub) <==> exists b :: s == sub + b
    ensures HasPrefix(s, sub) ==> s == sub + TrimPrefix(s, sub)
    ensures !HasPrefix(s, sub) ==> TrimPrefix(s, sub) == s
  {
    if HasSuffix(s, sub) { assert s == s[..|s| - |sub|] + sub; }
    if HasPrefix(s, sub) { assert s == sub + s[|sub|..]; }
  }

  lemma ContainsInside(front: string, s: string, back: string, sub: string)
    requires Contains(s, sub)
    ensures Contains(front + s + back, sub)
  {
    var i :| 0 <= i <= |s| - |sub| && At(s, i, sub);
    var all := front + s + back;
    assert all[|front| + i..|front| + i + |sub|] == s[i..i + |sub|];
    assert At(all, |front| + i, sub);
  }

  /** A word without the separator lies on one side of it. */
  lemma ContainsSplit(a: string, sep: char, b: string, sub: string)
    requires sep !in sub && Contains(a + [sep] + b, sub)
    ensures Contains(a, sub) || Contains(b, sub)
  {
    var all := a + [sep] + b;
    var i :| 0 <= i <= |all| - |sub| && At(all, i, sub);
    forall j | i <= j < i + |sub| ensures all[j] != sep { assert all[j] == all[i..i + |sub|][j - i]; }
    assert all[|a|] == sep;
    if i + |sub| <= |a| {
      assert all[i..i + |sub|] == a[i..i + |sub|];
      assert At(a, i, sub);
    } else if i > |a| {
      assert all[i..i + |sub|] == b[i - |a| - 1..i - |a| - 1 + |sub|];
      assert At(b, i - |a| - 1, sub);
    }
  }

  // ------------------------------------------------------ splitting, joining

  function Split(s: string, sep: char): (parts: seq<string>)
    ensures parts != []
  {
    if s == [] then [""]
    else
      var rest := Split(s[1..], sep);
      if s[0] == sep then [""] + rest else [[s[0]] + rest[0]] + rest[1..]
  }

  function Join(parts: seq<string>, sep: char): string {
    if parts == [] then ""
    else if |parts| == 1 then parts[0]
    else parts[0] + [sep] + Join(parts[1..], sep)
  }

  lemma {:induction false} SplitParts(s: string, sep: char)
    ensures forall p | p in Split(s, sep) :: sep !in p
    ensures Join(Split(s, sep), sep) == s
  {
    if s != [] {
      SplitParts(s[1..], sep);
      var rest := Split(s[1..], sep);
      assert s == [s[0]] + s[1..];
      if s[0] == sep {
        JoinEmpty(rest, sep);
        assert forall p | p in [""] + rest :: p == "" || p in rest;
      } else {
        JoinLonger(s[0], rest, sep);
        assert rest[0] in rest && forall p | p in rest[1..] :: p in rest;
        assert forall p | p in [[s[0]] + rest[0]] + rest[1..] :: p == [s[0]] + rest[0] || p in rest[1..];
      }
    }
  }

  lemma JoinEmpty(parts: seq<string>, sep: char)
    requires parts != []
    ensures Join([""] + parts, sep) == [sep] + Join(parts, sep)
  {
    assert ([""] + parts)[1..] == parts;
    assert "" + [sep] + Join(parts, sep) == [sep] + Join(parts, sep);
  }

  lemma JoinLonger(c: char, parts: seq<string>, sep: char)
    requires parts != []
    ensures Join([[c] + parts[0]] + parts[1..], sep) == [c] + Join(parts, sep)
  {
    var all := [[c] + parts[0]] + parts[1..];
    assert all[1..] == parts[1..];
    if |parts| > 1 {
      var tail := [sep] + Join(parts[1..], sep);
      assert Join(parts, sep) == parts[0] + tail && Join(all, sep) == [c] + parts[0] + tail;
    }
  }

  lemma {:induction false} SplitWord(s: string, sep: char)
    requires sep !in s
    ensures Split(s, sep) == [s]
  {
    if s != [] {
      SplitWord(s[1..], sep);
      assert [s[0]] + s[1..] == s;
    }
  }

  lemma {:induction false} SplitStep(word: string, sep: char, rest: string)
    requires sep !in word
    ensures Split(word + [sep] + rest, sep) == [word] + Split(rest, sep)
  {
    var all := word + [sep] + rest;
    if word == [] {
      assert all[1..] == rest;
    } else {
      assert all[1..] == word[1..] + [sep] + rest;
      SplitStep(word[1..], sep, rest);
      assert [word[0]] + word[1..] == word;
    }
  }

  lemma {:induction false} SplitConcat(a: string, sep: char, b: string)
    ensures Split(a + [sep] + b, sep) == Split(a, sep) + Split(b, sep)
  {
    var all := a + [sep] + b;
    if a == [] {
      assert all[1..] == b;
    } else {
      assert all[1..] == a[1..] + [sep] + b;
      SplitConcat(a[1..], sep, b);
    }
  }

  lemma SplitMore(s: string, sep: char)
    requires sep in s
    ensures |Split(s, sep)| >= 2
  {
    SplitParts(s, sep);
    assert Split(s, sep)[0] in Split(s, sep);
  }

  /** Split undoes Join. */
  lemma {:induction false} SplitJoin(parts: seq<string>, sep: char)
    requires parts != [] && forall p | p in parts :: sep !in p
    ensures Split(Join(parts, sep), sep) == parts
  {
    if |parts| == 1 {
      SplitWord(parts[0], sep);
    } else {
      SplitJoin(parts[1..], sep);
      SplitStep(parts[0], sep, Join(parts[1..], sep));
    }
  }

  // ---------------------------------------------------------------- numbers

  function Digit(d: nat): char
    requires d < 10
  {
    '0' + d as char
  }

  predicate IsDigit(c: char) {
    '0' <= c <= '9'
  }

  function Value(c: char): (v: nat)
    requires IsDigit(c)
    ensures v < 10 && Digit(v) == c
  {
    (c - '0') as int
  }

  /** Decimal without leading zeros, as %d prints it. */
  function Decimal(n: nat): (s: string)
    ensures s != [] && forall c | c in s :: IsDigit(c)
  {
    if n < 10 then [Digit(n)] else Decimal(n / 10) + [Digit(n % 10)]
  }

  lemma {:induction false} DecimalIsPlain(n: nat)
    ensures forall d | 0 <= d < 10 :: Digit(d) == "0123456789"[d]
    ensures n > 0 ==> Decimal(n)[0] != '0'
  {
    if n >= 10 { DecimalIsPlain(n / 10); }
  }

  /** The number a run of digits denotes. */
  function Number(s: string): nat
    requires forall c | c in s :: IsDigit(c)
  {
    if s == [] then 0 else 10 * Number(s[..|s| - 1]) + Value(s[|s| - 1])
  }

  lemma {:induction false} NumberOfDecimal(n: nat)
    ensures Number(Decimal(n)) == n
  {
    if n >= 10 {
      NumberOfDecimal(n / 10);
      var s := Decimal(n);
      assert s[..|s| - 1] == Decimal(n / 10);
    } else {
      assert Decimal(n)[..0] == [];
    }
  }

  lemma DecimalInjective(m: nat, n: nat)
    requires Decimal(m) == Decimal(n)
    ensures m == n
  {
    NumberOfDecimal(m);
    NumberOfDecimal(n);
  }

  function Pow10(w: nat): (p: nat)
    ensures p > 0
  {
    if w == 0 then 1 else 10 * Pow10(w - 1)
  }

  /** Exactly w digits, padded with zeros. */
  function Fixed(n: nat, w: nat): (s: string)
    ensures |s| == w && forall c | c in s :: IsDigit(c)
  {
    if w == 0 then "" else Fixed(n / 10, w - 1) + [Digit(n % 10)]
  }

  lemma {:induction false} NumberOfFixed(n: nat, w: nat)
    requires n < Pow10(w)
    ensures Number(Fixed(n, w)) == n
  {
    if w > 0 {
      assert n / 10 < Pow10(w - 1);
      NumberOfFixed(n / 10, w - 1);
      var s := Fixed(n, w);
      assert s[..|s| - 1] == Fixed(n / 10, w - 1);
    }
  }

  /** And every run of digits is its number printed at its own width. */
  lemma {:induction false} FixedOfNumber(s: string)
    requires forall c | c in s :: IsDigit(c)
    ensures Number(s) < Pow10(|s|) && Fixed(Number(s), |s|) == s
  {
    if s != [] {
      FixedOfNumber(s[..|s| - 1]);
      assert Number(s) / 10 == Number(s[..|s| - 1]);
      assert s == s[..|s| - 1] + [s[|s| - 1]];
    }
  }

  // ------------------------------------------------------------------ order

  /** Byte-wise string order, as sort.Strings uses. */
  predicate Before(a: string, b: string) {
    b != [] && (a == [] || a[0] < b[0] || (a[0] == b[0] && Before(a[1..], b[1..])))
  }

  /** A proper prefix comes first; otherwise the first difference decides. */
  lemma {:induction false} BeforeIs(a: string, b: string)
    ensures Before(a, b) <==>
            || (|a| < |b| && forall i | 0 <= i < |a| :: a[i] == b[i])
            || exists k | 0 <= k < |a| && k < |b| :: (forall i | 0 <= i < k :: a[i] == b[i]) && a[k] < b[k]
  {
    if a != [] && b != [] && a[0] == b[0] {
      var u, v := a[1..], b[1..];
      BeforeIs(u, v);
      assert forall i | 0 <= i < |u| :: u[i] == a[i + 1];
      assert forall i | 0 <= i < |v| :: v[i] == b[i + 1];
      if k :| 0 <= k < |u| && k < |v| && (forall i | 0 <= i < k :: u[i] == v[i]) && u[k] < v[k] {
        assert a[k + 1] < b[k + 1] && forall i | 1 <= i < k + 1 :: a[i] == u[i - 1] && b[i] == v[i - 1];
      }
      if k :| 0 <= k < |a| && k < |b| && (forall i | 0 <= i < k :: a[i] == b[i]) && a[k] < b[k] {
        assert u[k - 1] < v[k - 1] && forall i | 0 <= i < k - 1 :: u[i] == v[i];
      }
    }
  }

  lemma {:induction false} NotBeforeItself(a: string)
    ensures !Before(a, a)
  {
    if a != [] { NotBeforeItself(a[1..]); }
  }

  lemma {:induction false} BeforeTransitive(a: string, b: string, c: string)
    requires Before(a, b) && Before(b, c)
    ensures Before(a, c)
  {
    if a != [] && a[0] == b[0] == c[0] { BeforeTransitive(a[1..], b[1..], c[1..]); }
  }

  lemma {:induction false} BeforeTotal(a: string, b: string)
    ensures a == b || Before(a, b) || Before(b, a)
  {
    if a != [] && b != [] && a[0] == b[0] {
      BeforeTotal(a[1..], b[1..]);
      if a[1..] == b[1..] { assert a == [a[0]] + a[1..] && b == [b[0]] + b[1..]; }
    }
  }

  /** Strings that begin with equally long parts are ordered part by part. */
  lemma {:induction false} BeforeConcat(p: string, u: string, q: string, v: string)
    requires |p| == |q|
    ensures Before(p + u, q + v) <==> Before(p, q) || (p == q && Before(u, v))
  {
    if p == [] {
      assert p + u == u && q + v == v;
    } else {
      assert (p + u)[1..] == p[1..] + u && (q + v)[1..] == q[1..] + v;
      BeforeConcat(p[1..], u, q[1..], v);
      assert p == [p[0]] + p[1..] && q == [q[0]] + q[1..];
    }
  }

  /** Numbers printed at a fixed width are ordered as strings. */
  lemma {:induction false} BeforeFixed(m: nat, n: nat, w: nat)
    requires m < Pow10(w) && n < Pow10(w)
    ensures Before(Fixed(m, w), Fixed(n, w)) <==> m < n
    ensures Fixed(m, w) == Fixed(n, w) <==> m == n
  {
    if w > 0 {
      assert m / 10 < Pow10(w - 1) && n / 10 < Pow10(w - 1);
      BeforeFixed(m / 10, n / 10, w - 1);
      BeforeConcat(Fixed(m / 10, w - 1), [Digit(m % 10)], Fixed(n / 10, w - 1), [Digit(n % 10)]);
      NumberOfFixed(m, w);
      NumberOfFixed(n, w);
    }
  }
}
