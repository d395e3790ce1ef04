/** Links to stored files: percent-encoding (RFC 3986, section 2.1) and the
    resolver that maps a request path back to a file. */
module Paths {
  import opened Text
  import opened Encoding
  import opened Sorting

  // -------------------------------------------------------------- encoding

  /** What url.PathEscape leaves as it is inside a segment. */
  predicate Plain(c: char) {
    'a' <= c <= 'z' || 'A' <= c <= 'Z' || '0' <= c <= '9' || c in {'-', '_', '.', '~', '$', '&', '+', '=', ':', '@'}
  }

  function UpperHex(v: nat): (c: char)
    requires v < 16
    ensures HexValue(c) == Some(v) && c != '%'
  {
    if v < 10 then '0' + v as char else 'A' + (v - 10) as char
  }

  function EscapeChar(c: char): string {
    if Plain(c) then [c] else ['%', UpperHex(c as int / 16 % 16), UpperHex(c as int % 16)]
  }

  function PathEscape(s: string): string {
    if s == "" then "" else EscapeChar(s[0]) + PathEscape(s[1..])
  }

  /** url.PathUnescape: every % must begin an escape of two hexadecimal digits. */
  function PathUnescape(s: string): Option<string> {
    if s == "" then Some("")
    else if s[0] != '%' then
      var rest := PathUnescape(s[1..]);
      if rest.None? then None else Some([s[0]] + rest.value)
    else if |s| < 3 || HexValue(s[1]).None? || HexValue(s[2]).None? then None
    else
      var rest := PathUnescape(s[3..]);
      if rest.None? then None
      else Some([(HexValue(s[1]).value * 16 + HexValue(s[2]).value) as char] + rest.value)
  }

  /** Every % must be followed by two hexadecimal digits. */
  lemma {:induction false} UnescapeTakes(s: string)
    ensures PathUnescape(s).Some? <==> forall i | 0 <= i < |s| && s[i] == '%' ::
              i + 2 < |s| && HexValue(s[i + 1]).Some? && HexValue(s[i + 2]).Some?
  {
    hide HexValue;
    PercentIsNoDigit();
    if s != "" {
      var n := if s[0] == '%' then 3 else 1;
      if n <= |s| {
        var rest := s[n..];
        UnescapeTakes(rest);
        assert forall i | 0 <= i < |rest| :: rest[i] == s[i + n];
        assert forall i | n <= i < |s| :: s[i] == rest[i - n];
      }
    }
  }

  lemma PercentIsNoDigit()
    ensures HexValue('%').None?
  {
  }

  /** Each segment escaped, the separators kept. */
  function EscapeRelPath(rel: string): string {
    Join(MapSeq(Split(rel, '/'), PathEscape), '/')
  }

  method Escape(rel: string) returns (r: string)
    ensures r == EscapeRelPath(rel)
  {
    if rel == "" {
      assert MapSeq(Split(rel, '/'), PathEscape) == [""];
      return "";
    }
    var parts := Split(rel, '/');
    for i := 0 to |parts|
      invariant |parts| == |Split(rel, '/')|
      invariant forall k | 0 <= k < |parts| ::
                  parts[k] == if k < i then PathEscape(Split(rel, '/')[k]) else Split(rel, '/')[k]
    {
      parts := parts[i := PathEscape(parts[i])];
    }
    assert parts == MapSeq(Split(rel, '/'), PathEscape);
    r := Join(parts, '/');
  }

  /** The same, character by character. */
  function EscapeAll(s: string): string {
    if s == "" then ""
    else (if s[0] == '/' then ['/'] else EscapeChar(s[0])) + EscapeAll(s[1..])
  }

  lemma {:induction false} EscapeIsByCharacter(s: string)
    ensures EscapeRelPath(s) == EscapeAll(s)
  {
    if s == "" {
      assert MapSeq(Split(s, '/'), PathEscape) == [""];
    } else {
      EscapeIsByCharacter(s[1..]);
      EscapeStep(s);
    }
  }

  lemma EscapeStep(s: string)
    requires s != ""
    ensures EscapeRelPath(s) == (if s[0] == '/' then ['/'] else EscapeChar(s[0])) + EscapeRelPath(s[1..])
  {
    hide EscapeChar, Join;
    var rest, all := Split(s[1..], '/'), Split(s, '/');
    var r, a := MapSeq(rest, PathEscape), MapSeq(all, PathEscape);
    if s[0] == '/' {
      assert a == [""] + r && a[1..] == r;
      JoinEmpty(r, '/');
    } else {
      EscapeFirst(s[0], rest[0]);
      assert a == [EscapeChar(s[0]) + r[0]] + r[1..];
      JoinFirst(EscapeChar(s[0]), r, '/');
    }
  }

  lemma EscapeFirst(c: char, s: string)
    ensures PathEscape([c] + s) == EscapeChar(c) + PathEscape(s)
  {
    assert ([c] + s)[1..] == s;
  }

  lemma JoinFirst(front: string, parts: seq<string>, sep: char)
    requires parts != []
    ensures Join([front + parts[0]] + parts[1..], sep) == front + Join(parts, sep)
  {
    var a := [front + parts[0]] + parts[1..];
    assert a[1..] == parts[1..];
    if |parts| > 1 {
      var tail := [sep] + Join(parts[1..], sep);
      assert Join(parts, sep) == parts[0] + tail;
      assert Join(a, sep) == front + parts[0] + tail;
    }
  }

  lemma {:induction false} UnescapeConcat(a: string, b: string)
    requires '%' !in a
    ensures PathUnescape(a + b).Some? <==> PathUnescape(b).Some?
    ensures PathUnescape(b).Some? ==> PathUnescape(a + b) == Some(a + PathUnescape(b).value)
  {
    if a == "" {
      assert a + b == b;
      assert PathUnescape(b).Some? ==> a + PathUnescape(b).value == PathUnescape(b).value;
    } else {
      assert (a + b)[1..] == a[1..] + b && a[0] in a;
      UnescapeConcat(a[1..], b);
      var rest := PathUnescape(b);
      assert rest.Some? ==> [a[0]] + (a[1..] + rest.value) == a + rest.value;
    }
  }

  lemma UnescapeOfEscapedChar(c: char, rest: string)
    requires c as int < 256 && PathUnescape(rest).Some?
    ensures PathUnescape(EscapeChar(c) + rest) == Some([c] + PathUnescape(rest).value)
  {
    var all := EscapeChar(c) + rest;
    if Plain(c) {
      assert all[1..] == rest;
    } else {
      assert all[3..] == rest;
      HexPair(c as int);
    }
  }

  lemma HexPair(v: nat)
    requires v < 256
    ensures v / 16 % 16 * 16 + v % 16 == v
  {
  }

  /** A link holds letters, digits, '-', '.', '_', '~', the separator, the five
      sub-delimiters of a path segment that PathEscape keeps, and '%': no blank, '?'
      or '#'. Each of the others begins an escape of two digits. */
  lemma LinkCharacters(rel: string, c: char)
    requires c in EscapeRelPath(rel)
    ensures 'a' <= c <= 'z' || 'A' <= c <= 'Z' || '0' <= c <= '9' || c in "-._~/%$&+=:@"
  {
    EscapeIsByCharacter(rel);
    LinkCharacter(rel, c);
  }

  lemma {:induction false} LinkCharacter(s: string, c: char)
    requires c in EscapeAll(s)
    ensures 'a' <= c <= 'z' || 'A' <= c <= 'Z' || '0' <= c <= '9' || c in "-._~/%$&+=:@"
  {
    if s != "" && c in EscapeAll(s[1..]) { LinkCharacter(s[1..], c); }
  }

  /** What is kept is kept as it is, and everything else escaped in capitals. */
  lemma EscapesAre(c: char)
    requires c as int < 256
    ensures EscapeChar(c) ==
            if 'a' <= c <= 'z' || 'A' <= c <= 'Z' || '0' <= c <= '9' || c in "-._~$&+=:@" then [c]
            else ['%', "0123456789ABCDEF"[c as int / 16], "0123456789ABCDEF"[c as int % 16]]
  {
    hide UpperHex;
    UpperHexIs(c as int / 16);
    UpperHexIs(c as int % 16);
  }

  lemma UpperHexIs(v: nat)
    requires v < 16
    ensures UpperHex(v) == "0123456789ABCDEF"[v]
  {
  }

  /** Percent-decoding a link gives back the path, for all bytes. */
  lemma {:induction false} UnescapeOfEscapeAll(s: string)
    requires IsBytes(s)
    ensures PathUnescape(EscapeAll(s)) == Some(s)
  {
    if s != "" {
      UnescapeOfEscapeAll(s[1..]);
      assert [s[0]] + s[1..] == s;
      if s[0] == '/' {
        UnescapeConcat(['/'], EscapeAll(s[1..]));
      } else {
        UnescapeOfEscapedChar(s[0], EscapeAll(s[1..]));
      }
    }
  }

  lemma UnescapeOfEscape(rel: string)
    requires IsBytes(rel)
    ensures PathUnescape(EscapeRelPath(rel)) == Some(rel)
  {
    EscapeIsByCharacter(rel);
    UnescapeOfEscapeAll(rel);
  }

  // ------------------------------------------------------------- cleaning

  /** A segment path.Clean keeps as it is. */
  predicate Ordinary(segment: string) {
    segment != "" && segment != "." && segment != ".."
  }

  /** path.Clean on the segments of a rooted path: empty and "." segments go, ".."
      takes the segment before it away. */
  function Reduce(segments: seq<string>): seq<string> {
    if segments == [] then []
    else
      var front, last := Reduce(segments[..|segments| - 1]), segments[|segments| - 1];
      if last == "" || last == "." then front
      else if last == ".." then if front == [] then [] else front[..|front| - 1]
      else front + [last]
  }

  function Clean(path: string): string
    requires HasPrefix(path, "/")
  {
    "/" + Join(Reduce(Split(path[1..], '/')), '/')
  }

  ghost predicate AllOrdinary(segments: seq<string>) {
    forall p | p in segments :: Ordinary(p)
  }

  /** No empty, "." or ".." segment; or no segment at all. */
  ghost predicate Canonical(rel: string) {
    rel == "" || AllOrdinary(Split(rel, '/'))
  }

  lemma {:induction false} ReduceOrdinary(segments: seq<string>)
    requires AllOrdinary(segments)
    ensures Reduce(segments) == segments
  {
    if segments != [] {
      ReduceOrdinary(segments[..|segments| - 1]);
      assert segments[|segments| - 1] in segments;
      assert segments == segments[..|segments| - 1] + [segments[|segments| - 1]];
    }
  }

  /** What is left is ordinary, and made of segments that were there. */
  lemma {:induction false} ReduceParts(segments: seq<string>)
    ensures AllOrdinary(Reduce(segments)) && forall p | p in Reduce(segments) :: p in segments
  {
    if segments != [] {
      var before := segments[..|segments| - 1];
      ReduceParts(before);
      assert segments[|segments| - 1] in segments;
      assert forall p | p in before :: p in segments;
      var front := Reduce(before);
      assert forall i | 0 <= i < |front| :: front[i] in front;
      assert front != [] ==> forall p | p in front[..|front| - 1] :: p in front;
    }
  }

  function Length(segments: seq<string>): nat {
    if segments == [] then 0 else Length(segments[..|segments| - 1]) + |segments[|segments| - 1]| + 1
  }

  lemma {:induction false} ReduceShortens(segments: seq<string>)
    ensures Length(Reduce(segments)) <= Length(segments)
  {
    if segments != [] { ReduceShortens(segments[..|segments| - 1]); }
  }

  lemma {:induction false} LengthOfJoin(segments: seq<string>)
    requires segments != []
    ensures |Join(segments, '/')| + 1 == Length(segments)
  {
    LengthFront(segments);
    if |segments| > 1 { LengthOfJoin(segments[1..]); }
  }

  lemma {:induction false} LengthFront(segments: seq<string>)
    requires segments != []
    ensures Length(segments) == |segments[0]| + 1 + Length(segments[1..])
  {
    if |segments| > 1 {
      var front := segments[..|segments| - 1];
      LengthFront(front);
      assert front[1..] == segments[1..][..|segments| - 2];
    }
  }

  // ------------------------------------------------------------- resolving

  datatype Resolved = Found(rel: string, path: string) | Traversal | Escapes

  function Slash(c: char): char {
    if c == '\\' then '/' else c
  }

  /** What the resolver works on: the request path without the prefix, unescaped
      once more if it can be, with backslashes turned. */
  function Requested(urlPath: string, prefix: string): string {
    var rel := TrimPrefix(TrimPrefix(urlPath, prefix), "/");
    MapSeq(PathUnescape(rel).GetOr(rel), Slash)
  }

  function Resolve(root: string, urlPath: string, prefix: string): Resolved
    requires HasPrefix(root, "/")
  {
    var rel := Requested(urlPath, prefix);
    if ".." in Split(rel, '/') then Traversal
    else
      var cleanRel := TrimPrefix(Clean("/" + rel), "/");
      var path := Clean(if cleanRel == "" then root else root + "/" + cleanRel);
      if path != root && !HasPrefix(path, root + "/") then Escapes
      else Found(cleanRel, path)
  }

  /** The prefix and one slash come off, and without escapes the rest is taken as it
      is, backslashes turned. */
  lemma RequestedIs(prefix: string, rest: string)
    requires '%' !in rest && !HasPrefix(rest, "/")
    ensures var r := Requested(prefix + "/" + rest, prefix);
            && Requested(prefix + rest, prefix) == r && |r| == |rest|
            && forall i | 0 <= i < |r| :: r[i] == if rest[i] == '\\' then '/' else rest[i]
  {
    hide PathUnescape, TrimPrefix, HasPrefix;
    UnescapeLength(rest);
    assert prefix + "/" + rest == prefix + ("/" + rest);
    TrimOff(prefix, "/" + rest);
    TrimOff("/", rest);
    TrimOff(prefix, rest);
    TrimNothing(rest);
  }

  lemma TrimOff(prefix: string, rest: string)
    ensures TrimPrefix(prefix + rest, prefix) == rest
  {
  }

  lemma TrimNothing(rest: string)
    requires !HasPrefix(rest, "/")
    ensures TrimPrefix(rest, "/") == rest
  {
  }

  /** Without ".." segments cleaning drops the empty and "." ones and keeps the rest
      in order. */
  lemma {:induction false} ReduceDrops(a: seq<string>, b: seq<string>)
    requires ".." !in a && ".." !in b
    ensures Reduce(a + b) == Reduce(a) + Reduce(b)
    ensures forall p :: Reduce([p]) == if p == "" || p == "." || p == ".." then [] else [p]
  {
    if b == [] {
      assert a + b == a;
    } else {
      var front, last := b[..|b| - 1], b[|b| - 1];
      assert (a + b)[..|a + b| - 1] == a + front && last in b && forall p | p in front :: p in b;
      ReduceDrops(a, front);
    }
    forall p ensures Reduce([p]) == if p == "" || p == "." || p == ".." then [] else [p] {
      assert [p][..0] == [];
    }
  }

  /** A path is canonical if it is empty or no segment is empty, "." or "..". */
  lemma CanonicalIs(rel: string)
    ensures Canonical(rel) <==>
            rel == "" || ("" !in Split(rel, '/') && "." !in Split(rel, '/') && ".." !in Split(rel, '/'))
  {
    assert !Ordinary("") && !Ordinary(".") && !Ordinary("..");
  }

  /** A root is a slash and such a path. */
  lemma RootIs(root: string, rel: string)
    ensures IsRoot(root) <==> root != "" && root[0] == '/' && root[1..] != "" && Canonical(root[1..])
    ensures rel != "" ==> Under(root, rel) == root + "/" + rel
  {
    if root != "" {
      assert root[..1] == "/" <==> root[0] == '/';
      assert root == root[..1] + root[1..];
      if root[1..] == "" { assert Split(root[1..], '/') == [""]; }
    }
  }

  /** A storage root: absolute, clean, and not the root of the file system. */
  ghost predicate IsRoot(root: string) {
    HasPrefix(root, "/") && root != "/" && AllOrdinary(Split(root[1..], '/'))
  }

  function Under(root: string, rel: string): string {
    if rel == "" then root else root + "/" + rel
  }

  lemma {:induction false} CharOfJoin(parts: seq<string>, c: char)
    requires c != '/'
    ensures c in Join(parts, '/') <==> exists p | p in parts :: c in p
  {
    if parts != [] {
      CharOfJoin(parts[1..], c);
      assert parts == [parts[0]] + parts[1..];
      if |parts| == 1 { assert parts[1..] == []; }
    }
  }

  /** Cleaning makes any path canonical, keeps a canonical one, and adds nothing. */
  lemma CleanRel(rel: string)
    ensures var r := TrimPrefix(Clean("/" + rel), "/");
            && Canonical(r) && r == Join(Reduce(Split(rel, '/')), '/')
            && (Canonical(rel) ==> r == rel) && |r| <= |rel|
            && forall c | c != '/' && c !in rel :: c !in r
  {
    var parts := Split(rel, '/');
    var kept := Reduce(parts);
    assert ("/" + rel)[1..] == rel;
    SplitParts(rel, '/');
    ReduceParts(parts);
    ReduceShortens(parts);
    LengthOfJoin(parts);
    if kept != [] {
      LengthOfJoin(kept);
      forall p | p in kept ensures '/' !in p { assert p in parts; }
      SplitJoin(kept, '/');
    }
    if Canonical(rel) && rel != "" { ReduceOrdinary(parts); }
    forall c | c != '/' && c !in rel ensures c !in Join(kept, '/') {
      CharOfJoin(parts, c);
      CharOfJoin(kept, c);
    }
  }

  lemma CleanUnderRoot(root: string, rel: string)
    requires IsRoot(root) && Canonical(rel)
    ensures Clean(Under(root, rel)) == Under(root, rel)
  {
    var tail := root[1..];
    var path := Under(root, rel);
    assert root == "/" + tail;
    if rel != "" {
      assert path[1..] == tail + ['/'] + rel;
      SplitConcat(tail, '/', rel);
    } else {
      assert path[1..] == tail;
    }
    ReduceOrdinary(Split(path[1..], '/'));
    SplitParts(path[1..], '/');
    assert path == "/" + path[1..];
  }

  /** Everything the resolver answers, for every request path: it refuses exactly
      the paths with a ".." segment, and otherwise finds the cleaned path, which
      is canonical, has no backslash, and lies at its place under the root. The
      check that the path stays under the root never fires. */
  lemma ResolveAnswers(root: string, urlPath: string, prefix: string)
    requires IsRoot(root)
    ensures var requested := Requested(urlPath, prefix);
            var r := Resolve(root, urlPath, prefix);
            && !r.Escapes?
            && (r.Traversal? <==> ".." in Split(requested, '/'))
            && (r.Found? ==>
                  && r.rel == Join(Reduce(Split(requested, '/')), '/') && r.path == Under(root, r.rel)
                  && Canonical(r.rel) && '\\' !in r.rel && |r.rel| <= |requested|
                  && (Canonical(requested) ==> r.rel == requested))
  {
    var requested := Requested(urlPath, prefix);
    CleanRel(requested);
    CleanUnderRoot(root, TrimPrefix(Clean("/" + requested), "/"));
  }

  // ------------------------------------------------------------ round trips

  lemma {:induction false} UnescapeLength(s: string)
    ensures PathUnescape(s).Some? ==>
              if '%' in s then |PathUnescape(s).value| < |s| else PathUnescape(s).value == s
    ensures '%' !in s ==> PathUnescape(s).Some?
  {
    if s == "" {
    } else if s[0] != '%' {
      UnescapeLength(s[1..]);
      assert s == [s[0]] + s[1..];
    } else if |s| >= 3 {
      UnescapeLength(s[3..]);
    }
  }

  /** The link to a file, decoded once by the HTTP server, reaches the resolver as
      the prefix and the path. */
  lemma LinkArrives(prefix: string, rel: string)
    requires '%' !in prefix && IsBytes(rel)
    ensures PathUnescape(prefix + EscapeRelPath(rel)) == Some(prefix + rel)
  {
    UnescapeOfEscape(rel);
    UnescapeConcat(prefix, EscapeRelPath(rel));
  }

  lemma CanonicalStart(rel: string)
    requires Canonical(rel)
    ensures !HasPrefix(rel, "/") && ".." !in Split(rel, '/')
  {
    if rel != "" {
      assert Split(rel, '/')[0] in Split(rel, '/');
    } else {
      assert Split(rel, '/') == [""];
    }
  }

  /** Without a second unescaping the resolver works on the path itself. */
  lemma RequestedUnchanged(prefix: string, rel: string)
    requires Canonical(rel) && '\\' !in rel && ('%' !in rel || PathUnescape(rel).None?)
    ensures Requested(prefix + rel, prefix) == rel
  {
    CanonicalStart(rel);
    UnescapeLength(rel);
    assert TrimPrefix(prefix + rel, prefix) == rel;
    assert PathUnescape(rel).GetOr(rel) == rel;
    assert MapSeq(rel, Slash) == rel;
  }

  /** With one it works on something shorter. */
  lemma RequestedShorter(prefix: string, rel: string)
    requires Canonical(rel) && '%' in rel && PathUnescape(rel).Some?
    ensures |Requested(prefix + rel, prefix)| < |rel|
  {
    CanonicalStart(rel);
    UnescapeLength(rel);
    assert TrimPrefix(prefix + rel, prefix) == rel;
  }

  /** A link leads back to its own file exactly when the path is canonical, has no
      backslash, and has no '%' or one that begins no escape: otherwise the
      resolver unescapes a second time. */
  lemma LinkRoundTrip(root: string, prefix: string, rel: string)
    requires IsRoot(root) && '%' !in prefix && IsBytes(rel)
    ensures var arrives := PathUnescape(prefix + EscapeRelPath(rel));
            && arrives.Some?
            && (Resolve(root, arrives.value, prefix) == Found(rel, Under(root, rel)) <==>
                Canonical(rel) && '\\' !in rel && ('%' !in rel || PathUnescape(rel).None?))
  {
    LinkArrives(prefix, rel);
    ResolveAnswers(root, prefix + rel, prefix);
    if Canonical(rel) && '\\' !in rel {
      if '%' !in rel || PathUnescape(rel).None? {
        RequestedUnchanged(prefix, rel);
        CanonicalStart(rel);
      } else {
        RequestedShorter(prefix, rel);
      }
    }
  }
}
