/** The file names the store makes up, and why they never clash. */
module StorageNames {
  import opened Text

  predicate IsTimestamp(s: string) {
    |s| == 6 && forall c | c in s :: IsDigit(c)
  }

  /** The n-th name tried for one timestamp. */
  function Candidate(timestamp: string, n: nat): string
    requires n >= 1
  {
    if n == 1 then timestamp else timestamp + "-" + Decimal(n)
  }

  function BodyName(prefix: string): string {
    prefix + ".txt"
  }

  function AttachmentName(prefix: string, index: nat, ext: string): string {
    prefix + "_" + Decimal(index) + ext
  }

  /** The first name tried is the timestamp itself, later ones are numbered from 2;
      bodies end in ".txt", attachments are numbered from 1. */
  lemma NamesAre(timestamp: string, n: nat, prefix: string, index: nat, ext: string)
    requires n >= 2
    ensures Candidate(timestamp, 1) == timestamp && Candidate(timestamp, n) == timestamp + "-" + Decimal(n)
    ensures BodyName(prefix) == prefix + ".txt"
    ensures AttachmentName(prefix, index, ext) == prefix + "_" + Decimal(index) + ext
    ensures forall suffix :: IsDerivedSuffix(suffix) <==> suffix in {".detections.json", ".thumb.jpg"}
  {
  }

  predicate IsPrefix(p: string) {
    |p| >= 6 && forall c | c in p :: IsDigit(c) || c == '-'
  }

  predicate IsExtension(ext: string) {
    ext != [] && ext[0] == '.'
  }

  predicate HasSingleDot(ext: string) {
    IsExtension(ext) && '.' !in ext[1..]
  }

  /** The names derived from a video's name: its sidecar and its thumbnail. */
  predicate IsDerivedSuffix(suffix: string) {
    suffix == ".detections.json" || suffix == ".thumb.jpg"
  }

  lemma CandidateIsPrefix(timestamp: string, n: nat)
    requires IsTimestamp(timestamp) && n >= 1
    ensures IsPrefix(Candidate(timestamp, n))
  {
  }

  /** Distinct attempts and distinct timestamps give distinct candidates. */
  lemma CandidatesDiffer(t: string, m: nat, u: string, n: nat)
    requires IsTimestamp(t) && IsTimestamp(u) && m >= 1 && n >= 1
    requires Candidate(t, m) == Candidate(u, n)
    ensures t == u && m == n
  {
    var a, b := Candidate(t, m), Candidate(u, n);
    assert a[..6] == t && b[..6] == u;
    if m > 1 && n > 1 {
      assert a[7..] == Decimal(m) && b[7..] == Decimal(n);
      DecimalInjective(m, n);
    }
  }

  /** A separator that occurs in neither first part pins both parts down. */
  lemma CutUnique(a: string, u: string, b: string, v: string, sep: char)
    requires sep !in a && sep !in b && a + [sep] + u == b + [sep] + v
    ensures a == b && u == v
  {
    var s, t := a + [sep] + u, b + [sep] + v;
    assert s[|a|] == sep && t[|b|] == sep;
    assert forall k | 0 <= k < |a| :: s[k] == a[k] && a[k] != sep;
    assert forall k | 0 <= k < |b| :: t[k] == b[k] && b[k] != sep;
    assert s[..|a|] == a && t[..|b|] == b;
    assert s[|a| + 1..] == u && t[|b| + 1..] == v;
  }

  lemma PrefixPlain(p: string)
    requires IsPrefix(p)
    ensures '_' !in p && '.' !in p
  {
  }

  /** Prefix, index and extension can be read off an attachment's name. */
  lemma AttachmentNamesDiffer(p: string, i: nat, e: string, q: string, j: nat, f: string)
    requires IsPrefix(p) && IsPrefix(q) && IsExtension(e) && IsExtension(f)
    requires AttachmentName(p, i, e) == AttachmentName(q, j, f)
    ensures p == q && i == j && e == f
  {
    PrefixPlain(p);
    PrefixPlain(q);
    assert AttachmentName(p, i, e) == p + "_" + (Decimal(i) + e);
    assert AttachmentName(q, j, f) == q + "_" + (Decimal(j) + f);
    CutUnique(p, Decimal(i) + e, q, Decimal(j) + f, '_');
    assert e == "." + e[1..] && f == "." + f[1..];
    assert Decimal(i) + e == Decimal(i) + "." + e[1..] && Decimal(j) + f == Decimal(j) + "." + f[1..];
    CutUnique(Decimal(i), e[1..], Decimal(j), f[1..], '.');
    DecimalInjective(i, j);
  }

  lemma BodyNamesDiffer(p: string, q: string)
    requires BodyName(p) == BodyName(q)
    ensures p == q
  {
    assert BodyName(p)[..|p|] == p && BodyName(q)[..|q|] == q;
  }

  /** No attachment, sidecar or thumbnail has the name of a body. */
  lemma BodyIsNoAttachment(p: string, q: string, i: nat, rest: string)
    requires IsPrefix(p) && IsPrefix(q)
    ensures BodyName(p) != AttachmentName(q, i, rest)
  {
    PrefixPlain(p);
    assert AttachmentName(q, i, rest)[|q|] == '_';
    assert '_' !in BodyName(p);
    assert AttachmentName(q, i, rest)[|q|] in AttachmentName(q, i, rest);
  }

  lemma OneDot(stem: string, ext: string)
    requires '.' !in stem && HasSingleDot(ext)
    ensures forall k | 0 <= k < |stem + ext| :: (stem + ext)[k] == '.' ==> k == |stem|
  {
    forall k | 0 <= k < |stem + ext| && k != |stem| ensures (stem + ext)[k] != '.' {
      assert k < |stem| ==> (stem + ext)[k] == stem[k];
      assert k > |stem| ==> (stem + ext)[k] == ext[1..][k - |stem| - 1];
    }
  }

  /** With single-dot extensions a sidecar or thumbnail of any file whatever
      differs from every body and every attachment. */
  lemma DerivedNamesDiffer(video: string, suffix: string, p: string, i: nat, e: string)
    requires IsPrefix(p) && HasSingleDot(e) && IsDerivedSuffix(suffix)
    ensures video + suffix != BodyName(p)
    ensures video + suffix != AttachmentName(p, i, e)
  {
    var name := video + suffix;
    assert ".detections.json"[11] == '.' && ".thumb.jpg"[6] == '.';
    var gap := if suffix == ".thumb.jpg" then 6 else 11;
    assert name[|video|] == '.' && name[|video| + gap] == '.';
    PrefixPlain(p);
    OneDot(p, ".txt");
    OneDot(p + "_" + Decimal(i), e);
  }

  /** Even with other extensions, a sidecar or thumbnail of an attachment differs
      from every attachment, because index and prefix already name the video. */
  lemma DerivedOfAttachmentDiffers(p: string, i: nat, e: string, suffix: string, q: string, j: nat, f: string)
    requires IsPrefix(p) && IsPrefix(q) && IsExtension(e) && IsExtension(f) && IsDerivedSuffix(suffix)
    requires p == q && i == j ==> e == f
    ensures AttachmentName(p, i, e) + suffix != AttachmentName(q, j, f)
  {
    assert AttachmentName(p, i, e) + suffix == AttachmentName(p, i, e + suffix);
    assert |e + suffix| > |e|;
    if AttachmentName(p, i, e + suffix) == AttachmentName(q, j, f) {
      AttachmentNamesDiffer(p, i, e + suffix, q, j, f);
    }
  }

  // ------------------------------------------------------------ extensionFrom

  /** filepath.Ext: from the last dot of the last path element. */
  function Ext(path: string): string {
    if path == [] || path[|path| - 1] == '/' then ""
    else if path[|path| - 1] == '.' then "."
    else
      var front := Ext(path[..|path| - 1]);
      if front == "" then "" else front + [path[|path| - 1]]
  }

  lemma {:induction false} ExtShape(path: string)
    ensures Ext(path) == "" || HasSingleDot(Ext(path))
  {
    if path != [] && path[|path| - 1] != '/' && path[|path| - 1] != '.' {
      ExtShape(path[..|path| - 1]);
    }
  }

  lemma {:induction false} ExtIs(stem: string, w: string)
    requires '.' !in w && '/' !in w
    ensures Ext(stem + "." + w) == "." + w
    ensures stem == "" || stem[|stem| - 1] == '/' ==> Ext(stem + w) == ""
  {
    if w == "" {
      assert stem + "" == stem;
    } else {
      var front := w[..|w| - 1];
      assert w[|w| - 1] in w && forall c | c in front :: c in w;
      ExtIs(stem, front);
      assert (stem + "." + w)[..|stem + "." + w| - 1] == stem + "." + front;
      assert (stem + w)[..|stem + w| - 1] == stem + front;
    }
  }

  /** `byType` is what the MIME table lists for the media type. */
  function ExtensionFrom(filename: string, mediaType: string, byType: seq<string>): string {
    var ext := Lower(TrimSpace(Ext(filename)));
    if ext != "" then ext
    else if TrimSpace(mediaType) != "" && byType != [] then Lower(byType[0])
    else ".bin"
  }

  /** The name's own extension comes first, in small letters; without one the MIME
      table decides, and without that it is ".bin". */
  lemma ExtensionFromIs(stem: string, w: string, mediaType: string, byType: seq<string>)
    requires '.' !in w && '/' !in w
    ensures w != "" && w[|w| - 1] !in SPACES ==> ExtensionFrom(stem + "." + w, mediaType, byType) == "." + Lower(w)
    ensures stem == "" || stem[|stem| - 1] == '/' ==>
              ExtensionFrom(stem + w, mediaType, byType) ==
              if TrimSpace(mediaType) != "" && byType != [] then Lower(byType[0]) else ".bin"
  {
    ExtIs(stem, w);
    if w != "" && w[|w| - 1] !in SPACES {
      TrimOfTrimmed("." + w, SPACES);
      assert Lower("." + w) == "." + Lower(w);
    }
  }

  /** Trimming white space cannot touch the leading dot. */
  lemma TrimKeepsDot(ext: string)
    requires HasSingleDot(ext)
    ensures HasSingleDot(TrimSpace(ext))
  {
    assert TrimLeft(ext, SPACES) == ext;
    var back := TrimRightParts(ext, SPACES);
    var kept := TrimSpace(ext);
    assert ext == kept + back;
    assert (kept + back)[0] == '.' && '.' !in SPACES;
    assert kept != [];
    forall i | 1 <= i < |kept| ensures kept[i] != '.' { assert kept[i] == ext[1..][i - 1]; }
  }

  /** Every extension begins with a dot; only one from the MIME table can have more. */
  lemma ExtensionShape(filename: string, mediaType: string, byType: seq<string>)
    requires forall e | e in byType :: IsExtension(e)
    ensures IsExtension(ExtensionFrom(filename, mediaType, byType))
    ensures Ext(filename) != "" || byType == [] ==> HasSingleDot(ExtensionFrom(filename, mediaType, byType))
  {
    ExtShape(filename);
    assert byType != [] ==> byType[0] in byType;
    if Ext(filename) != "" {
      TrimKeepsDot(Ext(filename));
      var kept := TrimSpace(Ext(filename));
      forall i | 1 <= i < |kept| ensures Lower(kept)[i] != '.' { assert kept[1..][i - 1] == kept[i]; }
    }
  }
}
