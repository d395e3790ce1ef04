/** The folder name made from a recipient's address. */
module Recipient {
  import opened Sorting
  import opened Text

  /** What the program asks Unicode about a character. */
  datatype Runes = Runes(lower: char -> char, isLetterOrDigit: char -> bool, spaces: set<char>) {
    predicate IsAllowed(c: char) {
      isLetterOrDigit(c) || c in {'@', '.', '_', '+', '-'}
    }

    function Substitute(c: char): char {
      if IsAllowed(c) then c else '_'
    }

    /** ASCII as everyone knows it, lower case that stays lower case, and no white
        space among the characters a folder may keep. */
    ghost predicate Regular() {
      && (forall c: char | c as int < 128 :: lower(c) == LowerChar(c))
      && (forall c: char | c as int < 128 :: isLetterOrDigit(c) <==> 'a' <= LowerChar(c) <= 'z' || IsDigit(c))
      && (forall c: char :: lower(lower(c)) == lower(c))
      && (forall c | c in spaces :: !IsAllowed(c))
    }
  }

  const ASCII := Runes(LowerChar, (c: char) => 'a' <= LowerChar(c) <= 'z' || IsDigit(c), SPACES)

  lemma AsciiIsRegular()
    ensures ASCII.Regular()
  {
    assert forall c | c in SPACES :: c as int <= 32;
    assert forall c | ASCII.IsAllowed(c) :: c as int > 32;
  }

  const CUT: set<char> := {'.', '_'}
  const UNKNOWN := "unknown"

  /** The name the loop is to produce. */
  function FolderFor(u: Runes, address: string): string {
    var out := Trim(MapSeq(Trim(MapSeq(address, u.lower), u.spaces), u.Substitute), CUT);
    if out == "" then UNKNOWN else out
  }

  method NormalizeRecipientFolder(u: Runes, address: string) returns (out: string)
    requires u.Regular()
    ensures out == FolderFor(u, address)
    ensures IsFolderName(u, out)
  {
    FolderNameShape(u, address);
    var input := Trim(MapSeq(address, u.lower), u.spaces);
    if input == "" {
      assert MapSeq(input, u.Substitute) == "";
      return UNKNOWN;
    }
    var b := "";
    for i := 0 to |input|
      invariant |b| == i && forall k | 0 <= k < i :: b[k] == u.Substitute(input[k])
    {
      var r := input[i];
      if u.isLetterOrDigit(r) {
        b := b + [r];
      } else if r in {'@', '.', '_', '+', '-'} {
        b := b + [r];
      } else {
        b := b + ['_'];
      }
    }
    assert b == MapSeq(input, u.Substitute);
    out := Trim(b, CUT);
    if out == "" { out := UNKNOWN; }
  }

  /** A single path component that is neither "." nor "..". */
  ghost predicate IsFolderName(u: Runes, s: string) {
    && s != "" && (forall c | c in s :: u.IsAllowed(c) && u.lower(c) == c && c != '/')
    && s[0] != '.' && s[0] != '_' && s[|s| - 1] != '.' && s[|s| - 1] != '_'
  }

  lemma TrimKeeps(s: string, cut: set<char>, c: char)
    requires c in Trim(s, cut)
    ensures c in s
  {
    var front, back := TrimParts(s, cut);
  }

  lemma FolderNameShape(u: Runes, address: string)
    requires u.Regular()
    ensures IsFolderName(u, FolderFor(u, address))
  {
    var mapped := MapSeq(Trim(MapSeq(address, u.lower), u.spaces), u.Substitute);
    var out := Trim(mapped, CUT);
    var front, back := TrimParts(mapped, CUT);
    forall c | c in out ensures u.IsAllowed(c) && u.lower(c) == c && c != '/' {
      TrimKeeps(mapped, CUT, c);
      MappedChar(u, address, c);
    }
    UnknownIsFine(u);
  }

  lemma UnknownIsFine(u: Runes)
    requires u.Regular()
    ensures IsFolderName(u, UNKNOWN)
  {
    assert forall c | c in UNKNOWN :: 'a' <= c <= 'z';
  }

  /** A lower-case character is kept or becomes an underscore. */
  lemma MappedChar(u: Runes, address: string, c: char)
    requires u.Regular() && c in MapSeq(Trim(MapSeq(address, u.lower), u.spaces), u.Substitute)
    ensures u.IsAllowed(c) && u.lower(c) == c && c != '/'
  {
    var input := Trim(MapSeq(address, u.lower), u.spaces);
    var i :| 0 <= i < |input| && u.Substitute(input[i]) == c;
    assert input[i] in input;
    TrimKeeps(MapSeq(address, u.lower), u.spaces, input[i]);
    var j :| 0 <= j < |address| && u.lower(address[j]) == input[i];
  }

  /** Between letters or digits every character is kept in lower case or becomes an
      underscore, one for one. */
  lemma FolderIsByCharacter(u: Runes, address: string)
    requires u.Regular() && address != ""
    requires u.isLetterOrDigit(u.lower(address[0])) && u.isLetterOrDigit(u.lower(address[|address| - 1]))
    ensures |FolderFor(u, address)| == |address|
    ensures forall i | 0 <= i < |address| ::
              var c := u.lower(address[i]);
              FolderFor(u, address)[i] ==
              if u.isLetterOrDigit(c) || c == '@' || c == '.' || c == '_' || c == '+' || c == '-' then c else '_'
  {
    var lowered := MapSeq(address, u.lower);
    TrimOfTrimmed(lowered, u.spaces);
    var mapped := MapSeq(lowered, u.Substitute);
    assert LowerChar('.') == '.' && LowerChar('_') == '_' && '.' as int < 128 && '_' as int < 128;
    TrimOfTrimmed(mapped, CUT);
  }

  /** With nothing else than dots, underscores and characters to replace, the folder
      is "unknown". */
  lemma NamelessIsUnknown(u: Runes, address: string)
    requires forall c | c in address ::
               !u.isLetterOrDigit(u.lower(c)) && u.lower(c) != '@' && u.lower(c) != '+' && u.lower(c) != '-'
    ensures FolderFor(u, address) == "unknown"
  {
    var input := Trim(MapSeq(address, u.lower), u.spaces);
    var mapped := MapSeq(input, u.Substitute);
    forall i | 0 <= i < |mapped| ensures mapped[i] in CUT {
      assert input[i] in input;
      TrimKeeps(MapSeq(address, u.lower), u.spaces, input[i]);
      var j :| 0 <= j < |address| && u.lower(address[j]) == input[i];
      assert address[j] in address;
    }
    TrimUnique(mapped, "", "", CUT);
    assert mapped + "" + "" == mapped;
  }

  /** A folder name is its own folder name. */
  lemma FolderNameIsFixed(u: Runes, name: string)
    requires u.Regular() && IsFolderName(u, name)
    ensures FolderFor(u, name) == name
  {
    forall i | 0 <= i < |name| ensures u.lower(name[i]) == name[i] && u.Substitute(name[i]) == name[i] {
      assert name[i] in name;
    }
    assert MapSeq(name, u.lower) == name;
    assert name[0] in name && name[|name| - 1] in name;
    TrimOfTrimmed(name, u.spaces);
    assert MapSeq(name, u.Substitute) == name;
    TrimOfTrimmed(name, CUT);
  }

  lemma FolderForIsIdempotent(u: Runes, address: string)
    requires u.Regular()
    ensures FolderFor(u, FolderFor(u, address)) == FolderFor(u, address)
  {
    FolderNameShape(u, address);
    FolderNameIsFixed(u, FolderFor(u, address));
  }
}
