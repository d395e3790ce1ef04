/** What one spool item looks like on disk, and how its name is made. */
module SpoolItem {
  import opened Text
  import opened CivilTime

  const META_OPEN := "{\"received_at\":\""
  const META_CLOSE := "\"}"
  const META_MAX: nat := 54

  /** The JSON object json.Marshal prints, and the newline after it. */
  function MetaLine(at: Time): string
    requires Valid(at)
  {
    META_OPEN + Format(at) + META_CLOSE + "\n"
  }

  /** The bytes Enqueue writes. */
  function Content(raw: string, at: Time): string
    requires Valid(at)
  {
    MetaLine(at) + raw
  }

  datatype Item = Item(receivedAt: string, raw: string)

  function FirstNewline(s: string): (i: nat)
    ensures i <= |s| && '\n' !in s[..i] && (i < |s| ==> s[i] == '\n')
  {
    if s == [] || s[0] == '\n' then 0
    else
      var i := FirstNewline(s[1..]);
      assert s[..i + 1] == [s[0]] + s[1..][..i];
      i + 1
  }

  /** The received_at string of a metadata object in the form Enqueue prints. */
  function ParseMeta(line: string): Option<string> {
    if HasPrefix(line, META_OPEN) && HasSuffix(line, META_CLOSE) && |line| >= |META_OPEN| + |META_CLOSE| then
      var value := line[|META_OPEN|..|line| - |META_CLOSE|];
      if '\"' in value || '\\' in value then None else Some(value)
    else None
  }

  function ReadItem(content: string): Option<Item> {
    var i := FirstNewline(content);
    if i == |content| then None
    else
      match ParseMeta(TrimSpace(content[..i + 1]))
      case None => None
      case Some(at) => Some(Item(at, content[i + 1..]))
  }

  /** The time the worker stores the item under; an unreadable one becomes now. */
  function ReceivedAt(item: Item, now: Time): Time {
    match Parse(item.receivedAt)
    case None => now
    case Some(t) => t
  }

  /** The line without its newline. */
  function MetaText(at: Time): string
    requires Valid(at)
  {
    META_OPEN + Format(at) + META_CLOSE
  }

  lemma MetaHasNoNewline(at: Time)
    requires Valid(at)
    ensures '\n' !in MetaText(at)
  {
    FormatPlain(at);
    assert forall c | c in META_OPEN :: c != '\n';
    assert forall c | c in META_CLOSE :: c != '\n';
    assert forall c | c in MetaText(at) :: c in META_OPEN || c in Format(at) || c in META_CLOSE;
  }

  lemma TrimOfMeta(at: Time)
    requires Valid(at)
    ensures TrimSpace(MetaLine(at)) == MetaText(at)
  {
    hide Format;
    var text := MetaText(at);
    assert text[0] == '{' && text[|text| - 1] == '}';
    TrimUnique("", text, "\n", SPACES);
    assert "" + text + "\n" == MetaLine(at);
  }

  lemma ParseOfMeta(value: string)
    requires '\"' !in value && '\\' !in value
    ensures ParseMeta(META_OPEN + value + META_CLOSE) == Some(value)
  {
    var text := META_OPEN + value + META_CLOSE;
    assert text[|text| - 2..] == META_CLOSE;
    assert text[..16] == META_OPEN;
    assert text[16..|text| - 2] == value;
  }

  lemma {:induction false} FirstNewlineAfter(line: string, rest: string)
    requires '\n' !in line
    ensures FirstNewline(line + "\n" + rest) == |line|
  {
    var all := line + "\n" + rest;
    if line == [] {
      assert all[0] == '\n';
    } else {
      assert all[1..] == line[1..] + "\n" + rest;
      FirstNewlineAfter(line[1..], rest);
    }
  }

  /** Reading back what Enqueue wrote gives exactly the raw message, newlines
      included, and the time it was received at, field by field. */
  lemma ReadBack(raw: string, at: Time, now: Time)
    requires Valid(at)
    ensures Content(raw, at) == "{\"received_at\":\"" + Format(at) + "\"}" + "\n" + raw
    ensures ReadItem(Content(raw, at)) == Some(Item(Format(at), raw))
    ensures ReceivedAt(Item(Format(at), raw), now) == at
  {
    var text := MetaText(at);
    MetaHasNoNewline(at);
    TrimOfMeta(at);
    FormatPlain(at);
    ParseOfMeta(Format(at));
    FirstNewlineAfter(text, raw);
    assert Content(raw, at) == text + "\n" + raw;
    var content := Content(raw, at);
    assert content[..|text| + 1] == MetaLine(at);
    assert content[|text| + 1..] == raw;
    ParseOfFormat(at);
  }

  lemma MetaLineIsShort(at: Time)
    requires Valid(at)
    ensures |MetaLine(at)| <= 54 == META_MAX
  {
    FormatPlain(at);
  }

  /** A readable item is one line of metadata, in the form Enqueue prints up to white
      space around it, and everything after it. */
  lemma ReadItemIs(content: string, value: string, raw: string)
    ensures ReadItem(content) == Some(Item(value, raw)) <==>
            && '\"' !in value && '\\' !in value
            && exists line :: '\n' !in line && content == line + "\n" + raw &&
                 TrimSpace(line + "\n") == "{\"received_at\":\"" + value + "\"}"
  {
    if ReadItem(content) == Some(Item(value, raw)) {
      var i := FirstNewline(content);
      var line := content[..i];
      assert content == line + "\n" + raw && content[..i + 1] == line + "\n";
      ParseMetaIs(TrimSpace(line + "\n"), value);
    }
    forall line | '\n' !in line && content == line + "\n" + raw &&
                  TrimSpace(line + "\n") == "{\"received_at\":\"" + value + "\"}" &&
                  '\"' !in value && '\\' !in value
      ensures ReadItem(content) == Some(Item(value, raw))
    {
      FirstNewlineAfter(line, raw);
      assert content[..|line| + 1] == line + "\n" && content[|line| + 1..] == raw;
      ParseMetaIs(TrimSpace(line + "\n"), value);
    }
  }

  lemma ParseMetaIs(text: string, value: string)
    ensures ParseMeta(text) == Some(value) <==>
            '\"' !in value && '\\' !in value && text == "{\"received_at\":\"" + value + "\"}"
  {
    if ParseMeta(text) == Some(value) {
      assert text == text[..16] + text[16..|text| - 2] + text[|text| - 2..];
    }
    if '\"' !in value && '\\' !in value { ParseOfMeta(value); }
  }

  /** A time that cannot be read is replaced by the present one. */
  lemma ReceivedAtIs(value: string, raw: string, now: Time)
    ensures Parse(value) == Some(ReceivedAt(Item(value, raw), now)) ||
            (Parse(value) == None && ReceivedAt(Item(value, raw), now) == now)
  {
  }

  /** The date folder and the base name of the stored files. */
  function Place(at: Time): (string, string) {
    (Fixed(at.year, 4) + "/" + Fixed(at.month, 2) + "/" + Fixed(at.day, 2),
     Fixed(at.hour, 2) + Fixed(at.minute, 2) + Fixed(at.second, 2))
  }

  /** Year, month and day are the folder's segments, the time of day the base name. */
  lemma PlaceIs(at: Time)
    requires Valid(at)
    ensures var parts := Split(Place(at).0, '/');
            && |parts| == 3 && |parts[0]| == 4 && |parts[1]| == |parts[2]| == 2
            && Field(parts[0], 0, 4) == Some(at.year) && Field(parts[1], 0, 2) == Some(at.month)
            && Field(parts[2], 0, 2) == Some(at.day)
    ensures var base := Place(at).1;
            && |base| == 6 && Field(base, 0, 2) == Some(at.hour) && Field(base, 2, 4) == Some(at.minute)
            && Field(base, 4, 6) == Some(at.second)
  {
    hide Field;
    var y, m, d := Fixed(at.year, 4), Fixed(at.month, 2), Fixed(at.day, 2);
    assert forall c | c in y + m + d :: c in y || c in m || c in d;
    SplitWord(d, '/');
    SplitStep(m, '/', d);
    SplitStep(y, '/', m + "/" + d);
    assert y + "/" + (m + "/" + d) == Place(at).0;
    assert Pow10(2) == 100 && Pow10(4) == 10000;
    assert y[0..4] == y && m[0..2] == m && d[0..2] == d;
    FieldOfFixed(y, 0, at.year, 4);
    FieldOfFixed(m, 0, at.month, 2);
    FieldOfFixed(d, 0, at.day, 2);
    BaseIs(at);
  }

  lemma BaseIs(at: Time)
    requires Valid(at)
    ensures var base := Place(at).1;
            && |base| == 6 && Field(base, 0, 2) == Some(at.hour) && Field(base, 2, 4) == Some(at.minute)
            && Field(base, 4, 6) == Some(at.second)
  {
    hide Field;
    var base := Place(at).1;
    assert Pow10(2) == 100;
    assert base[0..2] == Fixed(at.hour, 2) && base[2..4] == Fixed(at.minute, 2) && base[4..6] == Fixed(at.second, 2);
    FieldOfFixed(base, 0, at.hour, 2);
    FieldOfFixed(base, 2, at.minute, 2);
    FieldOfFixed(base, 4, at.second, 2);
  }

  /** A message takes the same place whether stored directly or by way of the spool. */
  lemma SpooledPlaceIsDirectPlace(raw: string, at: Time, now: Time)
    requires Valid(at)
    ensures var item := ReadItem(Content(raw, at));
            item.Some? && item.value.raw == raw && Place(ReceivedAt(item.value, now)) == Place(at)
  {
    ReadBack(raw, at, now);
  }

  /** newID and the file name: the UTC stamp, then random or clock digits. */
  function ItemName(at: Time, suffix: string): string
    requires Valid(at)
  {
    UtcStamp(at) + ("-" + suffix + ".eml")
  }

  /** Names sort by time first, whatever the zones. */
  lemma NamesFollowTime(a: Time, x: string, b: Time, y: string)
    requires Valid(a) && Valid(b) && UtcFits(a) && UtcFits(b)
    ensures Instant(a) < Instant(b) ==> Before(ItemName(a, x), ItemName(b, y))
    ensures !Before(ItemName(b, y), ItemName(a, x)) ==> Instant(a) <= Instant(b)
  {
    UtcStampsFollowTime(a, b);
    UtcStampsFollowTime(b, a);
    BeforeConcat(UtcStamp(a), "-" + x + ".eml", UtcStamp(b), "-" + y + ".eml");
    BeforeConcat(UtcStamp(b), "-" + y + ".eml", UtcStamp(a), "-" + x + ".eml");
  }
}
