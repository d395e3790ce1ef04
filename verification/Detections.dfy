/** From what a provider reports to what the store says about a video. */
module Detections {
  import opened Text
  import opened Sorting
  import opened Sidecars

  const CATEGORIES: seq<string> := ["person", "animal", "vehicle"]

  function Keywords(category: string): seq<string> {
    if category == "person" then ["person", "human", "people"]
    else if category == "animal" then ["animal", "fox", "cat", "dog", "deer", "bear", "bird", "raccoon"]
    else if category == "vehicle" then
      ["vehicle", "car", "truck", "van", "suv", "bus", "motorcycle", "bicycle", "bike"]
    else []
  }

  predicate Mentions(text: string, category: string) {
    exists k | k in Keywords(category) :: Contains(text, k)
  }

  function Combined(category: string, tag: string): string {
    Lower(TrimSpace(category + " " + tag))
  }

  /** The first category one of whose keywords occurs, or nothing. */
  function NormalizeCategory(category: string, tag: string): (c: string)
    ensures c == "" || c in CATEGORIES
  {
    var text := Combined(category, tag);
    if text == "" then ""
    else if Mentions(text, "person") then "person"
    else if Mentions(text, "animal") then "animal"
    else if Mentions(text, "vehicle") then "vehicle"
    else ""
  }

  /** The words that make a category, looked for in this order in label and category
      together. */
  lemma CategoryIs(category: string, tag: string)
    ensures var text := Lower(TrimSpace(category + " " + tag));
            NormalizeCategory(category, tag) ==
            if Contains(text, "person") || Contains(text, "human") || Contains(text, "people") then "person"
            else if Contains(text, "animal") || Contains(text, "fox") || Contains(text, "cat") ||
                    Contains(text, "dog") || Contains(text, "deer") || Contains(text, "bear") ||
                    Contains(text, "bird") || Contains(text, "raccoon") then "animal"
            else if Contains(text, "vehicle") || Contains(text, "car") || Contains(text, "truck") ||
                    Contains(text, "van") || Contains(text, "suv") || Contains(text, "bus") ||
                    Contains(text, "motorcycle") || Contains(text, "bicycle") || Contains(text, "bike") then "vehicle"
            else ""
  {
    hide Contains, TrimSpace, Lower, Mentions;
    PersonWords(Combined(category, tag));
    AnimalWords(Combined(category, tag));
    VehicleWords(Combined(category, tag));
    if Combined(category, tag) == "" { NothingInNothing(); }
  }

  lemma NothingInNothing()
    ensures forall k | k != "" :: !Contains("", k)
  {
  }

  lemma PersonWords(text: string)
    ensures Mentions(text, "person") <==>
            Contains(text, "person") || Contains(text, "human") || Contains(text, "people")
  {
    var k := Keywords("person");
    assert k[0] in k && k[1] in k && k[2] in k;
  }

  lemma AnimalWords(text: string)
    ensures Mentions(text, "animal") <==>
            || Contains(text, "animal") || Contains(text, "fox") || Contains(text, "cat") || Contains(text, "dog")
            || Contains(text, "deer") || Contains(text, "bear") || Contains(text, "bird") || Contains(text, "raccoon")
  {
    hide Contains;
    var k := Keywords("animal");
    assert k[0] in k && k[1] in k && k[2] in k && k[3] in k && k[4] in k && k[5] in k && k[6] in k && k[7] in k;
  }

  lemma VehicleWords(text: string)
    ensures Mentions(text, "vehicle") <==>
            || Contains(text, "vehicle") || Contains(text, "car") || Contains(text, "truck") || Contains(text, "van")
            || Contains(text, "suv") || Contains(text, "bus") || Contains(text, "motorcycle")
            || Contains(text, "bicycle") || Contains(text, "bike")
  {
    hide Contains;
    var k := Keywords("vehicle");
    assert k[0] in k && k[1] in k && k[2] in k && k[3] in k && k[4] in k && k[5] in k && k[6] in k && k[7] in k &&
           k[8] in k;
  }

  /** Percentages become fractions. */
  function Fraction(confidence: real): real {
    if 1.0 < confidence <= 100.0 then confidence / 100.0 else confidence
  }

  /** What becomes of one reported detection. */
  function Kept(d: Detection, threshold: real): Option<Detection> {
    var category := NormalizeCategory(d.category, d.tag);
    if Fraction(d.confidence) < threshold || category == "" then None
    else Some(Detection(category, TrimSpace(Lower(d.tag)), Fraction(d.confidence)))
  }

  /** A percentage above 1 counts as a hundredth of itself; what reaches the threshold
      and has a category is kept under that category, its label trimmed and in small
      letters. */
  lemma KeptIs(d: Detection, threshold: real)
    ensures 1.0 < d.confidence <= 100.0 ==> Fraction(d.confidence) == d.confidence / 100.0
    ensures d.confidence <= 1.0 || d.confidence > 100.0 ==> Fraction(d.confidence) == d.confidence
    ensures Kept(d, threshold).Some? <==>
            Fraction(d.confidence) >= threshold && NormalizeCategory(d.category, d.tag) != ""
    ensures Kept(d, threshold).Some? ==>
              var k := Kept(d, threshold).value;
              && k.category == NormalizeCategory(d.category, d.tag) && k.tag == TrimSpace(Lower(d.tag))
              && k.confidence == Fraction(d.confidence)
  {
  }

  function Keeper(threshold: real): Detection -> Option<Detection> {
    (d: Detection) => Kept(d, threshold)
  }

  /** The results of the function, where it has one. */
  function Select(ds: seq<Detection>, keep: Detection -> Option<Detection>): seq<Detection> {
    if ds == [] then []
    else
      var front, last := Select(ds[..|ds| - 1], keep), keep(ds[|ds| - 1]);
      if last.None? then front else front + [last.value]
  }

  function Filtered(reported: seq<Detection>, threshold: real): seq<Detection> {
    Select(reported, Keeper(threshold))
  }

  predicate MoreConfident(a: Detection, b: Detection) {
    a.confidence > b.confidence
  }

  /** A permutation of the mapped and filtered input in order of confidence. */
  method NormalizeDetections(reported: seq<Detection>, threshold: real) returns (out: seq<Detection>)
    ensures multiset(out) == multiset(Filtered(reported, threshold))
    ensures forall i, j | 0 <= i < j < |out| :: out[i].confidence >= out[j].confidence
    ensures forall d | d in out :: d.category in {"person", "animal", "vehicle"} && d.confidence >= threshold
    ensures Normal(out, threshold)
  {
    var kept: seq<Detection> := [];
    for i := 0 to |reported|
      invariant kept == Filtered(reported[..i], threshold)
    {
      FilteredStep(reported, i, threshold);
      var d := reported[i];
      var confidence := if 1.0 < d.confidence <= 100.0 then d.confidence / 100.0 else d.confidence;
      if confidence < threshold { continue; }
      var category := NormalizeCategory(d.category, d.tag);
      if category == "" { continue; }
      kept := kept + [Detection(category, TrimSpace(Lower(d.tag)), confidence)];
    }
    assert reported[..|reported|] == reported;
    FilteredIsNormal(reported, threshold);
    out := SortSlice(kept, MoreConfident);
    forall d | d in out ensures d in kept { assert d in multiset(out); }
  }

  lemma FilteredStep(reported: seq<Detection>, i: nat, threshold: real)
    requires i < |reported|
    ensures var k := Kept(reported[i], threshold);
            Filtered(reported[..i + 1], threshold) ==
            Filtered(reported[..i], threshold) + if k.None? then [] else [k.value]
  {
    assert reported[..i + 1][..i] == reported[..i];
  }

  ghost predicate Normal(out: seq<Detection>, threshold: real) {
    forall d | d in out :: d.category in CATEGORIES && d.confidence >= threshold
  }

  lemma {:induction false} FilteredIsNormal(reported: seq<Detection>, threshold: real)
    ensures Normal(Filtered(reported, threshold), threshold)
  {
    if reported != [] {
      FilteredIsNormal(reported[..|reported| - 1], threshold);
    }
  }

  // ------------------------------------------------------------- idempotence

  lemma LowerContains(text: string, sub: string)
    requires Contains(text, sub)
    ensures Contains(Lower(text), Lower(sub))
  {
    var i :| 0 <= i <= |text| - |sub| && At(text, i, sub);
    forall k | 0 <= k < |sub| ensures Lower(text)[i + k] == Lower(sub)[k] {
      assert text[i..i + |sub|][k] == sub[k];
    }
    assert Lower(text)[i..i + |sub|] == Lower(sub);
    assert At(Lower(text), i, Lower(sub));
  }

  /** The trimmed label ends the trimmed combination. */
  lemma LabelEndsCombined(category: string, tag: string)
    requires TrimSpace(tag) != ""
    ensures HasSuffix(TrimSpace(category + " " + tag), TrimSpace(tag))
  {
    var lead, tail := TrimParts(tag, SPACES);
    assert category + " " + tag == (category + " " + lead) + TrimSpace(tag) + tail;
    TrimSuffix(category + " " + lead, TrimSpace(tag), tail);
  }

  /** Everything but white space of the label survives in the combined text. */
  lemma LabelInCombined(category: string, tag: string, sub: string)
    requires sub != "" && Contains(TrimSpace(Lower(tag)), sub)
    ensures Contains(Combined(category, tag), sub)
  {
    var whole, core := TrimSpace(category + " " + tag), TrimSpace(tag);
    TrimLowerCommute(tag);
    assert core != "";
    LabelEndsCombined(category, tag);
    LowerSuffixContains(whole, core, sub);
  }

  lemma LowerSuffixContains(whole: string, core: string, sub: string)
    requires HasSuffix(whole, core) && Contains(Lower(core), sub)
    ensures Contains(Lower(whole), sub)
  {
    hide Contains;
    var front := whole[..|whole| - |core|];
    assert Lower(whole) == Lower(front) + Lower(core) + "";
    ContainsInside(Lower(front), Lower(core), "", sub);
  }

  /** Trimming keeps a trimmed part that only white space follows. */
  lemma {:induction false} TrimSuffix(front: string, core: string, tail: string)
    requires core != "" && Trimmed(core, SPACES) && Within(tail, SPACES)
    ensures TrimSpace(front + core + tail) == TrimLeft(front + core, SPACES)
    ensures HasSuffix(TrimLeft(front + core, SPACES), core)
    decreases |front| + |tail|
  {
    var all := front + core + tail;
    if front != [] && front[0] in SPACES {
      assert all[1..] == front[1..] + core + tail;
      assert (front + core)[1..] == front[1..] + core;
      TrimSuffix(front[1..], core, tail);
    } else {
      assert TrimLeft(all, SPACES) == all;
      assert TrimLeft(front + core, SPACES) == front + core;
      if tail != [] {
        assert all[..|all| - 1] == front + core + tail[..|tail| - 1];
        TrimSuffix(front, core, tail[..|tail| - 1]);
        assert TrimLeft(all[..|all| - 1], SPACES) == all[..|all| - 1];
      } else {
        assert all == front + core;
      }
    }
  }

  lemma ForeignChar(text: string, sub: string, c: char)
    requires c in sub && c !in text
    ensures !Contains(text, sub)
  {
    var k :| 0 <= k < |sub| && sub[k] == c;
    forall i | 0 <= i <= |text| - |sub| ensures !At(text, i, sub) {
      assert text[i + k] in text;
      assert text[i..i + |sub|][k] == text[i + k];
    }
  }

  /** No category's name contains a keyword of an earlier category. */
  lemma NamesApart(earlier: string, later: string, k: string)
    requires k in Keywords(earlier)
    requires || (earlier == "person" && (later == "animal" || later == "vehicle"))
             || (earlier == "animal" && later == "vehicle")
    ensures !Contains(later, k)
  {
    var c :=
      if k == "human" then 'u' else if k == "animal" || k == "cat" then 'a' else if k == "fox" then 'f'
      else if k == "dog" || k == "deer" then 'd' else if k == "bear" || k == "bird" then 'b'
      else if k == "raccoon" then 'r' else 'p';
    ForeignChar(later, k, c);
  }

  lemma KeywordsPlain(category: string, k: string)
    requires k in Keywords(category)
    ensures k != "" && ' ' !in k
  {
  }

  lemma LowerFixed(c: string)
    requires c in CATEGORIES
    ensures Lower(c) == c && c != "" && c[0] !in SPACES && c[|c| - 1] !in SPACES
  {
  }

  lemma LoweredCombined(c: string, t: string)
    requires Lower(c) == c && Lower(t) == t
    ensures Combined(c, t) == TrimSpace(c + " " + t)
  {
    var whole := c + " " + t;
    assert Lower(whole) == Lower(c) + " " + Lower(t);
    TrimLowerCommute(whole);
  }

  /** A keyword in the second combination was in the name or in the first one. */
  lemma MentionedBefore(c: string, category: string, tag: string, k: string)
    requires c in CATEGORIES && k != "" && ' ' !in k
    requires Contains(Combined(c, TrimSpace(Lower(tag))), k)
    ensures Contains(c, k) || Contains(Combined(category, tag), k)
  {
    var t := TrimSpace(Lower(tag));
    TrimLowerCommute(tag);
    LowerTwice(TrimSpace(tag));
    LowerFixed(c);
    LoweredCombined(c, t);
    TrimContains(c + " " + t, k);
    ContainsSplit(c, ' ', t, k);
    if Contains(t, k) { LabelInCombined(category, tag, k); }
  }

  lemma TrimContains(whole: string, k: string)
    requires Contains(TrimSpace(whole), k)
    ensures Contains(whole, k)
  {
    var front, back := TrimParts(whole, SPACES);
    ContainsInside(front, TrimSpace(whole), back, k);
  }

  lemma NameInCombined(c: string, tag: string)
    requires c in CATEGORIES
    ensures Contains(Combined(c, tag), c)
  {
    LowerFixed(c);
    WordLeads(c, " " + tag);
    assert c + (" " + tag) == c + " " + tag;
    var middle := TrimSpace(c + " " + tag);
    assert At(middle, 0, c);
    LowerContains(middle, c);
  }

  /** Trimming keeps a leading word. */
  lemma WordLeads(word: string, rest: string)
    requires word != "" && word[0] !in SPACES && word[|word| - 1] !in SPACES
    ensures HasPrefix(TrimSpace(word + rest), word)
  {
    var whole := word + rest;
    assert TrimLeft(whole, SPACES) == whole;
    var back := TrimRightParts(whole, SPACES);
    var kept := TrimSpace(whole);
    assert forall i | |kept| <= i < |whole| :: whole[i] == back[i - |kept|];
    assert whole[|word| - 1] == word[|word| - 1];
    assert whole[..|word|] == word;
  }

  /** A normalised category is found again. */
  lemma CategoryAgain(category: string, tag: string)
    requires NormalizeCategory(category, tag) != ""
    ensures var c := NormalizeCategory(category, tag); NormalizeCategory(c, TrimSpace(Lower(tag))) == c
  {
    var c := NormalizeCategory(category, tag);
    var text := Combined(c, TrimSpace(Lower(tag)));
    NameInCombined(c, TrimSpace(Lower(tag)));
    assert c in Keywords(c);
    assert Mentions(text, c);
    if c != "person" { StillUnmentioned("person", c, category, tag); }
    if c == "vehicle" { StillUnmentioned("animal", c, category, tag); }
  }

  lemma StillUnmentioned(earlier: string, c: string, category: string, tag: string)
    requires (earlier == "person" && (c == "animal" || c == "vehicle")) || (earlier == "animal" && c == "vehicle")
    requires !Mentions(Combined(category, tag), earlier)
    ensures !Mentions(Combined(c, TrimSpace(Lower(tag))), earlier)
  {
    forall k | k in Keywords(earlier) ensures !Contains(Combined(c, TrimSpace(Lower(tag))), k) {
      KeywordsPlain(earlier, k);
      NamesApart(earlier, c, k);
      if Contains(Combined(c, TrimSpace(Lower(tag))), k) { MentionedBefore(c, category, tag, k); }
    }
  }

  /** A kept detection is kept again, unchanged. */
  lemma KeptAgain(d: Detection, threshold: real)
    requires Kept(d, threshold).Some?
    ensures Kept(Kept(d, threshold).value, threshold) == Kept(d, threshold)
  {
    CategoryAgain(d.category, d.tag);
    TrimLowerCommute(d.tag);
    LowerTwice(TrimSpace(d.tag));
    var lead, tail := TrimParts(d.tag, SPACES);
    var lead2, tail2 := TrimParts(Lower(d.tag), SPACES);
    TrimOfTrimmed(TrimSpace(Lower(d.tag)), SPACES);
  }

  lemma {:induction false} FilteredComesFrom(reported: seq<Detection>, threshold: real, d: Detection)
    requires d in Filtered(reported, threshold)
    ensures Kept(d, threshold) == Some(d)
  {
    var front, last := reported[..|reported| - 1], reported[|reported| - 1];
    if d in Filtered(front, threshold) {
      FilteredComesFrom(front, threshold, d);
    } else {
      KeptAgain(last, threshold);
    }
  }

  lemma {:induction false} SelectOfFixed(ds: seq<Detection>, keep: Detection -> Option<Detection>)
    requires forall i | 0 <= i < |ds| :: keep(ds[i]) == Some(ds[i])
    ensures Select(ds, keep) == ds
  {
    if ds != [] {
      SelectOfFixed(ds[..|ds| - 1], keep);
      assert ds == ds[..|ds| - 1] + [ds[|ds| - 1]];
    }
  }

  /** Normalising a normalised list gives the same detections again. */
  lemma NormalizeIsIdempotent(reported: seq<Detection>, out: seq<Detection>, threshold: real)
    requires multiset(out) == multiset(Filtered(reported, threshold))
    ensures multiset(Filtered(out, threshold)) == multiset(out)
  {
    forall i | 0 <= i < |out| ensures Keeper(threshold)(out[i]) == Some(out[i]) {
      assert out[i] in multiset(out);
      FilteredComesFrom(reported, threshold, out[i]);
    }
    SelectOfFixed(out, Keeper(threshold));
  }

  // ------------------------------------------------- one meaning for a result

  method HasCategory(detections: seq<Detection>, category: string) returns (r: bool)
    ensures r <==> exists d | d in detections :: d.category == category
    ensures r <==> Has(detections, category)
  {
    for i := 0 to |detections|
      invariant forall k | 0 <= k < i :: detections[k].category != category
    {
      if detections[i].category == category { return true; }
    }
    return false;
  }

  predicate Has(detections: seq<Detection>, category: string) {
    exists d | d in detections :: d.category == category
  }

  /** As Has, with case and surrounding space ignored, as the publisher does. */
  predicate HasLoosely(detections: seq<Detection>, category: string) {
    exists d | d in detections :: Lower(TrimSpace(d.category)) == category
  }

  /** The event type for the categories present. */
  function EventName(person: bool, animal: bool, vehicle: bool): string {
    if person && animal && vehicle then "person_animal_vehicle"
    else if person && animal then "person_animal"
    else if person && vehicle then "person_vehicle"
    else if animal && vehicle then "animal_vehicle"
    else if person then "person"
    else if animal then "animal"
    else if vehicle then "vehicle"
    else "none"
  }

  const ADVERTISED: seq<string> :=
    ["person", "animal", "vehicle", "person_animal", "person_vehicle", "animal_vehicle", "person_animal_vehicle"]

  method EventType(detections: seq<Detection>) returns (r: string)
    ensures r == EventName(HasLoosely(detections, "person"), HasLoosely(detections, "animal"),
                           HasLoosely(detections, "vehicle"))
  {
    var seen: map<string, bool> := map[];
    for i := 0 to |detections|
      invariant forall c | c in CATEGORIES :: c in seen <==> HasLoosely(detections[..i], c)
    {
      assert detections[..i + 1] == detections[..i] + [detections[i]];
      var category := Lower(TrimSpace(detections[i].category));
      if category in CATEGORIES { seen := seen[category := true]; }
    }
    assert detections[..|detections|] == detections;
    var parts: seq<string> := [];
    if "person" in seen { parts := parts + ["person"]; }
    if "animal" in seen { parts := parts + ["animal"]; }
    if "vehicle" in seen { parts := parts + ["vehicle"]; }
    r := if parts == [] then "none" else Join(parts, '_');
    assert "person" in CATEGORIES && "animal" in CATEGORIES && "vehicle" in CATEGORIES;
    assert parts == Parts("person" in seen, "animal" in seen, "vehicle" in seen);
    JoinedParts("person" in seen, "animal" in seen, "vehicle" in seen);
  }

  function Parts(p: bool, a: bool, v: bool): seq<string> {
    (if p then ["person"] else []) + (if a then ["animal"] else []) + (if v then ["vehicle"] else [])
  }

  lemma JoinTwo(a: string, b: string)
    ensures Join([a, b], '_') == a + "_" + b
  {
    assert [a, b][1..] == [b];
  }

  lemma JoinedParts(p: bool, a: bool, v: bool)
    ensures EventName(p, a, v) == if Parts(p, a, v) == [] then "none" else Join(Parts(p, a, v), '_')
  {
    if p && a && v {
      var parts := Parts(p, a, v);
      assert parts[1..] == ["animal", "vehicle"];
      JoinTwo("animal", "vehicle");
      assert "person" + "_" + ("animal" + "_" + "vehicle") == "person_animal_vehicle";
    } else if p && a {
      assert Parts(p, a, v) == ["person", "animal"];
      JoinTwo("person", "animal");
    } else if p && v {
      assert Parts(p, a, v) == ["person", "vehicle"];
      JoinTwo("person", "vehicle");
    } else if a && v {
      assert Parts(p, a, v) == ["animal", "vehicle"];
      JoinTwo("animal", "vehicle");
    }
  }

  lemma EventNameShape(p: bool, a: bool, v: bool)
    ensures var s := EventName(p, a, v);
            && (s[0] == 'p' <==> p) && (s[0] == 'n' <==> !p && !a && !v)
            && |s| == if p && a && v then 21 else if (p || a) && v then 14 else if p && a then 13
                      else if v then 7 else if p || a then 6 else 4
  {
  }

  /** The event type says exactly which categories are present. */
  lemma EventNameTellsAll(p: bool, a: bool, v: bool, q: bool, b: bool, w: bool)
    ensures EventName(p, a, v) == EventName(q, b, w) <==> p == q && a == b && v == w
    ensures EventName(p, a, v) == "none" <==> !p && !a && !v
    ensures EventName(p, a, v) != "none" <==> EventName(p, a, v) in ADVERTISED
  {
    EventNameShape(p, a, v);
    EventNameShape(q, b, w);
  }

  method ShouldNotify(configured: set<string>, detections: seq<Detection>) returns (r: bool)
    ensures r <==> exists d | d in detections :: Lower(TrimSpace(d.category)) in configured
  {
    for i := 0 to |detections|
      invariant forall k | 0 <= k < i :: Lower(TrimSpace(detections[k].category)) !in configured
    {
      if Lower(TrimSpace(detections[i].category)) in configured { return true; }
    }
    return false;
  }

  /** On normalised detections exact and loose categories coincide. */
  lemma NormalCategories(out: seq<Detection>, threshold: real, d: Detection)
    requires Normal(out, threshold) && d in out
    ensures Lower(TrimSpace(d.category)) == d.category
  {
    assert d.category in CATEGORIES;
    TrimOfTrimmed(d.category, SPACES);
  }

  /** For every normalised result the sidecar's status, its detection list, the
      event type and the notification guard with all three categories agree, and
      the event type determines the three flags. */
  lemma OneMeaning(s: Sidecar, threshold: real)
    requires Normal(s.detections, threshold) && s.state == SUCCESS
    requires s.hasPerson == Has(s.detections, "person") && s.hasAnimal == Has(s.detections, "animal")
    requires s.hasVehicle == Has(s.detections, "vehicle")
    ensures var event := EventName(HasLoosely(s.detections, "person"), HasLoosely(s.detections, "animal"),
                                   HasLoosely(s.detections, "vehicle"));
            && (DetectionStatus(Some(s)) == "detected" <==> s.detections != [])
            && (DetectionStatus(Some(s)) == "detected" <==> event != "none")
            && (DetectionStatus(Some(s)) == "detected" <==>
                  exists d | d in s.detections :: Lower(TrimSpace(d.category)) in {"person", "animal", "vehicle"})
            && (event != "none" ==> event in ADVERTISED)
            && (forall p, a, v :: event == EventName(p, a, v) <==>
                  p == s.hasPerson && a == s.hasAnimal && v == s.hasVehicle)
  {
    forall d | d in s.detections ensures Lower(TrimSpace(d.category)) == d.category {
      NormalCategories(s.detections, threshold, d);
    }
    assert HasLoosely(s.detections, "person") == s.hasPerson;
    assert HasLoosely(s.detections, "animal") == s.hasAnimal;
    assert HasLoosely(s.detections, "vehicle") == s.hasVehicle;
    forall p, a, v { EventNameTellsAll(p, a, v, s.hasPerson, s.hasAnimal, s.hasVehicle); }
    if s.detections != [] {
      var d := s.detections[0];
      assert d in s.detections && d.category in CATEGORIES;
    }
  }
}
