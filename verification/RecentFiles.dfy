/** The list of recent files made by walking the tree, used without an index,
    and its agreement with the index's list. */
module RecentFiles {
  import opened Text
  import opened Sorting
  import opened Listing
  import opened Detections
  import opened Sidecars
  import opened FileIndex

  datatype Candidate = Candidate(rel: string, size: int, modNanos: int)

  function CandidateOf(tree: Tree, rel: string): Candidate
    requires rel in tree && tree[rel].Regular?
  {
    Candidate(rel, tree[rel].size, tree[rel].modNanos)
  }

  predicate After(a: Candidate, b: Candidate) {
    a.modNanos > b.modNanos
  }

  function PathOf(c: Candidate): string {
    c.rel
  }

  function Paths(cs: seq<Candidate>): seq<string> {
    MapSeq(cs, PathOf)
  }

  /** Each indexable file once. */
  ghost predicate Covers(tree: Tree, cs: seq<Candidate>) {
    && (forall i, j | 0 <= i < j < |cs| :: Paths(cs)[i] != Paths(cs)[j])
    && (forall rel :: rel in Paths(cs) <==> Indexable(tree, rel))
    && (forall c | c in cs :: c.rel in tree && tree[c.rel].Regular? && c == CandidateOf(tree, c.rel))
  }

  /** In an order the walk may list them: newest first, ties anyhow. */
  ghost predicate IsWalked(tree: Tree, cs: seq<Candidate>) {
    Covers(tree, cs) && Sorted(cs, After)
  }

  /** The entry the walk shows. */
  function WalkItem(tree: Tree, c: Candidate): Item {
    Item(c.rel, FirstSegment(c.rel), Base(c.rel), c.size, Seconds(c.modNanos), SummaryOf(tree, c.rel))
  }

  method DetectionSummary(tree: Tree, rel: string) returns (s: Summary)
    ensures s == SummaryOf(tree, rel)
  {
    if !IsVideoPath(rel) { return NOTHING; }
    var sidecar := LoadSidecar(tree, rel);
    if sidecar.None? { return NOTHING.(state := PENDING); }
    var tags := DetectionLabels(sidecar.value.detections);
    s := Summary(DetectionStatus(sidecar), sidecar.value.hasPerson, sidecar.value.hasAnimal,
                 sidecar.value.hasVehicle, tags);
  }

  /** What the listing shows of a video once any record has been written, whether of
      a running, a failed, a skipped or a successful job. */
  lemma SummaryShowsState(tree: Tree, rel: string, size: int, nanos: int, s: Sidecar)
    requires IsVideoPath(rel)
    ensures var shown := SummaryOf(WriteSidecar(tree, rel, size, nanos, s), rel);
            && (shown.state == "failed" <==> s.state == "failed")
            && (shown.state == "skipped" <==> s.state == "skipped")
            && (shown.state == "pending" <==> s.state !in {"failed", "skipped", "success"})
            && (shown.state == "detected" <==> s.state == "success" && (s.hasPerson || s.hasAnimal || s.hasVehicle))
            && (shown.state == "none" <==> s.state == "success" && !s.hasPerson && !s.hasAnimal && !s.hasVehicle)
            && shown.person == s.hasPerson && shown.animal == s.hasAnimal && shown.vehicle == s.hasVehicle
  {
    StatusIs(s);
  }

  /** What the listing shows of a video once a normalised record has been written:
      success shows as detected exactly with something in the list, each flag with
      its category, and each telling tag once. Until then a video shows as
      pending; and no other file is touched. */
  lemma SummaryShowsRecord(tree: Tree, rel: string, size: int, nanos: int, s: Sidecar, threshold: real, other: string)
    requires IsVideoPath(rel) && s.state == "success" && Normal(s.detections, threshold) && other != rel
    requires s.hasPerson == Has(s.detections, "person") && s.hasAnimal == Has(s.detections, "animal")
    requires s.hasVehicle == Has(s.detections, "vehicle")
    ensures var shown := SummaryOf(WriteSidecar(tree, rel, size, nanos, s), rel);
            && shown.state == (if s.detections == [] then "none" else "detected")
            && shown.person == Has(s.detections, "person") && shown.animal == Has(s.detections, "animal")
            && shown.vehicle == Has(s.detections, "vehicle")
            && (forall t :: t in shown.tags <==> exists d :: d in s.detections && Telling(d) && Tag(d) == t)
            && (forall i, j | 0 <= i < j < |shown.tags| :: shown.tags[i] != shown.tags[j])
    ensures SidecarPath(rel) !in tree ==> SummaryOf(tree, rel) == Summary("pending", false, false, false, [])
    ensures !IsVideoPath(other) ==> SummaryOf(tree, other) == Summary("", false, false, false, [])
    ensures SummaryOf(WriteSidecar(tree, rel, size, nanos, s), other) == SummaryOf(tree, other)
  {
    FirstSeenIsSet(s.detections);
    OneMeaning(s, threshold);
    SidecarPathsDiffer(rel, other);
  }

  /** The walk, over any listing of the tree. */
  method Collect(root: string, tree: Tree, walk: seq<string>) returns (cs: seq<Candidate>)
    requires Enumerates(walk, tree.Keys)
    ensures Covers(tree, cs)
  {
    EnumeratesMember(walk, tree.Keys);
    cs := [];
    for i := 0 to |walk|
      invariant forall rel :: rel in Paths(cs) <==> rel in walk[..i] && Indexable(tree, rel)
      invariant forall c | c in cs :: c.rel in tree && tree[c.rel].Regular? && c == CandidateOf(tree, c.rel)
      invariant forall j, k | 0 <= j < k < |cs| :: Paths(cs)[j] != Paths(cs)[k]
    {
      var rel := walk[i];
      KindOfAbs(root, rel);
      assert walk[..i + 1] == walk[..i] + [rel];
      if tree[rel].Regular? && !IsDetectionSidecarPath(Abs(root, rel)) {
        assert rel !in walk[..i];
        MapAppend(cs, [CandidateOf(tree, rel)], PathOf);
        assert Paths(cs + [CandidateOf(tree, rel)]) == Paths(cs) + [rel];
        cs := cs + [CandidateOf(tree, rel)];
      }
    }
    assert walk[..|walk|] == walk;
  }

  lemma AfterIsWeakOrder()
    ensures WeakOrder(After)
  {
  }

  lemma PermutedCovers(tree: Tree, a: seq<Candidate>, b: seq<Candidate>)
    requires Covers(tree, a) && multiset(a) == multiset(b)
    ensures Covers(tree, b)
  {
    MapPermutation(a, b, PathOf);
    DistinctPermutes(Paths(a), Paths(b));
    forall c | c in b ensures c in a { assert c in multiset(b) && c in multiset(a); }
  }

  /** The first `limit` entries of the tree's files, newest first. */
  ghost predicate IsWalkList(tree: Tree, limit: int, items: seq<Item>) {
    if limit <= 0 then items == []
    else exists cs :: IsWalked(tree, cs) && Shows(tree, cs, limit, items)
  }

  ghost predicate Shows(tree: Tree, cs: seq<Candidate>, limit: int, items: seq<Item>) {
    |items| == Cut(limit, |cs|) && forall i | 0 <= i < |items| :: items[i] == WalkItem(tree, cs[i])
  }

  /** listRecentFiles without an index. */
  method ListRecentFiles(root: string, tree: Tree, walk: seq<string>, limit: int) returns (items: seq<Item>)
    requires Enumerates(walk, tree.Keys)
    ensures IsWalkList(tree, limit, items)
  {
    items := [];
    if limit <= 0 { return; }
    var candidates := Collect(root, tree, walk);
    AfterIsWeakOrder();
    var sorted := SortSlice(candidates, After);
    PermutedCovers(tree, candidates, sorted);
    ghost var all := sorted;
    if |sorted| > limit { sorted := sorted[..limit]; }
    for i := 0 to |sorted|
      invariant |items| == i && forall k | 0 <= k < i :: items[k] == WalkItem(tree, sorted[k])
    {
      var c := sorted[i];
      var summary := DetectionSummary(tree, c.rel);
      items := items + [Item(c.rel, FirstSegment(c.rel), Base(c.rel), c.size, Seconds(c.modNanos), summary)];
    }
    assert Shows(tree, all, limit, items);
  }

  /** What that means: the right number of entries, each of a file as it is in the
      tree, newest first. */
  lemma WalkListIs(tree: Tree, limit: int, items: seq<Item>)
    requires IsWalkList(tree, limit, items)
    ensures var n := |set rel | rel in tree && Indexable(tree, rel)|;
            |items| == if limit <= 0 then 0 else if limit < n then limit else n
    ensures forall i | 0 <= i < |items| ::
              && Indexable(tree, items[i].rel)
              && items[i] == Item(items[i].rel, FirstSegment(items[i].rel), Base(items[i].rel),
                                  tree[items[i].rel].size, Seconds(tree[items[i].rel].modNanos),
                                  SummaryOf(tree, items[i].rel))
    ensures forall i, j | 0 <= i < j < |items| ::
              items[i].rel != items[j].rel && tree[items[i].rel].modNanos >= tree[items[j].rel].modNanos
  {
    if limit > 0 {
      var cs: seq<Candidate> :| IsWalked(tree, cs) && Shows(tree, cs, limit, items);
      CoversCount(tree, cs);
      assert forall i | 0 <= i < |items| :: cs[i] in cs && Paths(cs)[i] == cs[i].rel;
      forall i, j | 0 <= i < j < |items|
        ensures items[i].rel != items[j].rel && tree[items[i].rel].modNanos >= tree[items[j].rel].modNanos
      {
        assert Paths(cs)[i] != Paths(cs)[j] && !After(cs[j], cs[i]);
      }
    }
  }

  /** And no file left out is newer than one in the list. */
  lemma NothingNewerIsSkipped(tree: Tree, limit: int, items: seq<Item>, i: nat, rel: string)
    requires IsWalkList(tree, limit, items) && i < |items| && Indexable(tree, rel)
    requires forall k | 0 <= k < |items| :: items[k].rel != rel
    ensures items[i].rel in tree && tree[items[i].rel].Regular?
    ensures tree[items[i].rel].modNanos >= tree[rel].modNanos
  {
    var cs: seq<Candidate> :| IsWalked(tree, cs) && Shows(tree, cs, limit, items);
    assert rel in Paths(cs);
    var j :| 0 <= j < |cs| && Paths(cs)[j] == rel;
    assert forall k | 0 <= k < |items| :: items[k].rel == Paths(cs)[k];
    assert cs[i] in cs && cs[j] in cs && !After(cs[j], cs[i]);
  }

  lemma CoversCount(tree: Tree, cs: seq<Candidate>)
    requires Covers(tree, cs)
    ensures |cs| == |set rel | rel in tree && Indexable(tree, rel)|
  {
    var all := set rel | rel in tree && Indexable(tree, rel);
    assert forall rel :: rel in Paths(cs) <==> rel in all;
    assert (set rel | rel in Paths(cs)) == all;
    EnumeratesCount(Paths(cs), all);
  }

  // ------------------------------------------------------------- agreement

  lemma SameSecondsThroughout(tree: Tree, table: Table, all: seq<Item>, cs: seq<Candidate>)
    requires Synced(tree, table) && IsRecent(table, all) && IsWalked(tree, cs)
    ensures |all| == |cs|
    ensures forall i | 0 <= i < |all| :: all[i].seconds == Seconds(cs[i].modNanos)
  {
    var secondsOf := (rel: string) => if rel in tree && tree[rel].Regular? then Seconds(tree[rel].modNanos) else 0;
    var a, b := Rels(all), Paths(cs);
    EnumeratesMember(a, table.Keys);
    ListingsPermute(a, b);
    MapPermutation(a, b, secondsOf);
    var x, y := MapSeq(a, secondsOf), MapSeq(b, secondsOf);
    forall i | 0 <= i < |all| ensures x[i] == all[i].seconds { assert all[i] in all; }
    forall i | 0 <= i < |cs| ensures y[i] == Seconds(cs[i].modNanos) { assert cs[i] in cs; }
    DescendingUnique(x, y);
  }

  /** Index and walk list equally many files and, position by position, show the
      same whole second. */
  lemma SameSeconds(tree: Tree, table: Table, limit: int, files: seq<Item>, items: seq<Item>)
    requires Synced(tree, table) && IsRecentList(table, limit, files) && IsWalkList(tree, limit, items)
    ensures |files| == |items|
    ensures forall i | 0 <= i < |files| :: files[i].seconds == items[i].seconds
  {
    hide Synced, IsRecent, IsWalked;
    if limit > 0 {
      var all: seq<Item> :| IsRecent(table, all) && files == all[..Cut(limit, |all|)];
      var cs: seq<Candidate> :| IsWalked(tree, cs) && Shows(tree, cs, limit, items);
      SameSecondsThroughout(tree, table, all, cs);
    }
  }

  /** Where an entry of each list comes from. */
  lemma ListedByIndex(tree: Tree, table: Table, limit: int, files: seq<Item>, i: nat)
    requires Synced(tree, table) && IsRecentList(table, limit, files) && i < |files|
    ensures Indexable(tree, files[i].rel) && files[i] == ItemOf(files[i].rel, table[files[i].rel])
  {
    var all: seq<Item> :| IsRecent(table, all) && files == all[..Cut(limit, |all|)];
    assert all[i] in all;
  }

  lemma ListedByWalk(tree: Tree, limit: int, items: seq<Item>, j: nat)
    requires IsWalkList(tree, limit, items) && j < |items|
    ensures Indexable(tree, items[j].rel) && items[j] == WalkItem(tree, CandidateOf(tree, items[j].rel))
  {
    var cs: seq<Candidate> :| IsWalked(tree, cs) && Shows(tree, cs, limit, items);
    assert cs[j] in cs && Paths(cs)[j] == cs[j].rel;
  }

  /** Where no two files share a second, both list the same files in the same order. */
  lemma SameOrder(tree: Tree, table: Table, limit: int, files: seq<Item>, items: seq<Item>, i: nat)
    requires Synced(tree, table) && IsRecentList(table, limit, files) && IsWalkList(tree, limit, items)
    requires i < |files|
    requires forall a, b | Indexable(tree, a) && Indexable(tree, b) && a != b ::
               Seconds(tree[a].modNanos) != Seconds(tree[b].modNanos)
    ensures i < |items| && files[i].rel == items[i].rel
  {
    SameSeconds(tree, table, limit, files, items);
    ListedByIndex(tree, table, limit, files, i);
    ListedByWalk(tree, limit, items, i);
    assert Fresh(tree, files[i].rel, table[files[i].rel]);
  }

  lemma FirstSegmentIsNotUnknown(rel: string)
    ensures RecipientFromRel(rel) == FirstSegment(rel) <==> TrimSpace(FirstSegment(rel)) != ""
  {
    assert Trimmed("unknown", SPACES);
  }

  /** Entries for the same file say the same, up to the order of the tags; only
      the recipient differs, exactly when the first path segment is blank. */
  lemma SameEntry(tree: Tree, table: Table, limit: int, files: seq<Item>, items: seq<Item>, i: nat, j: nat)
    requires Synced(tree, table) && IsRecentList(table, limit, files) && IsWalkList(tree, limit, items)
    requires i < |files| && j < |items| && files[i].rel == items[j].rel
    ensures var x, y := files[i], items[j];
            && x.name == y.name && x.size == y.size && x.seconds == y.seconds
            && x.shown.state == y.shown.state && x.shown.person == y.shown.person
            && x.shown.animal == y.shown.animal && x.shown.vehicle == y.shown.vehicle
            && multiset(x.shown.tags) == multiset(y.shown.tags)
            && (x.recipient == y.recipient <==> TrimSpace(FirstSegment(x.rel)) != "")
  {
    ListedByIndex(tree, table, limit, files, i);
    ListedByWalk(tree, limit, items, j);
    var rel := files[i].rel;
    assert Fresh(tree, rel, table[rel]);
    FirstSegmentIsNotUnknown(rel);
  }
}
