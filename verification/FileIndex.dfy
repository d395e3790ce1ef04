/** The file index: one row per stored file, refreshed by upserts and a full
    backfill. The SQL table is a map from relative path to row. */
module FileIndex {
  import opened Listing
  import opened Text
  import opened Sorting
  import opened StorageNames
  import opened Sidecars

  /** A node of the storage tree. A file that parses as a sidecar says so. */
  datatype Node =
    | Directory
    | Special
    | Regular(size: int, modNanos: int, sidecar: Option<Sidecar>)

  // By relative path. The root itself is a directory and not listed.
  type Tree = map<string, Node>

  const SECOND := 1000000000

  function Seconds(nanos: int): int {
    nanos / SECOND
  }

  /** LoadSidecar of the file with this relative path. */
  function LoadSidecar(tree: Tree, rel: string): Option<Sidecar> {
    var path := SidecarPath(rel);
    if path in tree && tree[path].Regular? then tree[path].sidecar else None
  }

  /** WriteSidecar, given that it succeeds. */
  function WriteSidecar(tree: Tree, rel: string, size: int, nanos: int, sidecar: Sidecar): Tree {
    tree[SidecarPath(rel) := Regular(size, nanos, Some(sidecar))]
  }

  // ---------------------------------------------------------------- labels

  predicate IsGeneric(tag: string, category: string) {
    || tag == TrimSpace(Lower(category))
    || tag in {"person", "people", "human", "animal", "vehicle", "car"}
  }

  function Tag(d: Detection): string {
    TrimSpace(Lower(d.tag))
  }

  predicate Telling(d: Detection) {
    Tag(d) != "" && !IsGeneric(Tag(d), d.category)
  }

  /** The tags worth showing, each where it first occurs. */
  function FirstSeen(ds: seq<Detection>): seq<string> {
    if ds == [] then []
    else
      var d, front := ds[|ds| - 1], FirstSeen(ds[..|ds| - 1]);
      if Telling(d) && Tag(d) !in front then front + [Tag(d)] else front
  }

  /** A label tells something if it is neither blank, nor the category, nor one of
      the words that only repeat a category. */
  lemma TellingIs(d: Detection)
    ensures Tag(d) == TrimSpace(Lower(d.tag))
    ensures Telling(d) <==>
              && TrimSpace(Lower(d.tag)) != "" && TrimSpace(Lower(d.tag)) != TrimSpace(Lower(d.category))
              && TrimSpace(Lower(d.tag)) !in {"person", "people", "human", "animal", "vehicle", "car"}
  {
  }

  /** The labels come in the order in which they are first told. */
  lemma {:induction false} FirstSeenInOrder(ds: seq<Detection>, i: nat, j: nat)
    requires i < j < |FirstSeen(ds)|
    ensures exists k | 0 <= k < |ds| ::
              && Telling(ds[k]) && Tag(ds[k]) == FirstSeen(ds)[i]
              && forall l | 0 <= l <= k :: Telling(ds[l]) ==> Tag(ds[l]) != FirstSeen(ds)[j]
  {
    var front, last := ds[..|ds| - 1], ds[|ds| - 1];
    FirstSeenIsSet(front);
    if j < |FirstSeen(front)| {
      FirstSeenInOrder(front, i, j);
      var k :| && 0 <= k < |front| && Telling(front[k]) && Tag(front[k]) == FirstSeen(front)[i]
               && forall l | 0 <= l <= k :: Telling(front[l]) ==> Tag(front[l]) != FirstSeen(front)[j];
      assert ds[k] == front[k] && forall l | 0 <= l <= k :: ds[l] == front[l];
    } else {
      assert FirstSeen(front)[i] in FirstSeen(front);
      var d :| d in front && Telling(d) && Tag(d) == FirstSeen(front)[i];
      var k :| 0 <= k < |front| && front[k] == d;
      assert ds[k] == d && forall l | 0 <= l <= k :: ds[l] == front[l] && front[l] in front;
    }
  }

  /** A tag is shown exactly if some detection tells it, and once. */
  lemma {:induction false} FirstSeenIsSet(ds: seq<Detection>)
    ensures forall t :: t in FirstSeen(ds) <==> exists d :: d in ds && Telling(d) && Tag(d) == t
    ensures forall i, j | 0 <= i < j < |FirstSeen(ds)| :: FirstSeen(ds)[i] != FirstSeen(ds)[j]
  {
    if ds != [] {
      var front, last := ds[..|ds| - 1], ds[|ds| - 1];
      FirstSeenIsSet(front);
      assert forall d :: d in ds <==> d in front || d == last;
    }
  }

  /** The loop with its set of tags already seen. */
  method DetectionLabels(ds: seq<Detection>) returns (out: seq<string>)
    ensures out == FirstSeen(ds)
  {
    out := [];
    var seen := {};
    for i := 0 to |ds|
      invariant out == FirstSeen(ds[..i])
      invariant forall t :: t in seen <==> t in out
    {
      assert ds[..i + 1][..i] == ds[..i];
      var d := ds[i];
      if Telling(d) && Tag(d) !in seen {
        seen := seen + {Tag(d)};
        out := out + [Tag(d)];
      }
    }
    assert ds[..|ds|] == ds;
  }

  // --------------------------------------------------------------- summary

  datatype Summary = Summary(state: string, person: bool, animal: bool, vehicle: bool, tags: seq<string>)

  const NOTHING := Summary("", false, false, false, [])

  function Shown(s: Sidecar): Summary {
    Summary(DetectionStatus(Some(s)), s.hasPerson, s.hasAnimal, s.hasVehicle, FirstSeen(s.detections))
  }

  /** What the directory listing shows for a file. */
  function SummaryOf(tree: Tree, rel: string): Summary {
    if !IsVideoPath(rel) then NOTHING
    else
      match LoadSidecar(tree, rel)
      case None => NOTHING.(state := PENDING)
      case Some(s) => Shown(s)
  }

  /** The same up to the order of the tags. */
  ghost predicate Alike(a: Summary, b: Summary) {
    a.(tags := []) == b.(tags := []) && multiset(a.tags) == multiset(b.tags)
  }

  method ApplySidecar(s: Sidecar) returns (r: Summary)
    ensures Alike(r, Shown(s)) && Sorted(r.tags, Before)
  {
    var tags := DetectionLabels(s.detections);
    BeforeIsWeakOrder();
    tags := SortSlice(tags, Before);
    r := Summary(DetectionStatus(Some(s)), s.hasPerson, s.hasAnimal, s.hasVehicle, tags);
  }

  // ----------------------------------------------------------------- paths

  function Abs(root: string, rel: string): string {
    root + "/" + rel
  }

  lemma {:induction false} ExtOfAbs(root: string, rel: string)
    ensures Ext(Abs(root, rel)) == Ext(rel)
  {
    var path := Abs(root, rel);
    if rel != [] {
      assert path[..|path| - 1] == Abs(root, rel[..|rel| - 1]);
      ExtOfAbs(root, rel[..|rel| - 1]);
    }
  }

  lemma SuffixOfAbs(root: string, rel: string)
    ensures IsDetectionSidecarPath(Abs(root, rel)) <==> IsDetectionSidecarPath(rel)
  {
    var path, n := Lower(Abs(root, rel)), |SIDECAR_SUFFIX|;
    if n <= |rel| {
      assert path[|path| - n..] == Lower(rel)[|rel| - n..];
    } else if n <= |path| {
      // The separator would be part of the suffix.
      assert path[|path| - n..][|root| - (|path| - n)] == '/';
      assert forall c | c in SIDECAR_SUFFIX :: c != '/';
    }
  }

  /** Whether a path is a video or a sidecar does not depend on the root. */
  lemma KindOfAbs(root: string, rel: string)
    ensures IsVideoPath(Abs(root, rel)) <==> IsVideoPath(rel)
    ensures IsDetectionSidecarPath(Abs(root, rel)) <==> IsDetectionSidecarPath(rel)
  {
    ExtOfAbs(root, rel);
    SuffixOfAbs(root, rel);
  }

  function FirstSegment(rel: string): string {
    Split(rel, '/')[0]
  }

  function RecipientFromRel(rel: string): string {
    if TrimSpace(FirstSegment(rel)) == "" then "unknown" else FirstSegment(rel)
  }

  function Base(rel: string): string {
    var parts := Split(rel, '/');
    parts[|parts| - 1]
  }

  /** The first segment is the recipient's folder, the last the file's name; a blank
      recipient is "unknown". */
  lemma SegmentsAre(rel: string, first: string, rest: string, dir: string, name: string)
    requires '/' !in first && '/' !in name
    ensures rel == first + "/" + rest || rel == first ==> FirstSegment(rel) == first
    ensures rel == dir + "/" + name || rel == name ==> Base(rel) == name
    ensures RecipientFromRel(rel) == if TrimSpace(FirstSegment(rel)) == "" then "unknown" else FirstSegment(rel)
  {
    SplitWord(first, '/');
    SplitWord(name, '/');
    SplitConcat(first, '/', rest);
    SplitConcat(dir, '/', name);
  }

  // ----------------------------------------------------------------- index

  /** A row. The clock column and the redundant absolute path are left out. */
  datatype Row = Row(recipient: string, name: string, size: int, seconds: int, isVideo: bool, shown: Summary)

  type Table = map<string, Row>

  /** The files that have a row: regular ones that are not sidecars. */
  predicate Indexable(tree: Tree, rel: string) {
    rel in tree && tree[rel].Regular? && !IsDetectionSidecarPath(rel)
  }

  /** A row says what the tree says, with the time cut to seconds and the tags sorted. */
  ghost predicate Fresh(tree: Tree, rel: string, row: Row)
    requires Indexable(tree, rel)
  {
    && row.recipient == RecipientFromRel(rel) && row.name == Base(rel)
    && row.size == tree[rel].size && row.seconds == Seconds(tree[rel].modNanos)
    && row.isVideo == IsVideoPath(rel)
    && Alike(row.shown, SummaryOf(tree, rel)) && Sorted(row.shown.tags, Before)
  }

  /** Such a row, column by column. */
  lemma FreshIs(tree: Tree, rel: string, row: Row)
    requires Indexable(tree, rel) && Fresh(tree, rel, row)
    ensures row.recipient == RecipientFromRel(rel) && row.name == Base(rel) && row.size == tree[rel].size
    ensures row.seconds * 1000000000 <= tree[rel].modNanos < (row.seconds + 1) * 1000000000
    ensures row.isVideo <==> IsVideoPath(rel)
    ensures !IsVideoPath(rel) ==> row.shown == Summary("", false, false, false, [])
    ensures var path := rel + ".detections.json";
            IsVideoPath(rel) ==>
              if path in tree && tree[path].Regular? && tree[path].sidecar.Some?
              then Alike(row.shown, Shown(tree[path].sidecar.value))
              else row.shown == Summary("pending", false, false, false, [])
  {
    assert !IsVideoPath(rel) || LoadSidecar(tree, rel).None? ==> |multiset(row.shown.tags)| == 0;
  }

  /** What shows a sidecar: its state, its flags, and each telling label once. */
  lemma ShownIs(shown: Summary, s: Sidecar)
    requires Alike(shown, Shown(s))
    ensures shown.state == "failed" <==> s.state == "failed"
    ensures shown.state == "skipped" <==> s.state == "skipped"
    ensures shown.state == "detected" <==> s.state == "success" && (s.hasPerson || s.hasAnimal || s.hasVehicle)
    ensures shown.state == "none" <==> s.state == "success" && !s.hasPerson && !s.hasAnimal && !s.hasVehicle
    ensures shown.state == "pending" <==> s.state !in {"failed", "skipped", "success"}
    ensures shown.person == s.hasPerson && shown.animal == s.hasAnimal && shown.vehicle == s.hasVehicle
    ensures forall t :: t in shown.tags <==> exists d :: d in s.detections && Telling(d) && Tag(d) == t
    ensures forall i, j | 0 <= i < j < |shown.tags| :: shown.tags[i] != shown.tags[j]
  {
    StatusIs(s);
    FirstSeenIsSet(s.detections);
    DistinctPermutes(FirstSeen(s.detections), shown.tags);
  }

  /** The rows are exactly the indexable files, and say what the tree says. */
  ghost predicate Synced(tree: Tree, table: Table) {
    && (forall rel :: rel in table <==> Indexable(tree, rel))
    && (forall rel | Indexable(tree, rel) :: Fresh(tree, rel, table[rel]))
  }

  lemma BackfilledIsSynced(tree: Tree, before: Table, after: Table)
    requires forall rel | rel !in before && rel in after :: Indexable(tree, rel)
    requires forall rel | rel in before && !Indexable(tree, rel) :: rel in after
    requires forall rel | Indexable(tree, rel) :: rel in after && Fresh(tree, rel, after[rel])
    ensures Synced(tree, after) <==> forall rel | rel in before :: Indexable(tree, rel)
  {
    hide Indexable, Fresh;
  }

  /** One row was refreshed, its detection columns set from the sidecar given, and
      nothing else changed. */
  ghost predicate Updated(tree: Tree, before: Table, after: Table, rel: string, sidecar: Sidecar) {
    && Indexable(tree, rel) && rel in after && after == before[rel := after[rel]]
    && Alike(after[rel].shown, Shown(sidecar)) && Sorted(after[rel].shown.tags, Before)
    && exists row :: Fresh(tree, rel, row) && after[rel] == row.(shown := after[rel].shown)
  }

  /** One row was refreshed and nothing else changed. */
  ghost predicate Refreshed(before: Table, after: Table, tree: Tree, rel: string) {
    Indexable(tree, rel) && rel in after && Fresh(tree, rel, after[rel]) && after == before[rel := after[rel]]
  }

  class Index {
    const root: string
    var table: Table

    constructor (root: string)
      ensures this.root == root && table == map[]
    {
      this.root := root;
      table := map[];
    }

    /** The row of a file, from its stat result and its sidecar. */
    method RowOf(tree: Tree, rel: string) returns (row: Row)
      requires Indexable(tree, rel)
      ensures Fresh(tree, rel, row)
    {
      var shown := NOTHING;
      if IsVideoPath(rel) {
        var sidecar := LoadSidecar(tree, rel);
        if sidecar.Some? {
          shown := ApplySidecar(sidecar.value);
        } else {
          shown := NOTHING.(state := PENDING);
        }
      }
      row := Row(RecipientFromRel(rel), Base(rel), tree[rel].size, Seconds(tree[rel].modNanos), IsVideoPath(rel),
                 shown);
    }

    /** UpsertPath with an absolute, cleaned path. Errors leave the table alone;
        so do sidecars, directories and special files, without an error. */
    method UpsertPath(tree: Tree, path: string) returns (ok: bool)
      modifies this
      ensures HasPrefix(path, root + "/") && Indexable(tree, path[|root| + 1..]) ==>
                ok && Refreshed(old(table), table, tree, path[|root| + 1..])
      ensures !(HasPrefix(path, root + "/") && Indexable(tree, path[|root| + 1..])) ==> table == old(table)
      ensures ok <==> || IsDetectionSidecarPath(path) || path == root
                      || (HasPrefix(path, root + "/") && path[|root| + 1..] in tree)
    {
      if path == root { return true; }
      if !HasPrefix(path, root + "/") { return IsDetectionSidecarPath(path); }
      var rel := path[|root| + 1..];
      assert path == Abs(root, rel);
      KindOfAbs(root, rel);
      if IsDetectionSidecarPath(path) { return true; }
      if rel !in tree { return false; }
      if !tree[rel].Regular? { return true; }
      var row := RowOf(tree, rel);
      table := table[rel := row];
      ok := true;
    }

    /** UpsertSidecar with an absolute, cleaned path: the row is refreshed from the
        tree, then its detection columns are set from the sidecar given. A path
        that is not below the root has no row. */
    method UpsertSidecar(tree: Tree, path: string, sidecar: Sidecar) returns (ok: bool)
      modifies this
      ensures ok <==> || IsDetectionSidecarPath(path) || path == root
                      || (HasPrefix(path, root + "/") && path[|root| + 1..] in tree)
      ensures !ok || !HasPrefix(path, root + "/") ==> table == old(table)
      ensures HasPrefix(path, root + "/") ==>
                var rel := path[|root| + 1..];
                && (Indexable(tree, rel) ==> Updated(tree, old(table), table, rel, sidecar))
                && (!Indexable(tree, rel) && rel !in old(table) ==> table == old(table))
                && (ok && rel in table ==>
                      && var state := table[rel].shown.state;
                         && (state == "failed" <==> sidecar.state == "failed")
                         && (state == "skipped" <==> sidecar.state == "skipped")
                         && (state == "pending" <==> sidecar.state !in {"failed", "skipped", "success"})
                         && (state == "detected" <==>
                               sidecar.state == "success" &&
                               (sidecar.hasPerson || sidecar.hasAnimal || sidecar.hasVehicle)))
                && (ok && !Indexable(tree, rel) && rel in old(table) ==>
                      && rel in table && Alike(table[rel].shown, Shown(sidecar))
                      && table == old(table)[rel := old(table)[rel].(shown := table[rel].shown)])
    {
      ok := UpsertPath(tree, path);
      if !ok || !HasPrefix(path, root + "/") { return; }
      SetDetection(path[|root| + 1..], sidecar);
      StatusIs(sidecar);
    }

    /** The UPDATE of the detection columns: no row, no effect. */
    method SetDetection(rel: string, sidecar: Sidecar)
      modifies this
      ensures rel !in old(table) ==> table == old(table)
      ensures rel in old(table) ==>
                && rel in table && table == old(table)[rel := table[rel]]
                && Alike(table[rel].shown, Shown(sidecar)) && Sorted(table[rel].shown.tags, Before)
                && table[rel] == old(table)[rel].(shown := table[rel].shown)
    {
      var shown := ApplySidecar(sidecar);
      if rel in table { table := table[rel := table[rel].(shown := shown)]; }
    }

    /** Backfill over any walk of an unchanged tree. Uncancelled, it refreshes
        every indexable file's row and leaves all other rows as they are. `stop` says
        before which entries the context is found cancelled. */
    method Backfill(tree: Tree, walk: seq<string>, stop: nat -> bool) returns (cancelled: bool)
      requires Enumerates(walk, tree.Keys)
      modifies this
      ensures cancelled <==> exists i | 0 <= i < |walk| :: stop(i)
      ensures forall rel | rel !in old(table) && rel in table :: Indexable(tree, rel)
      ensures forall rel | rel in old(table) && !Indexable(tree, rel) :: rel in table && table[rel] == old(table)[rel]
      ensures !cancelled ==> forall rel | Indexable(tree, rel) :: rel in table && Fresh(tree, rel, table[rel])
      ensures !cancelled ==> (Synced(tree, table) <==> forall rel | rel in old(table) :: Indexable(tree, rel))
    {
      hide Fresh, Synced, IsVideoPath, IsDetectionSidecarPath;
      assert forall rel :: rel in (set n | n in walk) <==> rel in walk;
      for i := 0 to |walk|
        invariant forall k | 0 <= k < i :: !stop(k)
        invariant forall rel | rel !in old(table) && rel in table :: Indexable(tree, rel)
        invariant forall rel | rel in old(table) && !Indexable(tree, rel) ::
                    rel in table && table[rel] == old(table)[rel]
        invariant forall rel | Indexable(tree, rel) && rel in walk[..i] :: rel in table && Fresh(tree, rel, table[rel])
      {
        cancelled := stop(i);
        if cancelled { return; }
        var rel := walk[i];
        var path := Abs(root, rel);
        assert walk[..i + 1] == walk[..i] + [rel];
        assert path[|root| + 1..] == rel && HasPrefix(path, root + "/");
        KindOfAbs(root, rel);
        if !tree[rel].Directory? && !IsDetectionSidecarPath(path) {
          var ok := UpsertPath(tree, path);
        }
      }
      assert walk[..|walk|] == walk;
      cancelled := false;
      BackfilledIsSynced(tree, old(table), table);
    }

    /** The newest rows: by whole second, then by path, both descending. */
    method Recent(limit: int) returns (files: seq<Item>)
      ensures IsRecentList(table, limit, files)
    {
      if limit <= 0 { return []; }
      var order := ReadDir(table.Keys);
      NewestIsWeakOrder();
      EnumeratesMember(order, table.Keys);
      var sorted := SortSlice(Items(table, order), Newest);
      SortedIsRecent(table, order, sorted);
      files := sorted[..Cut(limit, |sorted|)];
    }
  }

  /** One entry of the list of recent files. */
  datatype Item = Item(rel: string, recipient: string, name: string, size: int, seconds: int, shown: Summary)

  function ItemOf(rel: string, row: Row): Item {
    Item(rel, row.recipient, row.name, row.size, row.seconds, row.shown)
  }

  function RelOf(item: Item): string {
    item.rel
  }

  function Rels(items: seq<Item>): seq<string> {
    MapSeq(items, RelOf)
  }

  function Cut(limit: int, n: nat): nat {
    if limit <= 0 then 0 else if limit < n then limit else n
  }

  predicate Newest(a: Item, b: Item) {
    a.seconds > b.seconds || (a.seconds == b.seconds && Before(b.rel, a.rel))
  }

  lemma NewestIsWeakOrder()
    ensures WeakOrder(Newest)
  {
    BeforeIsWeakOrder();
  }

  /** Every row once, newest first. */
  ghost predicate IsRecent(table: Table, all: seq<Item>) {
    && Enumerates(Rels(all), table.Keys) && Sorted(all, Newest)
    && forall item | item in all :: item.rel in table && item == ItemOf(item.rel, table[item.rel])
  }

  /** The first `limit` of them. */
  ghost predicate IsRecentList(table: Table, limit: int, files: seq<Item>) {
    if limit <= 0 then files == [] else exists all :: IsRecent(table, all) && files == all[..Cut(limit, |all|)]
  }

  /** What that means: the right number of rows, each as it is in the table, by whole
      second and then by path, both descending. */
  lemma RecentListIs(table: Table, limit: int, files: seq<Item>)
    requires IsRecentList(table, limit, files)
    ensures |files| == if limit <= 0 then 0 else if limit < |table| then limit else |table|
    ensures forall i | 0 <= i < |files| ::
              && files[i].rel in table
              && var row := table[files[i].rel];
                 files[i] == Item(files[i].rel, row.recipient, row.name, row.size, row.seconds, row.shown)
    ensures forall i, j | 0 <= i < j < |files| ::
              || files[i].seconds > files[j].seconds
              || (files[i].seconds == files[j].seconds && Before(files[j].rel, files[i].rel))
  {
    hide Before, Newest, Sorted, Enumerates;
    if limit > 0 {
      var all :| IsRecent(table, all) && files == all[..Cut(limit, |all|)];
      NewestIsStrict(table, all);
      EnumeratesCount(Rels(all), table.Keys);
      assert forall i | 0 <= i < |files| :: files[i] == all[i] && all[i] in all;
    }
  }

  /** And no row left out is newer than one in the list. */
  lemma NothingNewerIsLeftOut(table: Table, limit: int, files: seq<Item>, i: nat, rel: string)
    requires IsRecentList(table, limit, files) && i < |files| && rel in table
    requires forall k | 0 <= k < |files| :: files[k].rel != rel
    ensures files[i].seconds > table[rel].seconds ||
            (files[i].seconds == table[rel].seconds && Before(rel, files[i].rel))
  {
    hide Before, Newest, Enumerates, Sorted;
    var all :| IsRecent(table, all) && files == all[..Cut(limit, |all|)];
    NewestIsStrict(table, all);
    EnumeratesMember(Rels(all), table.Keys);
    assert rel in Rels(all);
    var j :| 0 <= j < |all| && Rels(all)[j] == rel;
    assert forall k | 0 <= k < |files| :: files[k].rel == Rels(all)[k];
    assert all[j] in all && files[i] == all[i];
  }

  lemma NewestIsStrict(table: Table, all: seq<Item>)
    requires IsRecent(table, all)
    ensures forall i, j | 0 <= i < j < |all| ::
              || all[i].seconds > all[j].seconds
              || (all[i].seconds == all[j].seconds && Before(all[j].rel, all[i].rel))
  {
    forall i, j | 0 <= i < j < |all|
      ensures || all[i].seconds > all[j].seconds
              || (all[i].seconds == all[j].seconds && Before(all[j].rel, all[i].rel))
    {
      assert Rels(all)[i] != Rels(all)[j];
      BeforeTotal(all[i].rel, all[j].rel);
      assert !Newest(all[j], all[i]);
    }
  }

  lemma PermutedRels(a: seq<Item>, b: seq<Item>)
    requires multiset(a) == multiset(b)
    requires forall i, j | 0 <= i < j < |a| :: Rels(a)[i] != Rels(a)[j]
    ensures forall i, j | 0 <= i < j < |b| :: Rels(b)[i] != Rels(b)[j]
    ensures (set n | n in Rels(b)) == (set n | n in Rels(a))
  {
    MapPermutation(a, b, RelOf);
    DistinctPermutes(Rels(a), Rels(b));
  }

  function Items(table: Table, order: seq<string>): (items: seq<Item>)
    requires forall n | n in order :: n in table
    ensures |items| == |order| && forall i | 0 <= i < |order| :: items[i] == ItemOf(order[i], table[order[i]])
  {
    seq(|order|, i requires 0 <= i < |order| => ItemOf(order[i], table[order[i]]))
  }

  lemma SortedIsRecent(table: Table, order: seq<string>, all: seq<Item>)
    requires Enumerates(order, table.Keys) && (forall n | n in order :: n in table)
    requires multiset(all) == multiset(Items(table, order)) && Sorted(all, Newest)
    ensures IsRecent(table, all)
  {
    var items := Items(table, order);
    assert Rels(items) == order;
    PermutedRels(items, all);
    forall item | item in all ensures item.rel in table && item == ItemOf(item.rel, table[item.rel]) {
      assert item in multiset(all) && item in multiset(items);
    }
  }

  // --------------------------------------------------------- staying in sync

  /** A row depends only on the file itself and its sidecar. */
  lemma FreshElsewhere(tree: Tree, changed: Tree, rel: string, row: Row)
    requires Indexable(tree, rel) && Fresh(tree, rel, row)
    requires rel in changed && changed[rel] == tree[rel] && LoadSidecar(changed, rel) == LoadSidecar(tree, rel)
    ensures Fresh(changed, rel, row)
  {
  }

  /** Replacing a file that is not a sidecar leaves every other row right. */
  lemma ReplacedElsewhere(tree: Tree, rel: string, node: Node, other: string, row: Row)
    requires !IsDetectionSidecarPath(rel) && other != rel
    requires Indexable(tree, other) && Fresh(tree, other, row)
    ensures Fresh(tree[rel := node], other, row)
  {
    SidecarPathIsSidecar(other);
    assert SidecarPath(other) != rel;
    FreshElsewhere(tree, tree[rel := node], other, row);
  }

  /** Indexing a stored file keeps the index in step, whatever the path was before. */
  lemma UpsertKeepsSync(tree: Tree, before: Table, rel: string, node: Node, after: Table)
    requires Synced(tree, before) && !IsDetectionSidecarPath(rel)
    requires Refreshed(before, after, tree[rel := node], rel)
    ensures Synced(tree[rel := node], after)
  {
    forall other | Indexable(tree[rel := node], other) ensures Fresh(tree[rel := node], other, after[other]) {
      if other != rel { ReplacedElsewhere(tree, rel, node, other, before[other]); }
    }
    forall other ensures other in after <==> Indexable(tree[rel := node], other) {
      assert other != rel ==> (other in before <==> Indexable(tree, other));
    }
  }

  lemma FreshWithShown(tree: Tree, rel: string, row: Row, shown: Summary)
    requires Indexable(tree, rel) && Fresh(tree, rel, row) && Sorted(shown.tags, Before)
    ensures Fresh(tree, rel, row.(shown := shown)) <==> Alike(shown, SummaryOf(tree, rel))
  {
  }

  /** Writing a video's sidecar and then its row keeps the index in step. */
  lemma SidecarKeepsSync(tree: Tree, before: Table, rel: string, size: int, nanos: int, sidecar: Sidecar, after: Table)
    requires Synced(tree, before) && Indexable(tree, rel) && IsVideoPath(rel)
    requires Updated(WriteSidecar(tree, rel, size, nanos, sidecar), before, after, rel, sidecar)
    ensures Synced(WriteSidecar(tree, rel, size, nanos, sidecar), after)
  {
    var written := WriteSidecar(tree, rel, size, nanos, sidecar);
    var row :| Fresh(written, rel, row) && after[rel] == row.(shown := after[rel].shown);
    FreshWithShown(written, rel, row, after[rel].shown);
    WrittenIndexable(tree, rel, size, nanos, sidecar);
    forall other | Indexable(tree, other) && other != rel ensures Fresh(written, other, after[other]) {
      WrittenElsewhere(tree, rel, size, nanos, sidecar, other, before[other]);
    }
  }

  lemma WrittenIndexable(tree: Tree, rel: string, size: int, nanos: int, sidecar: Sidecar)
    ensures forall other :: Indexable(WriteSidecar(tree, rel, size, nanos, sidecar), other) <==> Indexable(tree, other)
  {
    SidecarPathIsSidecar(rel);
  }

  /** Writing a sidecar leaves the rows of other files right. */
  lemma WrittenElsewhere(tree: Tree, rel: string, size: int, nanos: int, sidecar: Sidecar, other: string, row: Row)
    requires other != rel && Indexable(tree, other) && Fresh(tree, other, row)
    ensures Fresh(WriteSidecar(tree, rel, size, nanos, sidecar), other, row)
  {
    SidecarPathIsSidecar(rel);
    SidecarPathsDiffer(rel, other);
    FreshElsewhere(tree, WriteSidecar(tree, rel, size, nanos, sidecar), other, row);
  }

  /** A new or changed file that nobody indexes puts the index out of step, unless a
      row happens to say just that. */
  lemma UnindexedFileBreaksSync(tree: Tree, table: Table, rel: string, node: Node)
    requires Synced(tree, table) && node.Regular? && !IsDetectionSidecarPath(rel)
    ensures Synced(tree[rel := node], table) <==> rel in table && Fresh(tree[rel := node], rel, table[rel])
  {
    forall other | Indexable(tree, other) && other != rel ensures Fresh(tree[rel := node], other, table[other]) {
      ReplacedElsewhere(tree, rel, node, other, table[other]);
    }
    assert forall other | other != rel :: Indexable(tree[rel := node], other) <==> Indexable(tree, other);
  }

  const THUMBNAIL_SUFFIX := ".thumb.jpg"

  lemma ThumbnailIsIndexable(video: string)
    ensures !IsDetectionSidecarPath(video + THUMBNAIL_SUFFIX)
  {
    var path := Lower(video + THUMBNAIL_SUFFIX);
    assert path[|path| - 1] == 'g';
    assert SIDECAR_SUFFIX[|SIDECAR_SUFFIX| - 1] == 'n';
    if |path| >= |SIDECAR_SUFFIX| {
      assert path[|path| - |SIDECAR_SUFFIX|..][|SIDECAR_SUFFIX| - 1] == 'g';
    }
  }

  /** A successful job writes a thumbnail beside the video, which counts as a file of
      its own and is not indexed: until the next backfill index and tree agree
      exactly if a row for an earlier thumbnail still fits. */
  lemma ThumbnailBreaksSync(tree: Tree, table: Table, video: string, node: Node)
    requires Synced(tree, table) && node.Regular?
    ensures var thumb := video + THUMBNAIL_SUFFIX;
            Synced(tree[thumb := node], table) <==> thumb in table && Fresh(tree[thumb := node], thumb, table[thumb])
  {
    ThumbnailIsIndexable(video);
    UnindexedFileBreaksSync(tree, table, video + THUMBNAIL_SUFFIX, node);
  }

  lemma SidecarPathsDiffer(a: string, b: string)
    requires a != b
    ensures SidecarPath(a) != SidecarPath(b)
  {
    assert SidecarPath(a)[..|SidecarPath(a)| - |SIDECAR_SUFFIX|] == a;
    assert SidecarPath(b)[..|SidecarPath(b)| - |SIDECAR_SUFFIX|] == b;
  }

  /** The row is updated even when the write failed. Then index and tree agree
      exactly if the old sidecar happens to show the same as the new one. */
  lemma LostWriteBreaksSync(tree: Tree, before: Table, rel: string, sidecar: Sidecar, after: Table)
    requires Synced(tree, before) && Indexable(tree, rel) && IsVideoPath(rel)
    requires Updated(tree, before, after, rel, sidecar)
    ensures Synced(tree, after) <==> Alike(Shown(sidecar), SummaryOf(tree, rel))
  {
    var row :| Fresh(tree, rel, row) && after[rel] == row.(shown := after[rel].shown);
    FreshWithShown(tree, rel, row, after[rel].shown);
  }
}
