/** Item names and the receipt times inside the items, over whole runs. */
module SpoolOrder {
  import opened CivilTime
  import opened Sorting
  import opened SpoolMachine
  import opened Text
  import SpoolItem

  /** The receipt time an item's bytes give, if they can be read. */
  function ReceiptTime(bytes: Bytes): Option<Time> {
    var item := SpoolItem.ReadItem(bytes);
    if item.None? then None else Parse(item.value.receivedAt)
  }

  /** The name is one made from the receipt time in the item. */
  ghost predicate NamedByTime(name: string, bytes: Bytes) {
    var at := ReceiptTime(bytes);
    at.Some? && Valid(at.value) && exists suffix :: name == SpoolItem.ItemName(at.value, suffix)
  }

  lemma ContentIsNamed(raw: Bytes, at: Time, suffix: string)
    requires Valid(at)
    ensures ReceiptTime(SpoolItem.Content(raw, at)) == Some(at)
    ensures NamedByTime(SpoolItem.ItemName(at, suffix), SpoolItem.Content(raw, at))
  {
    SpoolItem.ReadBack(raw, at, at);
    ParseOfFormat(at);
  }

  /** The worker takes the names that end in ".eml". */
  lemma EmlIs(name: string)
    ensures IsEml(name) <==> exists stem :: name == stem + ".eml"
  {
    if IsEml(name) { assert name == name[..|name| - 4] + ".eml"; }
  }

  /** The names Enqueue makes, for every time and suffix, are names the worker takes. */
  lemma ItemNamesAreTaken(at: Time, suffix: string)
    requires Valid(at)
    ensures SpoolItem.ItemName(at, suffix) == UtcStamp(at) + "-" + suffix + ".eml"
    ensures IsEml(SpoolItem.ItemName(at, suffix))
  {
    assert SpoolItem.ItemName(at, suffix) == UtcStamp(at) + "-" + suffix + ".eml";
    EmlIs(SpoolItem.ItemName(at, suffix));
  }

  lemma NamedIsTaken(name: string, bytes: Bytes)
    requires NamedByTime(name, bytes)
    ensures IsEml(name)
  {
    var at := ReceiptTime(bytes).value;
    var suffix :| name == SpoolItem.ItemName(at, suffix);
    ItemNamesAreTaken(at, suffix);
  }

  /** What Enqueue does about names: it makes them from the time it writes. */
  ghost predicate NamesTimed(s: State, ev: Event) {
    ev.Enq? && ev.e.Create? && s.enq.Admitted? ==> NamedByTime(ev.e.name, s.enq.line + s.enq.raw)
  }

  ghost predicate TimedRun(c: Config, s: State, evs: seq<Event>) {
    evs == [] ||
    var before := Run(c, s, evs[..|evs| - 1]);
    TimedRun(c, s, evs[..|evs| - 1]) && before.To? && NamesTimed(before.value, evs[|evs| - 1])
  }

  lemma TimedRunExtends(c: Config, s: State, evs: seq<Event>, t: State, ev: Event)
    requires Run(c, s, evs) == To(t) && TimedRun(c, s, evs) && NamesTimed(t, ev)
    ensures TimedRun(c, s, evs + [ev])
  {
    var longer := evs + [ev];
    assert longer[..|longer| - 1] == evs && longer[|longer| - 1] == ev;
  }

  /** Every item but those found at the start is named by its own time. */
  ghost predicate Timed(found: map<string, Bytes>, s: State) {
    && (forall n | n in s.published :: n in found || NamedByTime(n, s.published[n]))
    && (s.enq.Writing? ==> NamedByTime(s.enq.name, s.enq.line + s.enq.raw))
  }

  lemma WriteKeepsTimed(found: map<string, Bytes>, s: State, e: EnqEvent)
    requires Timed(found, s) && EnqueueHolds(s) && Write(s, e).To? && NamesTimed(s, Enq(e))
    ensures Timed(found, Write(s, e).value)
  {
    hide NamedByTime;
    if e.Publish? {
      PublishKeepsTimed(found, s);
    } else if e.Create? {
      CreateKeepsTimed(found, s, e.name);
    } else if e.Append? {
      AppendKeepsTimed(found, s);
    } else {
      assert Write(s, e).value.published == s.published;
    }
  }

  lemma CreateKeepsTimed(found: map<string, Bytes>, s: State, name: string)
    requires Timed(found, s) && Write(s, Create(name)).To? && NamesTimed(s, Enq(Create(name)))
    ensures Timed(found, Write(s, Create(name)).value)
  {
    hide NamedByTime;
  }

  lemma AppendKeepsTimed(found: map<string, Bytes>, s: State)
    requires Timed(found, s) && Write(s, Append).To?
    ensures Timed(found, Write(s, Append).value)
  {
    hide NamedByTime;
  }

  lemma PublishKeepsTimed(found: map<string, Bytes>, s: State)
    requires Timed(found, s) && EnqueueHolds(s) && Write(s, Publish).To?
    ensures Timed(found, Write(s, Publish).value)
  {
    hide NamedByTime;
    assert Write(s, Publish).value.published == s.published[s.enq.name := s.enq.line + s.enq.raw];
  }

  lemma StepKeepsTimed(c: Config, found: map<string, Bytes>, s: State, ev: Event)
    requires Timed(found, s) && EnqueueHolds(s) && Next(c, s, ev).To? && NamesTimed(s, ev)
    ensures Timed(found, Next(c, s, ev).value)
  {
    hide NamedByTime, Write;
    match ev
    case Enq(e) => if !IsMeasuring(s.enq) { WriteKeepsTimed(found, s, e); }
    case Wrk(w) => assert Framed(s, NextWrk(c, s, w).value);
    case Crash =>
  }

  /** In every reachable state each item published since the start has a name made
      from the receipt time its own bytes give. */
  lemma {:induction false} NamesCarryTimes(c: Config, s: State, evs: seq<Event>)
    requires Init(s) && Run(c, s, evs).To? && FreshRun(c, s, evs) && TimedRun(c, s, evs)
    ensures Timed(s.published, Run(c, s, evs).value)
  {
    if evs != [] {
      var front := evs[..|evs| - 1];
      RunKeepsInv(c, s, front);
      NamesCarryTimes(c, s, front);
      StepKeepsTimed(c, s.published, Run(c, s, front).value, evs[|evs| - 1]);
    }
  }

  /** The receipt times of the listed items never decrease. Left aside are items
      not named by their time, which only the start can have brought, and times
      whose UTC year has not four digits. */
  ghost predicate ReceivedInOrder(items: map<string, Bytes>, order: seq<string>) {
    forall i, j | 0 <= i < j < |order| && Dated(items, order[i]) && Dated(items, order[j]) ::
      Instant(ReceiptTime(items[order[i]]).value) <= Instant(ReceiptTime(items[order[j]]).value)
  }

  ghost predicate Dated(items: map<string, Bytes>, n: string) {
    n in items && NamedByTime(n, items[n]) && UtcFits(ReceiptTime(items[n]).value)
  }

  lemma WrittenIsDated(items: map<string, Bytes>, n: string, at: Time, suffix: string, raw: Bytes)
    requires n in items && Valid(at) && UtcFits(at)
    requires n == UtcStamp(at) + "-" + suffix + ".eml" && items[n] == SpoolItem.Content(raw, at)
    ensures Dated(items, n) && ReceiptTime(items[n]) == Some(at)
  {
    hide SpoolItem.ItemName, SpoolItem.Content, Instant, ReceiptTime;
    ContentIsNamed(raw, at, suffix);
    ItemNamesAreTaken(at, suffix);
  }

  /** For items written by Enqueue the order says that the earlier in the list was
      received no later. */
  lemma OrderIsOfReceipts(items: map<string, Bytes>, order: seq<string>, i: nat, j: nat,
                          a: Time, x: string, r: Bytes, b: Time, y: string, s: Bytes)
    requires ReceivedInOrder(items, order) && i < j < |order| && order[i] in items && order[j] in items
    requires Valid(a) && UtcFits(a) && Valid(b) && UtcFits(b)
    requires order[i] == UtcStamp(a) + "-" + x + ".eml" && items[order[i]] == SpoolItem.Content(r, a)
    requires order[j] == UtcStamp(b) + "-" + y + ".eml" && items[order[j]] == SpoolItem.Content(s, b)
    ensures Instant(a) <= Instant(b)
  {
    hide Instant, Dated, ReceiptTime, UtcFits, UtcStamp, SpoolItem.Content;
    WrittenIsDated(items, order[i], a, x, r);
    WrittenIsDated(items, order[j], b, y, s);
  }

  /** Items taken in name order are taken in the order of their receipt. */
  lemma NameOrderIsTimeOrder(items: map<string, Bytes>, order: seq<string>)
    requires Sorted(order, Before)
    ensures ReceivedInOrder(items, order)
  {
    forall i, j | 0 <= i < j < |order| && Dated(items, order[i]) && Dated(items, order[j])
      ensures Instant(ReceiptTime(items[order[i]]).value) <= Instant(ReceiptTime(items[order[j]]).value)
    {
      var a, b := ReceiptTime(items[order[i]]).value, ReceiptTime(items[order[j]]).value;
      var x :| order[i] == SpoolItem.ItemName(a, x);
      var y :| order[j] == SpoolItem.ItemName(b, y);
      SpoolItem.NamesFollowTime(a, x, b, y);
    }
  }
}
