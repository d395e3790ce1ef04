/** Runs that show the assumptions of the spool theorems are needed. */
module SpoolLimits {
  import opened Text
  import opened Listing
  import opened SpoolMachine
  import opened SpoolBound

  const EMPTY := State(map[], map[], map[], map[], Idle, Down, map[], map[], map[], map[], map[], 0)

  lemma Extend(c: Config, s: State, evs: seq<Event>, t: State, ev: Event) returns (longer: seq<Event>, u: State)
    requires Run(c, s, evs) == To(t) && Next(c, t, ev).To?
    ensures longer == evs + [ev] && evs <= longer && Run(c, s, longer) == To(u) && u == Next(c, t, ev).value
    ensures FreshRun(c, s, evs) && NamesFresh(t, ev) ==> FreshRun(c, s, longer)
    ensures WorkerRunSucceeds(evs) && WorkerSucceeds(ev) ==> WorkerRunSucceeds(longer)
  {
    longer, u := evs + [ev], Next(c, t, ev).value;
    RunExtends(c, s, evs, t, ev);
  }

  lemma WriteOut(c: Config, s: State, evs: seq<Event>, t: State, name: string, line: Bytes, raw: Bytes)
    returns (longer: seq<Event>, u: State)
    requires Run(c, s, evs) == To(t) && t.enq == Admitted(line, raw) && name !in t.tmp
    ensures Run(c, s, longer) == To(u) && evs <= longer
    ensures u == t.(tmp := t.tmp[name := line + raw], enq := Writing(name, line, raw, 2))
    ensures FreshRun(c, s, evs) && Fresh(t, name) ==> FreshRun(c, s, longer)
    ensures WorkerRunSucceeds(evs) ==> WorkerRunSucceeds(longer)
  {
    hide Run, FreshRun, WorkerRunSucceeds, Measure;
    longer, u := Extend(c, s, evs, t, Enq(Create(name)));
    longer, u := AppendOne(c, s, longer, u);
    assert "" + line == line;
    longer, u := AppendOne(c, s, longer, u);
    assert u.tmp == t.tmp[name := line + raw];
  }

  lemma AppendOne(c: Config, s: State, evs: seq<Event>, t: State) returns (longer: seq<Event>, u: State)
    requires Run(c, s, evs) == To(t) && t.enq.Writing? && t.enq.stage < 2 && t.enq.name in t.tmp
    ensures Run(c, s, longer) == To(u) && evs <= longer
    ensures var name := t.enq.name;
            u == t.(tmp := t.tmp[name := t.tmp[name] + if t.enq.stage == 0 then t.enq.line else t.enq.raw],
                    enq := Writing(name, t.enq.line, t.enq.raw, t.enq.stage + 1))
    ensures FreshRun(c, s, evs) ==> FreshRun(c, s, longer)
    ensures WorkerRunSucceeds(evs) ==> WorkerRunSucceeds(longer)
  {
    longer, u := Extend(c, s, evs, t, Enq(Append));
  }

  lemma HandOver(c: Config, s: State, evs: seq<Event>, t: State) returns (longer: seq<Event>, u: State)
    requires Run(c, s, evs) == To(t) && t.enq.Writing? && t.enq.stage == 2 && t.enq.name in t.tmp
    ensures Run(c, s, longer) == To(u) && evs <= longer
    ensures var name, bytes := t.enq.name, t.tmp[t.enq.name];
            u == t.(tmp := t.tmp - {name}, pending := t.pending[name := bytes], enq := Idle,
                    published := t.published[name := bytes], epoch := t.epoch[name := t.restarts],
                    accepted := t.accepted[name := Receipt(bytes, t.restarts)])
    ensures FreshRun(c, s, evs) ==> FreshRun(c, s, longer)
    ensures WorkerRunSucceeds(evs) ==> WorkerRunSucceeds(longer)
  {
    hide Run, FreshRun, WorkerRunSucceeds, Measure, NextWrk;
    longer, u := Extend(c, s, evs, t, Enq(Publish));
    longer, u := Extend(c, s, longer, u, Enq(Return));
  }

  /** One uninterrupted Enqueue from the admission on. */
  lemma Deliver(c: Config, s: State, evs: seq<Event>, t: State, name: string, line: Bytes, raw: Bytes)
    returns (longer: seq<Event>, u: State)
    requires Run(c, s, evs) == To(t) && t.enq == Admitted(line, raw) && name !in t.tmp
    ensures Run(c, s, longer) == To(u) && evs <= longer
    ensures u == t.(pending := t.pending[name := line + raw], enq := Idle,
                    published := t.published[name := line + raw], epoch := t.epoch[name := t.restarts],
                    accepted := t.accepted[name := Receipt(line + raw, t.restarts)])
    ensures FreshRun(c, s, evs) && Fresh(t, name) ==> FreshRun(c, s, longer)
    ensures WorkerRunSucceeds(evs) ==> WorkerRunSucceeds(longer)
  {
    longer, u := WriteOut(c, s, evs, t, name, line, raw);
    assert t.tmp[name := line + raw] - {name} == t.tmp;
    longer, u := HandOver(c, s, longer, u);
  }

  /** A measurement that finds nothing in either directory. */
  lemma MeasureEmpty(c: Config, s: State, evs: seq<Event>, t: State, line: Bytes, raw: Bytes)
    returns (longer: seq<Event>, u: State)
    requires Run(c, s, evs) == To(t) && t.enq == Idle && t.pending == map[] && t.processing == map[]
    requires !c.atomicMeasure && 0 < c.maxBytes && |raw| <= c.maxBytes && |line| <= c.lineMax
    ensures Run(c, s, longer) == To(u) && evs <= longer
    ensures u == t.(enq := Admitted(line, raw))
    ensures FreshRun(c, s, evs) ==> FreshRun(c, s, longer)
    ensures WorkerRunSucceeds(evs) ==> WorkerRunSucceeds(longer)
  {
    longer, u := Extend(c, s, evs, t, Enq(Lock(line, raw)));
    longer, u := Extend(c, s, longer, u, Enq(ListPending([])));
    longer, u := ListEmptyAndAdmit(c, s, longer, u);
  }

  lemma ListEmptyAndAdmit(c: Config, s: State, evs: seq<Event>, t: State) returns (longer: seq<Event>, u: State)
    requires Run(c, s, evs) == To(t) && t.enq.Walking? && t.enq.next == |t.enq.names| && !t.enq.second
    requires t.processing == map[] && t.enq.total + |t.enq.raw| <= c.maxBytes
    ensures Run(c, s, longer) == To(u) && evs <= longer
    ensures u == t.(enq := Admitted(t.enq.line, t.enq.raw))
    ensures FreshRun(c, s, evs) ==> FreshRun(c, s, longer)
    ensures WorkerRunSucceeds(evs) ==> WorkerRunSucceeds(longer)
  {
    longer, u := Extend(c, s, evs, t, Enq(ListProcessing([])));
    longer, u := Extend(c, s, longer, u, Enq(Admit));
  }

  const SMALL := Config(4, 1, false, false)

  const ITEM := map["a.eml" := "maaaa"]

  /** The spool with one delivered item, wherever it is. */
  function WithItem(pending: map<string, Bytes>, processing: map<string, Bytes>, enq: EnqPc, wrk: WrkPc): State {
    State(map[], pending, processing, map[], enq, wrk, ITEM, map["a.eml" := 0],
          map["a.eml" := Receipt("maaaa", 0)], map[], map[], 0)
  }

  ghost predicate Reaches(evs: seq<Event>, u: State) {
    Run(SMALL, EMPTY, evs) == To(u) && FreshRun(SMALL, EMPTY, evs) && WorkerRunSucceeds(evs)
  }

  lemma Go(evs: seq<Event>, t: State, ev: Event, u: State) returns (longer: seq<Event>)
    requires Reaches(evs, t) && Next(SMALL, t, ev) == To(u) && WorkerSucceeds(ev) && NamesFresh(t, ev)
    ensures Reaches(longer, u)
  {
    var last;
    longer, last := Extend(SMALL, EMPTY, evs, t, ev);
  }

  lemma FirstItemDelivered() returns (evs: seq<Event>)
    ensures Reaches(evs, WithItem(ITEM, map[], Idle, Down))
  {
    var u := EMPTY;
    evs, u := MeasureEmpty(SMALL, EMPTY, [], u, "m", "aaaa");
    evs, u := Deliver(SMALL, EMPTY, evs, u, "a.eml", "m", "aaaa");
    assert "m" + "aaaa" == "maaaa";
    assert u == WithItem(ITEM, map[], Idle, Down);
  }

  lemma FirstItemPicked() returns (evs: seq<Event>)
    ensures Reaches(evs, WithItem(ITEM, map[], Idle, Picked("a.eml")))
  {
    evs := FirstItemDelivered();
    hide Reaches, Write, TryClaim, TryStore, Finish;
    evs := Go(evs, WithItem(ITEM, map[], Idle, Down), Wrk(Start([])), WithItem(ITEM, map[], Idle, Recovering([])));
    evs := Go(evs, WithItem(ITEM, map[], Idle, Recovering([])), Wrk(Recovered), WithItem(ITEM, map[], Idle, Ready));
    assert IsNext("a.eml", ITEM) by {
      assert "a.eml"[1..] == ".eml";
      NotBeforeItself("a.eml");
    }
    evs := Go(evs, WithItem(ITEM, map[], Idle, Ready), Wrk(Pick("a.eml")),
              WithItem(ITEM, map[], Idle, Picked("a.eml")));
  }

  lemma FirstItemRetained() returns (evs: seq<Event>)
    ensures Reaches(evs, WithItem(map[], ITEM, Idle, Retaining("a.eml")))
  {
    evs := FirstItemPicked();
    hide Reaches, Write, Restore, Finish;
    assert ITEM - {"a.eml"} == map[];
    evs := Go(evs, WithItem(ITEM, map[], Idle, Picked("a.eml")), Wrk(Claim(true)),
              WithItem(map[], ITEM, Idle, Claimed("a.eml")));
    evs := Go(evs, WithItem(map[], ITEM, Idle, Claimed("a.eml")), Wrk(Store(Unavailable)),
              WithItem(map[], ITEM, Idle, Retaining("a.eml")));
  }

  lemma WalkBegun() returns (evs: seq<Event>)
    ensures Reaches(evs, WithItem(map[], ITEM, Walking("m", "bbbb", [], 0, 0, false), Retaining("a.eml")))
  {
    evs := FirstItemRetained();
    evs := Go(evs, WithItem(map[], ITEM, Idle, Retaining("a.eml")), Enq(Lock("m", "bbbb")),
              WithItem(map[], ITEM, Locked("m", "bbbb"), Retaining("a.eml")));
    evs := Go(evs, WithItem(map[], ITEM, Locked("m", "bbbb"), Retaining("a.eml")), Enq(ListPending([])),
              WithItem(map[], ITEM, Walking("m", "bbbb", [], 0, 0, false), Retaining("a.eml")));
  }

  lemma WalkOvertaken() returns (evs: seq<Event>)
    ensures Reaches(evs, WithItem(ITEM, map[], Admitted("m", "bbbb"), Ready))
  {
    evs := WalkBegun();
    var walk := Walking("m", "bbbb", [], 0, 0, false);
    assert ITEM - {"a.eml"} == map[];
    evs := Go(evs, WithItem(map[], ITEM, walk, Retaining("a.eml")), Wrk(PutBack(true)),
              WithItem(ITEM, map[], walk, Ready));
    var admitted;
    evs, admitted := ListEmptyAndAdmit(SMALL, EMPTY, evs, WithItem(ITEM, map[], walk, Ready));
    assert admitted == WithItem(ITEM, map[], Admitted("m", "bbbb"), Ready);
  }

  /** The bound of SpoolStaysBounded is reached exactly: while Enqueue walks from
      pending to processing, the worker takes the only item the other way. */
  lemma OvertakenWalkReachesTheBound() returns (evs: seq<Event>, u: State)
    ensures !SMALL.atomicMeasure && Init(EMPTY) && Lone(EMPTY) && Load(EMPTY) <= SMALL.maxBytes
    ensures Run(SMALL, EMPTY, evs) == To(u) && FreshRun(SMALL, EMPTY, evs) && WorkerRunSucceeds(evs)
    ensures Sized(5, u) && forall n | n in u.published :: |u.published[n]| <= 5
    ensures Load(u) == SMALL.maxBytes + SMALL.lineMax + 5
  {
    evs := WalkOvertaken();
    evs, u := Deliver(SMALL, EMPTY, evs, WithItem(ITEM, map[], Admitted("m", "bbbb"), Ready), "b.eml", "m", "bbbb");
    assert "m" + "bbbb" == "mbbbb";
    assert u.pending == map["a.eml" := "maaaa", "b.eml" := "mbbbb"];
    WeightPick(u.pending.Keys, "a.eml", u.pending);
    assert u.pending.Keys - {"a.eml"} == {"b.eml"};
    WeightPick({"b.eml"}, "b.eml", u.pending);
    assert {"b.eml"} - {"b.eml"} == {};
  }

  /** Without fresh names an accepted message can vanish: the publishing rename
      does not look at its target. */
  lemma ReusedNameLosesAMessage() returns (c: Config, first: seq<Event>, t: State, second: seq<Event>, u: State)
    ensures Init(EMPTY) && Run(c, EMPTY, first) == To(t) && Run(c, EMPTY, second) == To(u) && first <= second
    ensures "a.eml" in t.accepted && t.accepted["a.eml"].bytes == "mone"
    ensures u.stored == map[] && u.processing == map[] && u.failed == map[] && u.tmp == map[]
    ensures u.pending == map["a.eml" := "mtwo"]
  {
    c := Config(0, 1, false, false);
    assert Run(c, EMPTY, []) == To(EMPTY);
    hide Run, FreshRun, WorkerRunSucceeds, Next;
    first, t := DeliverUnder(c, [], EMPTY, "a.eml", "one");
    second, u := DeliverUnder(c, first, t, "a.eml", "two");
    assert "m" + "one" == "mone" && "m" + "two" == "mtwo";
  }

  lemma DeliverUnder(c: Config, evs: seq<Event>, t: State, name: string, raw: Bytes)
    returns (longer: seq<Event>, u: State)
    requires Run(c, EMPTY, evs) == To(t) && t.enq.Idle? && name !in t.tmp && c.maxBytes == 0 && c.lineMax == 1
    ensures Run(c, EMPTY, longer) == To(u) && evs <= longer
    ensures u == t.(pending := t.pending[name := "m" + raw], enq := Idle,
                    published := t.published[name := "m" + raw], epoch := t.epoch[name := t.restarts],
                    accepted := t.accepted[name := Receipt("m" + raw, t.restarts)])
  {
    hide Run, FreshRun, WorkerRunSucceeds, Write;
    longer, u := Extend(c, EMPTY, evs, t, Enq(Lock("m", raw)));
    longer, u := Deliver(c, EMPTY, longer, u, name, "m", raw);
  }
}
