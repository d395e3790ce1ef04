/** The byte limit of the spool over whole runs, with the two directories
    measured by a walk that the worker may overtake. */
module SpoolBound {
  import opened Listing
  import opened SpoolMachine

  // -------------------------------------------------- sizes of sets of items

  /** The bytes of the named items together. */
  ghost function Weight(names: set<string>, items: map<string, Bytes>): nat
    requires names <= items.Keys
  {
    if names == {} then 0
    else
      var n :| n in names;
      |items[n]| + Weight(names - {n}, items)
  }

  lemma {:induction false} WeightPick(names: set<string>, n: string, items: map<string, Bytes>)
    requires names <= items.Keys && n in names
    ensures Weight(names, items) == |items[n]| + Weight(names - {n}, items)
  {
    var m :| m in names && Weight(names, items) == |items[m]| + Weight(names - {m}, items);
    if m != n {
      WeightPick(names - {m}, n, items);
      WeightPick(names - {n}, m, items);
      assert names - {m} - {n} == names - {n} - {m};
    }
  }

  lemma {:induction false} WeightMono(small: set<string>, big: set<string>, items: map<string, Bytes>)
    requires small <= big <= items.Keys
    ensures Weight(small, items) <= Weight(big, items)
  {
    if small != {} {
      var n :| n in small;
      WeightPick(small, n, items);
      WeightPick(big, n, items);
      WeightMono(small - {n}, big - {n}, items);
    }
  }

  lemma {:induction false} WeightUnion(a: set<string>, b: set<string>, items: map<string, Bytes>)
    requires a <= items.Keys && b <= items.Keys
    ensures Weight(a + b, items) <= Weight(a, items) + Weight(b, items)
    ensures a !! b ==> Weight(a + b, items) == Weight(a, items) + Weight(b, items)
    decreases a
  {
    if a == {} {
      assert a + b == b;
    } else {
      var n :| n in a;
      WeightPick(a, n, items);
      WeightPick(a + b, n, items);
      WeightUnion(a - {n}, b, items);
      if n in b {
        assert a + b - {n} <= a - {n} + b;
        WeightMono(a + b - {n}, a - {n} + b, items);
      } else {
        assert a + b - {n} == a - {n} + b;
      }
    }
  }

  lemma {:induction false} WeightAgree(names: set<string>, items: map<string, Bytes>, others: map<string, Bytes>)
    requires names <= items.Keys && names <= others.Keys
    requires forall n | n in names :: items[n] == others[n]
    ensures Weight(names, items) == Weight(names, others)
  {
    if names != {} {
      var n :| n in names;
      WeightPick(names, n, items);
      WeightPick(names, n, others);
      WeightAgree(names - {n}, items, others);
    }
  }

  /** The bytes measured for a list of names, read off the published items. */
  ghost function Measured(names: seq<string>, items: map<string, Bytes>): nat
    requires forall n | n in names :: n in items
  {
    if names == [] then 0 else Measured(names[..|names| - 1], items) + |items[names[|names| - 1]]|
  }

  ghost function Names(names: seq<string>): set<string> {
    set n | n in names
  }

  lemma {:induction false} MeasuredCovers(names: seq<string>, items: map<string, Bytes>)
    requires forall n | n in names :: n in items
    ensures Weight(Names(names), items) <= Measured(names, items)
  {
    if names != [] {
      var front, last := names[..|names| - 1], names[|names| - 1];
      assert names == front + [last];
      assert Names(names) == Names(front) + {last};
      MeasuredCovers(front, items);
      WeightUnion(Names(front), {last}, items);
      WeightPick({last}, last, items);
      assert {last} - {last} == {};
    }
  }

  /** A one-shot listing measures exactly what the directory holds. */
  lemma {:induction false} SizeOfIsWeight(order: seq<string>, dir: map<string, Bytes>)
    requires forall i, j | 0 <= i < j < |order| :: order[i] != order[j]
    requires Names(order) <= dir.Keys
    ensures SizeOf(order, dir) == Weight(Names(order), dir)
  {
    if order != [] {
      assert order == [order[0]] + order[1..];
      assert Names(order) - {order[0]} == Names(order[1..]) by {
        forall n | n in Names(order[1..]) ensures n != order[0] {
          var i :| 0 <= i < |order| - 1 && order[1..][i] == n;
          assert order[i + 1] == n;
        }
      }
      WeightPick(Names(order), order[0], dir);
      SizeOfIsWeight(order[1..], dir);
    }
  }

  // ---------------------------------------------------------------- the bound

  ghost function Live(s: State): set<string> {
    s.pending.Keys + s.processing.Keys
  }

  ghost predicate AllPublished(s: State) {
    Live(s) <= s.published.Keys
    && (forall n | n in s.pending :: s.pending[n] == s.published[n])
    && (forall n | n in s.processing :: s.processing[n] == s.published[n])
  }

  /** The bytes that count against the limit. */
  ghost function Load(s: State): nat {
    Weight(s.pending.Keys, s.pending) + Weight(s.processing.Keys, s.processing)
  }

  lemma LoadIsWeight(s: State)
    requires AllPublished(s) && s.pending.Keys !! s.processing.Keys
    ensures Load(s) == Weight(Live(s), s.published)
  {
    WeightAgree(s.pending.Keys, s.pending, s.published);
    WeightAgree(s.processing.Keys, s.processing, s.published);
    WeightUnion(s.pending.Keys, s.processing.Keys, s.published);
  }

  /** What the code's bound leaves open: nothing when both directories are
      measured at one instant, what processing can hold when the walk can be
      overtaken. */
  ghost function Slack(c: Config, held: nat): nat {
    if c.atomicMeasure then 0 else held
  }

  /** The bytes in processing. */
  ghost function HeldBytes(s: State): nat {
    Weight(s.processing.Keys, s.processing)
  }

  /** While Enqueue is between the mutex and the publishing rename, how much it
      knows about the load. */
  ghost predicate EnqueueKnows(c: Config, held: nat, s: State)
    requires AllPublished(s)
  {
    match s.enq
    case Locked(line, raw) => |line| <= c.lineMax
    case Walking(line, raw, names, next, total, second) =>
      && |line| <= c.lineMax && !c.atomicMeasure && next <= |names|
      && (forall n | n in names :: n in s.published)
      && total == Measured(names[..next], s.published)
      && Weight(Live(s) - Names(names), s.published) <= held
    case Admitted(line, raw) =>
      |line| <= c.lineMax && Weight(Live(s), s.published) + |raw| <= c.maxBytes + Slack(c, held)
    case Writing(_, line, raw, _) =>
      |line| <= c.lineMax && Weight(Live(s), s.published) + |raw| <= c.maxBytes + Slack(c, held)
    case _ => true
  }

  /** `cap` is the bound to keep. */
  ghost predicate Bounded(c: Config, cap: nat, held: nat, s: State) {
    && AllPublished(s) && c.maxBytes + c.lineMax + Slack(c, held) <= cap
    && Weight(Live(s), s.published) <= cap && EnqueueKnows(c, held, s)
  }

  lemma InvPublished(c: Config, s: State)
    requires Inv(c, s)
    ensures AllPublished(s) && s.pending.Keys !! s.processing.Keys
  {
    forall n | n in Live(s) ensures n in s.published { assert ItemInv(c, s, n); }
    forall n | n in s.pending ensures s.pending[n] == s.published[n] && n !in s.processing { assert ItemInv(c, s, n); }
    forall n | n in s.processing ensures s.processing[n] == s.published[n] { assert ItemInv(c, s, n); }
  }

  /** Steps that publish nothing only ever lighten the load. */
  lemma QuietStepKeepsBounded(c: Config, cap: nat, held: nat, s: State, t: State)
    requires Bounded(c, cap, held, s) && AllPublished(t)
    requires t.published == s.published && Live(t) <= Live(s)
    requires t.enq == s.enq || t.enq.Idle?
    ensures Bounded(c, cap, held, t)
  {
    WeightMono(Live(t), Live(s), s.published);
    if t.enq.Walking? {
      var names := Names(t.enq.names);
      WeightMono(Live(t) - names, Live(s) - names, s.published);
    }
  }

  /** Listing pending: all that the listing can miss is in processing. */
  lemma ListPendingKnows(s: State, held: nat, order: seq<string>)
    requires AllPublished(s) && Enumerates(order, s.pending.Keys) && HeldBytes(s) <= held
    ensures Weight(Live(s) - Names(order), s.published) <= held
  {
    assert Live(s) - Names(order) <= s.processing.Keys;
    WeightMono(Live(s) - Names(order), s.processing.Keys, s.published);
    WeightAgree(s.processing.Keys, s.processing, s.published);
  }

  lemma StatKnows(names: seq<string>, next: nat, items: map<string, Bytes>)
    requires next < |names| && forall n | n in names :: n in items
    ensures Measured(names[..next + 1], items) == Measured(names[..next], items) + |items[names[next]]|
  {
    assert names[..next + 1][..next] == names[..next];
  }

  /** The admission check after the walk bounds the load up to what was missed. */
  lemma AdmitKnows(c: Config, held: nat, s: State, names: seq<string>, total: nat, raw: Bytes)
    requires AllPublished(s) && forall n | n in names :: n in s.published
    requires total == Measured(names, s.published) && Weight(Live(s) - Names(names), s.published) <= held
    requires total + |raw| <= c.maxBytes
    ensures Weight(Live(s), s.published) + |raw| <= c.maxBytes + held
  {
    var known := Names(names);
    MeasuredCovers(names, s.published);
    WeightUnion(known, Live(s) - known, s.published);
    WeightMono(Live(s), known + (Live(s) - known), s.published);
  }

  lemma MeasuredAtOnce(s: State, ps: seq<string>, qs: seq<string>)
    requires AllPublished(s) && s.pending.Keys !! s.processing.Keys
    requires Enumerates(ps, s.pending.Keys) && Enumerates(qs, s.processing.Keys)
    ensures SizeOf(ps, s.pending) + SizeOf(qs, s.processing) == Weight(Live(s), s.published)
  {
    SizeOfIsWeight(ps, s.pending);
    SizeOfIsWeight(qs, s.processing);
    assert Names(ps) == s.pending.Keys && Names(qs) == s.processing.Keys;
    LoadIsWeight(s);
  }

  lemma LessMissed(s: State, names: seq<string>, more: seq<string>)
    requires AllPublished(s)
    ensures Weight(Live(s) - Names(names + more), s.published) <= Weight(Live(s) - Names(names), s.published)
  {
    assert Live(s) - Names(names + more) <= Live(s) - Names(names);
    WeightMono(Live(s) - Names(names + more), Live(s) - Names(names), s.published);
  }

  lemma MeasureKeepsBounded(c: Config, cap: nat, held: nat, s: State, e: EnqEvent)
    requires c.maxBytes > 0 && Bounded(c, cap, held, s) && (!c.atomicMeasure ==> HeldBytes(s) <= held)
    requires s.pending.Keys !! s.processing.Keys
    requires IsMeasuring(s.enq) && Measure(c, s, e).Some?
    ensures Bounded(c, cap, held, s.(enq := Measure(c, s, e).value))
  {
    hide Weight;
    var t := s.(enq := Measure(c, s, e).value);
    assert Live(t) == Live(s);
    match e
    case MeasureAtOnce(ps, qs) =>
      MeasuredAtOnce(s, ps, qs);
    case ListPending(order) =>
      ListPendingKnows(s, held, order);
      assert order[..0] == [];
    case Stat =>
      StatKnows(s.enq.names, s.enq.next, s.published);
    case ListProcessing(order) =>
      assert (s.enq.names + order)[..s.enq.next] == s.enq.names[..s.enq.next];
      assert forall n | n in order :: n in s.processing;
      LessMissed(s, s.enq.names, order);
    case Admit =>
      assert s.enq.names[..s.enq.next] == s.enq.names;
      if t.enq.Admitted? { AdmitKnows(c, held, s, s.enq.names, s.enq.total, s.enq.raw); }
    case _ =>
  }

  /** Publishing adds exactly the item. */
  lemma PublishAdds(s: State)
    requires AllPublished(s) && EnqueueHolds(s) && s.enq.Writing? && Write(s, Publish).To?
    ensures var t := Write(s, Publish).value;
            && AllPublished(t) && t.published[s.enq.name] == s.enq.line + s.enq.raw
            && Weight(Live(t), t.published) == Weight(Live(s), s.published) + |s.enq.line| + |s.enq.raw|
  {
    var t, n := Write(s, Publish).value, s.enq.name;
    assert Live(t) == Live(s) + {n};
    WeightAgree(Live(s), s.published, t.published);
    WeightUnion(Live(s), {n}, t.published);
    WeightPick({n}, n, t.published);
    assert {n} - {n} == {};
  }

  lemma PublishKeepsBounded(c: Config, cap: nat, held: nat, s: State)
    requires Bounded(c, cap, held, s) && EnqueueHolds(s) && s.enq.Writing? && Write(s, Publish).To?
    ensures Bounded(c, cap, held, Write(s, Publish).value)
  {
    PublishAdds(s);
  }

  lemma WriteKeepsBounded(c: Config, cap: nat, held: nat, s: State, e: EnqEvent)
    requires Bounded(c, cap, held, s) && EnqueueHolds(s) && Write(s, e).To?
    requires AllPublished(Write(s, e).value)
    ensures Bounded(c, cap, held, Write(s, e).value)
  {
    if e.Publish? {
      PublishKeepsBounded(c, cap, held, s);
    } else {
      var t := Write(s, e).value;
      assert Live(t) == Live(s);
    }
  }

  lemma StepKeepsBounded(c: Config, cap: nat, held: nat, s: State, ev: Event)
    requires c.maxBytes > 0 && Inv(c, s) && Bounded(c, cap, held, s) && (!c.atomicMeasure ==> HeldBytes(s) <= held)
    requires NamesFresh(s, ev) && Next(c, s, ev).To?
    ensures Bounded(c, cap, held, Next(c, s, ev).value)
  {
    var t := Next(c, s, ev).value;
    StepKeepsInv(c, s, ev);
    InvPublished(c, s);
    InvPublished(c, t);
    match ev
    case Enq(e) =>
      if IsMeasuring(s.enq) { MeasureKeepsBounded(c, cap, held, s, e); } else { WriteKeepsBounded(c, cap, held, s, e); }
    case Wrk(w) => QuietStepKeepsBounded(c, cap, held, s, t);
    case Crash => QuietStepKeepsBounded(c, cap, held, s, t);
  }

  /** Processing never holds more than this many bytes on the run. */
  ghost predicate HeldWithin(c: Config, s: State, evs: seq<Event>, held: nat) {
    && (Run(c, s, evs).To? ==> HeldBytes(Run(c, s, evs).value) <= held)
    && (evs != [] ==> HeldWithin(c, s, evs[..|evs| - 1], held))
  }

  lemma {:induction false} RunKeepsBounded(c: Config, cap: nat, held: nat, s: State, evs: seq<Event>)
    requires c.maxBytes > 0 && Init(s) && Run(c, s, evs).To? && FreshRun(c, s, evs)
    requires Load(s) <= cap && c.maxBytes + c.lineMax + Slack(c, held) <= cap
    requires !c.atomicMeasure ==> HeldWithin(c, s, evs, held)
    ensures Bounded(c, cap, held, Run(c, s, evs).value)
  {
    if evs == [] {
      InitInv(c, s);
      InvPublished(c, s);
      LoadIsWeight(s);
    } else {
      var before, last := evs[..|evs| - 1], evs[|evs| - 1];
      RunKeepsInv(c, s, before);
      RunKeepsBounded(c, cap, held, s, before);
      StepKeepsBounded(c, cap, held, Run(c, s, before).value, last);
    }
  }

  lemma SameLoad(s: State, t: State)
    requires t.pending == s.pending && t.processing == s.processing
    ensures Load(t) == Load(s)
  {
  }

  /** With each name once nothing is counted twice. */
  lemma {:induction false} MeasuredOnce(names: seq<string>, items: map<string, Bytes>)
    requires (forall n | n in names :: n in items) && forall i, j | 0 <= i < j < |names| :: names[i] != names[j]
    ensures Measured(names, items) == Weight(Names(names), items)
  {
    if names != [] {
      var front, last := names[..|names| - 1], names[|names| - 1];
      assert names == front + [last];
      MeasuredOnce(front, items);
      assert Names(names) - {last} == Names(front);
      WeightPick(Names(names), last, items);
    }
  }

  /** Two listings of a spool at rest measure exactly its load. */
  lemma ListingsMeasureLoad(s: State, ps: seq<string>, qs: seq<string>)
    requires AllPublished(s) && s.pending.Keys !! s.processing.Keys
    requires Enumerates(ps, s.pending.Keys) && Enumerates(qs, s.processing.Keys)
    ensures (forall n | n in ps + qs :: n in s.published) && Measured(ps + qs, s.published) == Load(s)
  {
    EnumeratesMember(ps, s.pending.Keys);
    EnumeratesMember(qs, s.processing.Keys);
    assert forall i | 0 <= i < |ps| :: ps[i] in ps;
    assert forall i | 0 <= i < |qs| :: qs[i] in qs;
    MeasuredOnce(ps + qs, s.published);
    assert Names(ps + qs) == Live(s);
    LoadIsWeight(s);
  }

  /** What the walk has added up so far is the bytes of the items it has listed and
      measured so far. */
  ghost predicate WalkMeasures(s: State) {
    s.enq.Walking? ==>
      && s.enq.next <= |s.enq.names| && (forall n | n in s.enq.names :: n in s.published)
      && s.enq.total == Measured(s.enq.names[..s.enq.next], s.published)
  }

  lemma MeasureKeepsWalk(c: Config, s: State, e: EnqEvent)
    requires AllPublished(s) && WalkMeasures(s) && IsMeasuring(s.enq) && Measure(c, s, e).Some?
    ensures WalkMeasures(s.(enq := Measure(c, s, e).value))
  {
    match e
    case ListPending(order) =>
      EnumeratesMember(order, s.pending.Keys);
      assert order[..0] == [];
    case Stat =>
      StatKnows(s.enq.names, s.enq.next, s.published);
    case ListProcessing(order) =>
      EnumeratesMember(order, s.processing.Keys);
      assert (s.enq.names + order)[..s.enq.next] == s.enq.names[..s.enq.next];
    case _ =>
  }

  lemma StepKeepsWalk(c: Config, s: State, ev: Event)
    requires AllPublished(s) && WalkMeasures(s) && Next(c, s, ev).To?
    ensures WalkMeasures(Next(c, s, ev).value)
  {
    hide Measured, AllPublished, Measure, Write, NextWrk;
    match ev
    case Enq(e) => if IsMeasuring(s.enq) { MeasureKeepsWalk(c, s, e); } else { WriteIsNoWalk(s, e); }
    case Wrk(w) => WorkerFramed(c, s, w);
    case Crash =>
  }

  lemma WriteIsNoWalk(s: State, e: EnqEvent)
    requires Write(s, e).To?
    ensures !Write(s, e).value.enq.Walking?
  {
  }

  lemma WorkerFramed(c: Config, s: State, w: WrkEvent)
    requires NextWrk(c, s, w).To?
    ensures Framed(s, NextWrk(c, s, w).value)
  {
    hide Restore, TryClaim, TryStore, Finish;
  }

  lemma {:induction false} RunMeasures(c: Config, s: State, evs: seq<Event>)
    requires Init(s) && Run(c, s, evs).To? && FreshRun(c, s, evs)
    ensures WalkMeasures(Run(c, s, evs).value)
  {
    if evs != [] {
      var before := evs[..|evs| - 1];
      RunMeasures(c, s, before);
      RunKeepsInv(c, s, before);
      InvPublished(c, Run(c, s, before).value);
      StepKeepsWalk(c, Run(c, s, before).value, evs[|evs| - 1]);
    }
  }

  function Max(a: nat, b: nat): nat {
    if a < b then b else a
  }

  /** The byte bound, whatever fails and whatever the start. Pending and processing
      together never hold more than they did at first or, if that is more, than the
      limit and one metadata line; with the walk overtaken by the worker, what
      processing can hold comes on top. */
  lemma LoadStaysBounded(c: Config, held: nat, s: State, evs: seq<Event>)
    requires c.maxBytes > 0 && Init(s) && Run(c, s, evs).To? && FreshRun(c, s, evs)
    requires !c.atomicMeasure ==> HeldWithin(c, s, evs, held)
    ensures Load(Run(c, s, evs).value) <=
            Max(Load(s), c.maxBytes + c.lineMax + (if c.atomicMeasure then 0 else held))
  {
    RunKeepsBounded(c, Max(Load(s), c.maxBytes + c.lineMax + Slack(c, held)), held, s, evs);
    RunKeepsInv(c, s, evs);
    InvPublished(c, Run(c, s, evs).value);
    LoadIsWeight(Run(c, s, evs).value);
  }

  // ------------------------------------------------- one item in processing

  /** The worker's renames and removes succeed; claims may fail, and so may
      everything Enqueue does. */
  predicate WorkerSucceeds(ev: Event) {
    ev.Wrk? ==>
      match ev.w
      case StartBlind => false
      case Recover(ok) => ok
      case Remove(ok) => ok
      case PutBack(ok) => ok
      case SetAside(ok) => ok
      case _ => true
  }

  /** What does not count as success. */
  lemma FailuresAre(ev: Event)
    ensures !WorkerSucceeds(ev) <==>
            ev in {Wrk(StartBlind), Wrk(Recover(false)), Wrk(Remove(false)), Wrk(PutBack(false)), Wrk(SetAside(false))}
  {
  }

  /** Under WorkerSucceeds, processing never holds more than the item in hand. */
  ghost predicate LoneIn(processing: map<string, Bytes>, wrk: WrkPc) {
    match wrk
    case Down => forall a, b | a in processing && b in processing :: a == b
    case Recovering(todo) => |todo| <= 1 && forall n | n in processing :: n in todo
    case Ready => processing == map[]
    case Picked(_) => processing == map[]
    case Posting(_, _) => processing == map[]
    case _ => forall n | n in processing :: n == wrk.name
  }

  ghost predicate Lone(s: State) {
    LoneIn(s.processing, s.wrk)
  }

  lemma RestoreKeepsLone(s: State, w: WrkEvent)
    requires Lone(s) && WorkerSucceeds(Wrk(w)) && Restore(s, w).To?
    ensures Lone(Restore(s, w).value)
  {
    if w.Start? && w.order != [] {
      var last := w.order[|w.order| - 1];
      assert last in s.processing && w.order[0] in s.processing;
    }
  }

  lemma ClaimKeepsLone(s: State, w: WrkEvent)
    requires Lone(s) && s.wrk.Picked? && TryClaim(s, s.wrk.name, w).To?
    ensures Lone(TryClaim(s, s.wrk.name, w).value)
  {
  }

  lemma StoreKeepsLone(s: State, w: WrkEvent)
    requires Lone(s) && s.wrk.Claimed? && TryStore(s, s.wrk.name, w).To?
    ensures Lone(TryStore(s, s.wrk.name, w).value)
  {
    var t := TryStore(s, s.wrk.name, w).value;
    assert t.wrk.name == s.wrk.name && t.processing == s.processing;
  }

  lemma FinishKeepsLone(c: Config, s: State, w: WrkEvent)
    requires Lone(s) && WorkerSucceeds(Wrk(w)) && Finish(c, s, w).To?
    ensures Lone(Finish(c, s, w).value)
  {
  }

  lemma LoneAtMostOne(s: State, a: string, b: string)
    requires Lone(s) && a in s.processing && b in s.processing
    ensures a == b
  {
  }

  lemma EnqKeepsLone(c: Config, s: State, e: EnqEvent)
    requires Lone(s) && NextEnq(c, s, e).To?
    ensures Lone(NextEnq(c, s, e).value)
  {
    if !IsMeasuring(s.enq) {
      var r := Write(s, e);
      assert r.value.wrk == s.wrk && r.value.processing == s.processing;
    }
  }

  lemma CrashKeepsLone(c: Config, s: State)
    requires Lone(s)
    ensures Lone(Next(c, s, Crash).value)
  {
    forall a, b | a in s.processing && b in s.processing ensures a == b { LoneAtMostOne(s, a, b); }
  }

  lemma StepKeepsLone(c: Config, s: State, ev: Event)
    requires Lone(s) && WorkerSucceeds(ev) && Next(c, s, ev).To?
    ensures Lone(Next(c, s, ev).value)
  {
    match ev
    case Enq(e) => EnqKeepsLone(c, s, e);
    case Crash => CrashKeepsLone(c, s);
    case Wrk(w) =>
      if s.wrk.Picked? { ClaimKeepsLone(s, w); }
      else if s.wrk.Claimed? { StoreKeepsLone(s, w); }
      else if s.wrk.Down? || s.wrk.Recovering? || s.wrk.Ready? { RestoreKeepsLone(s, w); }
      else { FinishKeepsLone(c, s, w); }
  }

  lemma PublishedStays(c: Config, s: State, ev: Event, n: string)
    requires EnqueueHolds(s) && Next(c, s, ev).To? && n in s.published
    ensures n in Next(c, s, ev).value.published && Next(c, s, ev).value.published[n] == s.published[n]
  {
  }

  ghost predicate Sized(maxItem: nat, s: State) {
    forall n | n in s.published :: |s.published[n]| <= maxItem
  }

  /** One item in processing is at most the largest. */
  lemma LoneIsLight(c: Config, maxItem: nat, s: State)
    requires Inv(c, s) && Lone(s) && Sized(maxItem, s)
    ensures HeldBytes(s) <= maxItem
  {
    InvPublished(c, s);
    if s.processing.Keys != {} {
      var n :| n in s.processing.Keys;
      forall m | m in s.processing ensures m == n { LoneAtMostOne(s, m, n); }
      assert s.processing.Keys == {n} && {n} - {n} == {};
      WeightPick({n}, n, s.processing);
    }
  }

  ghost predicate WorkerRunSucceeds(evs: seq<Event>) {
    forall i | 0 <= i < |evs| :: WorkerSucceeds(evs[i])
  }

  // --------------------------------------------------- what a start can bring

  /** Before the worker has taken back everything it found, processing holds only
      what was found at the start and is still to come back. */
  ghost predicate Starting(s: State, t: State) {
    && t.processing.Keys <= s.processing.Keys
    && (t.wrk.Down? || (t.wrk.Recovering? && forall n | n in t.processing :: n in t.wrk.todo))
  }

  ghost predicate Few(s: State, t: State) {
    Lone(t) || Starting(s, t)
  }

  /** Items once published stay what they are. */
  ghost predicate Keeps(s: State, t: State) {
    forall n | n in s.published :: n in t.published && t.published[n] == s.published[n]
  }

  lemma RestoreKeepsFew(s: State, t: State, w: WrkEvent)
    requires Starting(s, t) && WorkerSucceeds(Wrk(w)) && Restore(t, w).To?
    ensures Few(s, Restore(t, w).value) && Restore(t, w).value.processing.Keys <= t.processing.Keys
  {
    if w.Start? { EnumeratesMember(w.order, t.processing.Keys); }
  }

  lemma StepKeepsFew(c: Config, s: State, t: State, ev: Event)
    requires Few(s, t) && WorkerSucceeds(ev) && Next(c, t, ev).To?
    ensures Few(s, Next(c, t, ev).value)
  {
    if Lone(t) {
      StepKeepsLone(c, t, ev);
    } else if ev.Wrk? {
      RestoreKeepsFew(s, t, ev.w);
    } else if ev.Enq? && !IsMeasuring(t.enq) {
      var r := Write(t, ev.e);
      assert r.value.wrk == t.wrk && r.value.processing == t.processing;
    }
  }

  /** What is left of the start weighs no more than the start did. */
  lemma StartingIsLight(c: Config, s: State, t: State)
    requires Inv(c, s) && Inv(c, t) && Keeps(s, t) && t.processing.Keys <= s.processing.Keys
    ensures HeldBytes(t) <= HeldBytes(s)
  {
    InvPublished(c, s);
    InvPublished(c, t);
    WeightAgree(t.processing.Keys, t.processing, t.published);
    WeightAgree(t.processing.Keys, t.published, s.published);
    WeightMono(t.processing.Keys, s.processing.Keys, s.published);
    WeightAgree(s.processing.Keys, s.published, s.processing);
  }

  lemma {:induction false} FewRun(c: Config, maxItem: nat, s: State, evs: seq<Event>)
    requires Init(s) && Run(c, s, evs).To? && FreshRun(c, s, evs) && WorkerRunSucceeds(evs)
    requires Sized(maxItem, Run(c, s, evs).value)
    ensures Few(s, Run(c, s, evs).value) && Keeps(s, Run(c, s, evs).value)
    ensures HeldWithin(c, s, evs, Max(HeldBytes(s), maxItem))
  {
    var u := Run(c, s, evs).value;
    InitInv(c, s);
    RunKeepsInv(c, s, evs);
    if evs != [] {
      var before, last := evs[..|evs| - 1], evs[|evs| - 1];
      RunKeepsInv(c, s, before);
      var t := Run(c, s, before).value;
      SizedBefore(c, maxItem, t, last);
      FewRun(c, maxItem, s, before);
      StepKeepsFew(c, s, t, last);
      forall n | n in s.published ensures n in u.published && u.published[n] == s.published[n] {
        PublishedStays(c, t, last, n);
      }
    }
    if Lone(u) { LoneIsLight(c, maxItem, u); } else { StartingIsLight(c, s, u); }
  }

  lemma SizedBefore(c: Config, maxItem: nat, t: State, ev: Event)
    requires EnqueueHolds(t) && Next(c, t, ev).To? && Sized(maxItem, Next(c, t, ev).value)
    ensures Sized(maxItem, t)
  {
    forall n | n in t.published ensures |t.published[n]| <= maxItem { PublishedStays(c, t, ev, n); }
  }

  /** With a worker whose renames and removes succeed, what comes on top of the
      limit and the line is at most what processing held at the start or the largest
      item: the largest item alone if the start held no more than that. */
  lemma SpoolStaysBounded(c: Config, maxItem: nat, s: State, evs: seq<Event>)
    requires c.maxBytes > 0 && Init(s) && Run(c, s, evs).To? && FreshRun(c, s, evs)
    requires !c.atomicMeasure ==> WorkerRunSucceeds(evs) && Sized(maxItem, Run(c, s, evs).value)
    ensures Load(Run(c, s, evs).value) <=
            Max(Load(s), c.maxBytes + c.lineMax + (if c.atomicMeasure then 0 else Max(HeldBytes(s), maxItem)))
    ensures HeldBytes(s) <= maxItem ==>
              Load(Run(c, s, evs).value) <= Max(Load(s), c.maxBytes + c.lineMax + maxItem)
  {
    if !c.atomicMeasure { FewRun(c, maxItem, s, evs); }
    LoadStaysBounded(c, Max(HeldBytes(s), maxItem), s, evs);
  }
}
