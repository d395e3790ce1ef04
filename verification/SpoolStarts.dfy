/** Which starts keep the byte bound: for every start that does not, a run. */
module SpoolStarts {
  import opened Listing
  import opened SpoolBound
  import opened SpoolLimits
  import opened SpoolMachine
  import opened SpoolWithin

  /** A run with new names in which every worker step succeeds. */
  ghost predicate Fair(c: Config, s: State, evs: seq<Event>) {
    Run(c, s, evs).To? && FreshRun(c, s, evs) && WorkerRunSucceeds(evs)
  }

  ghost predicate Comes(c: Config, s: State, evs: seq<Event>, u: State) {
    Run(c, s, evs) == To(u) && FreshRun(c, s, evs) && WorkerRunSucceeds(evs)
  }

  lemma Move(c: Config, s: State, evs: seq<Event>, t: State, ev: Event, u: State) returns (longer: seq<Event>)
    requires Comes(c, s, evs, t) && Next(c, t, ev) == To(u) && WorkerSucceeds(ev) && NamesFresh(t, ev)
    ensures Comes(c, s, longer, u)
  {
    var last;
    longer, last := Extend(c, s, evs, t, ev);
  }

  // ------------------------------------------------------ parts of such runs

  function Dir(t: State): map<string, Bytes>
    requires t.enq.Walking?
  {
    if t.enq.second then t.processing else t.pending
  }

  /** Measuring the rest of a listing that nobody disturbs. */
  lemma {:induction false} StatRest(c: Config, s: State, evs: seq<Event>, t: State)
    returns (longer: seq<Event>, u: State)
    requires Comes(c, s, evs, t) && t.enq.Walking? && t.enq.next <= |t.enq.names|
    requires forall i | t.enq.next <= i < |t.enq.names| :: t.enq.names[i] in Dir(t)
    ensures Comes(c, s, longer, u)
    ensures u == t.(enq := t.enq.(next := |t.enq.names|,
                                  total := t.enq.total + SizeOf(t.enq.names[t.enq.next..], Dir(t))))
    decreases |t.enq.names| - t.enq.next
  {
    hide Comes;
    var names, next := t.enq.names, t.enq.next;
    if next == |names| {
      longer, u := evs, t;
      assert SizeOf(names[next..], Dir(t)) == 0;
    } else {
      var v;
      longer, v := StatOne(c, s, evs, t);
      SizeOfNext(names, next, Dir(t));
      longer, u := StatRest(c, s, longer, v);
    }
  }

  lemma SizeOfNext(names: seq<string>, next: nat, dir: map<string, Bytes>)
    requires next < |names| && names[next] in dir
    ensures SizeOf(names[next..], dir) == |dir[names[next]]| + SizeOf(names[next + 1..], dir)
  {
    assert names[next..][1..] == names[next + 1..];
  }

  lemma StatOne(c: Config, s: State, evs: seq<Event>, t: State) returns (longer: seq<Event>, u: State)
    requires Comes(c, s, evs, t) && t.enq.Walking? && t.enq.next < |t.enq.names| && t.enq.names[t.enq.next] in Dir(t)
    ensures Comes(c, s, longer, u)
    ensures u == t.(enq := t.enq.(next := t.enq.next + 1, total := t.enq.total + |Dir(t)[t.enq.names[t.enq.next]]|))
  {
    hide Comes, Write, NextWrk;
    u := t.(enq := t.enq.(next := t.enq.next + 1, total := t.enq.total + |Dir(t)[t.enq.names[t.enq.next]]|));
    longer := Move(c, s, evs, t, Enq(Stat), u);
  }

  ghost predicate Distinct(todo: seq<string>) {
    forall i, j | 0 <= i < j < |todo| :: todo[i] != todo[j]
  }

  /** The worker is recovering, and everything in processing is still to come. */
  ghost predicate Recoverable(t: State) {
    t.wrk.Recovering? && Distinct(t.wrk.todo) && Names(t.wrk.todo) == t.processing.Keys
  }

  /** From t to u the first k items of the list have come back. */
  ghost predicate Back(t: State, u: State, k: nat) {
    && t.wrk.Recovering? && k <= |t.wrk.todo|
    && u == t.(pending := u.pending, processing := u.processing, wrk := Recovering(t.wrk.todo[k..]))
    && u.pending.Keys == t.pending.Keys + Names(t.wrk.todo[..k])
    && u.processing.Keys == t.processing.Keys - Names(t.wrk.todo[..k])
  }

  lemma BackMore(t: State, v: State, u: State, k: nat)
    requires Back(t, v, 1) && Back(v, u, k)
    ensures Back(t, u, k + 1)
  {
    var todo := t.wrk.todo;
    assert todo[1..][k..] == todo[k + 1..];
    assert todo[..k + 1] == todo[..1] + todo[1..][..k];
    var a, b := Names(todo[..1]), Names(todo[1..][..k]);
    assert Names(todo[..k + 1]) == a + b;
    assert u.pending.Keys == t.pending.Keys + a + b;
    assert u.processing.Keys == t.processing.Keys - a - b;
  }

  lemma BackNone(t: State)
    requires t.wrk.Recovering?
    ensures Back(t, t, 0)
  {
    assert t.wrk.todo[0..] == t.wrk.todo && Names(t.wrk.todo[..0]) == {};
  }

  lemma RecoverOne(c: Config, s: State, evs: seq<Event>, t: State) returns (longer: seq<Event>, u: State)
    requires Comes(c, s, evs, t) && Recoverable(t) && t.wrk.todo != []
    ensures Comes(c, s, longer, u) && Recoverable(u) && Back(t, u, 1)
  {
    var n, rest := t.wrk.todo[0], t.wrk.todo[1..];
    assert n in Names(t.wrk.todo);
    u := t.(pending := t.pending[n := t.processing[n]], processing := t.processing - {n}, wrk := Recovering(rest));
    longer := Move(c, s, evs, t, Wrk(Recover(true)), u);
    FirstOut(t.wrk.todo);
    assert t.wrk.todo[..1] == [n] && Names([n]) == {n};
  }

  lemma FirstOut(todo: seq<string>)
    requires Distinct(todo) && todo != []
    ensures Distinct(todo[1..]) && Names(todo[1..]) == Names(todo) - {todo[0]}
  {
    var n, rest := todo[0], todo[1..];
    assert todo == [n] + rest;
    assert n !in rest && forall m :: m in todo <==> m == n || m in rest;
  }

  lemma {:induction false} RecoverFirst(c: Config, s: State, evs: seq<Event>, t: State, k: nat)
    returns (longer: seq<Event>, u: State)
    requires Comes(c, s, evs, t) && Recoverable(t) && k <= |t.wrk.todo|
    ensures Comes(c, s, longer, u) && Recoverable(u) && Back(t, u, k)
    decreases k
  {
    if k == 0 {
      BackNone(t);
      return evs, t;
    }
    var v;
    longer, v := RecoverOne(c, s, evs, t);
    assert |v.wrk.todo| == |t.wrk.todo| - 1;
    hide Comes, Recoverable, Back;
    longer, u := RecoverFirst(c, s, longer, v, k - 1);
    BackMore(t, v, u, k - 1);
  }

  lemma SomeListing(names: set<string>) returns (order: seq<string>)
    ensures Enumerates(order, names) && Distinct(order) && Names(order) == names
  {
    if names == {} {
      order := [];
      assert Names(order) == {};
    } else {
      var n :| n in names;
      order := SomeListing(names - {n});
      order := ListWith(order, names - {n}, n);
    }
  }

  lemma ListWith(order: seq<string>, names: set<string>, n: string) returns (longer: seq<string>)
    requires Enumerates(order, names) && n !in names
    ensures longer == [n] + order && Enumerates(longer, names + {n}) && Distinct(longer) && Names(longer) == names + {n}
  {
    longer := [n] + order;
    EnumeratesMember(order, names);
    assert forall m :: m in longer <==> m == n || m in order;
    assert Names(longer) == names + {n};
    assert (set m | m in longer) == names + {n};
  }

  // ------------------------------------- an Enqueue that misses what comes back

  /** What an order of recovery would bring back first. */
  ghost function FirstBytes(t: State, k: nat): nat
    requires t.wrk.Recovering? && k <= |t.wrk.todo| && Names(t.wrk.todo) <= t.published.Keys
  {
    NamesOfFirst(t.wrk.todo, k);
    Weight(Names(t.wrk.todo[..k]), t.published)
  }

  lemma NamesOfFirst(todo: seq<string>, k: nat)
    requires k <= |todo|
    ensures Names(todo[..k]) <= Names(todo)
  {
  }

  /** Enqueue has listed and measured pending. */
  lemma PendingMeasured(c: Config, s: State, evs: seq<Event>, t: State, line: Bytes, raw: Bytes)
    returns (longer: seq<Event>, u: State)
    requires Comes(c, s, evs, t) && t.enq.Idle?
    requires !c.atomicMeasure && c.maxBytes > 0 && |line| <= c.lineMax
    ensures Comes(c, s, longer, u) && u == t.(enq := u.enq)
    ensures u.enq.Walking? && u.enq.line == line && u.enq.raw == raw && !u.enq.second && u.enq.next == |u.enq.names|
    ensures u.enq.total == Weight(t.pending.Keys, t.pending)
  {
    var order := SomeListing(t.pending.Keys);
    EnumeratesMember(order, t.pending.Keys);
    SizeOfIsWeight(order, t.pending);
    var v, w := t.(enq := Locked(line, raw)), t.(enq := Walking(line, raw, order, 0, 0, false));
    longer := Move(c, s, evs, t, Enq(Lock(line, raw)), v);
    longer := Move(c, s, longer, v, Enq(ListPending(order)), w);
    longer, u := StatRest(c, s, longer, w);
    assert order[0..] == order;
  }

  /** It lists and measures processing, and is admitted. */
  lemma ThenAdmitted(c: Config, s: State, evs: seq<Event>, t: State) returns (longer: seq<Event>, u: State)
    requires Comes(c, s, evs, t) && t.enq.Walking? && !t.enq.second && t.enq.next == |t.enq.names|
    requires t.enq.total + HeldBytes(t) + |t.enq.raw| <= c.maxBytes && !c.atomicMeasure
    ensures Comes(c, s, longer, u) && u == t.(enq := Admitted(t.enq.line, t.enq.raw))
  {
    var v, w;
    longer, v := ProcessingListed(c, s, evs, t);
    longer, w := StatRest(c, s, longer, v);
    hide Comes;
    u := t.(enq := Admitted(t.enq.line, t.enq.raw));
    longer := Move(c, s, longer, w, Enq(Admit), u);
  }

  lemma ProcessingListed(c: Config, s: State, evs: seq<Event>, t: State) returns (longer: seq<Event>, u: State)
    requires Comes(c, s, evs, t) && t.enq.Walking? && !t.enq.second && t.enq.next == |t.enq.names|
    ensures Comes(c, s, longer, u) && u == t.(enq := u.enq)
    ensures u.enq.Walking? && u.enq.second && u.enq == t.enq.(names := u.enq.names, second := true)
    ensures u.enq.next <= |u.enq.names| && forall i | u.enq.next <= i < |u.enq.names| :: u.enq.names[i] in t.processing
    ensures SizeOf(u.enq.names[u.enq.next..], t.processing) == HeldBytes(t)
  {
    var order := SomeListing(t.processing.Keys);
    EnumeratesMember(order, t.processing.Keys);
    SizeOfIsWeight(order, t.processing);
    var names := t.enq.names + order;
    u := t.(enq := Walking(t.enq.line, t.enq.raw, names, t.enq.next, t.enq.total, true));
    longer := Move(c, s, evs, t, Enq(ListProcessing(order)), u);
    assert names[t.enq.next..] == order;
    assert forall i | u.enq.next <= i < |names| :: names[i] in order;
  }

  lemma BackIsLive(t: State, u: State, back: set<string>)
    requires u.pending.Keys == t.pending.Keys + back && u.processing.Keys == t.processing.Keys - back
    requires back <= t.processing.Keys
    ensures Live(u) == Live(t) && u.processing.Keys + back == t.processing.Keys && u.processing.Keys !! back
  {
  }

  /** The weights when the first k items come back during a walk. */
  lemma MissedWeights(c: Config, t: State, u: State, k: nat)
    requires Inv(c, t) && Inv(c, u) && Recoverable(t) && Back(t.(enq := u.enq), u, k)
    ensures AllPublished(t) && AllPublished(u) && Names(t.wrk.todo) <= t.published.Keys && Live(u) == Live(t)
    ensures Weight(t.pending.Keys, t.pending) + HeldBytes(u) == Load(t) - FirstBytes(t, k)
  {
    InvPublished(c, t);
    InvPublished(c, u);
    var back := Names(t.wrk.todo[..k]);
    NamesOfFirst(t.wrk.todo, k);
    BackIsLive(t, u, back);
    hide Weight, ItemInv, Recoverable, Back, Names;
    WeightUnion(u.processing.Keys, back, t.published);
    WeightAgree(u.processing.Keys, u.processing, t.published);
    WeightAgree(t.processing.Keys, t.processing, t.published);
  }

  lemma ComesInv(c: Config, s: State, evs: seq<Event>, t: State)
    requires Init(s) && Comes(c, s, evs, t)
    ensures Inv(c, t) && AllPublished(t) && t.pending.Keys !! t.processing.Keys && Keeps(s, t)
  {
    RunKeepsInv(c, s, evs);
    InvPublished(c, t);
    AllKept(c, s, evs);
  }

  lemma {:induction false} AllKept(c: Config, s: State, evs: seq<Event>)
    requires Init(s) && Run(c, s, evs).To? && FreshRun(c, s, evs)
    ensures Keeps(s, Run(c, s, evs).value)
  {
    if evs != [] {
      var before := evs[..|evs| - 1];
      RunKeepsInv(c, s, before);
      AllKept(c, s, before);
      var t, u := Run(c, s, before).value, Run(c, s, evs).value;
      forall n | n in s.published ensures n in u.published && u.published[n] == s.published[n] {
        PublishedStays(c, t, evs[|evs| - 1], n);
      }
    }
  }

  lemma FreshName(t: State) returns (name: string)
    ensures Fresh(t, name)
  {
    var used := t.tmp.Keys + t.pending.Keys + t.processing.Keys + t.failed.Keys + t.published.Keys;
    var k := Longer(used);
    name := seq(k, i => 'x');
  }

  lemma Longer(used: set<string>) returns (k: nat)
    ensures forall n | n in used :: |n| < k
  {
    k := 0;
    if used != {} {
      var n :| n in used;
      var rest := Longer(used - {n});
      k := rest + |n| + 1;
      forall m | m in used ensures |m| < k { assert m == n || m in used - {n}; }
    }
  }

  /** A whole Enqueue during which the first k items come back unseen: its limit
      does not hear of them. */
  lemma MissingEnqueue(c: Config, s: State, evs: seq<Event>, t: State, k: nat, line: Bytes, raw: Bytes)
    returns (longer: seq<Event>, u: State, name: string)
    requires Init(s) && Comes(c, s, evs, t) && t.enq.Idle? && Recoverable(t) && k <= |t.wrk.todo|
    requires !c.atomicMeasure && c.maxBytes > 0 && |line| <= c.lineMax
    requires Names(t.wrk.todo) <= t.published.Keys && Load(t) - FirstBytes(t, k) + |raw| <= c.maxBytes
    ensures Comes(c, s, longer, u) && u.enq.Idle? && Recoverable(u) && u.wrk == Recovering(t.wrk.todo[k..])
    ensures name !in t.published && u.published == t.published[name := line + raw]
    ensures Load(u) == Load(t) + |line| + |raw|
  {
    var v, w;
    longer, v := PendingMeasured(c, s, evs, t, line, raw);
    longer, w := RecoverFirst(c, s, longer, v, k);
    ComesInv(c, s, longer, w);
    ComesInv(c, s, evs, t);
    MissedWeights(c, t, w, k);
    assert w.enq == v.enq && w.published == t.published && w.wrk == Recovering(t.wrk.todo[k..]);
    hide Comes, Recoverable, Back, FirstBytes;
    longer, u, name := AdmittedAndDelivered(c, s, longer, w);
    ComesInv(c, s, longer, u);
    DeliveredLoad(c, t, u, name, line + raw);
  }

  lemma AdmittedAndDelivered(c: Config, s: State, evs: seq<Event>, t: State)
    returns (longer: seq<Event>, u: State, name: string)
    requires Comes(c, s, evs, t) && t.enq.Walking? && !t.enq.second && t.enq.next == |t.enq.names|
    requires t.enq.total + HeldBytes(t) + |t.enq.raw| <= c.maxBytes && !c.atomicMeasure && Recoverable(t)
    ensures Comes(c, s, longer, u) && u.enq.Idle? && Recoverable(u) && u.wrk == t.wrk
    ensures name !in t.published && u.published == t.published[name := t.enq.line + t.enq.raw]
    ensures Live(u) == Live(t) + {name}
  {
    var x;
    longer, x := ThenAdmitted(c, s, evs, t);
    name := FreshName(x);
    longer, u := Deliver(c, s, longer, x, name, t.enq.line, t.enq.raw);
  }

  lemma DeliveredLoad(c: Config, t: State, u: State, name: string, bytes: Bytes)
    requires Inv(c, t) && Inv(c, u) && AllPublished(t) && AllPublished(u)
    requires name !in t.published && u.published == t.published[name := bytes] && Live(u) == Live(t) + {name}
    ensures Load(u) == Load(t) + |bytes|
  {
    InvPublished(c, t);
    InvPublished(c, u);
    LoadIsWeight(t);
    LoadIsWeight(u);
    WeightAgree(Live(t), t.published, u.published);
    WeightUnion(Live(t), {name}, u.published);
    WeightPick({name}, name, u.published);
    assert {name} - {name} == {};
  }

  // ------------------------------------------------------ the failing starts

  lemma RecoveryBegun(c: Config, s: State, order: seq<string>) returns (evs: seq<Event>, t: State)
    requires Init(s) && Enumerates(order, s.processing.Keys) && Distinct(order) && Names(order) == s.processing.Keys
    ensures Comes(c, s, evs, t) && t == s.(wrk := Recovering(order)) && Recoverable(t)
    ensures Load(t) == Load(s) && Names(order) <= t.published.Keys
  {
    t := s.(wrk := Recovering(order));
    evs := Move(c, s, [], s, Wrk(Start(order)), t);
  }

  lemma AllBytes(t: State)
    requires t.wrk.Recovering? && Names(t.wrk.todo) <= t.published.Keys
    ensures FirstBytes(t, |t.wrk.todo|) == Weight(Names(t.wrk.todo), t.published)
  {
    assert t.wrk.todo[..|t.wrk.todo|] == t.wrk.todo;
  }

  function Line(length: nat): (line: Bytes)
    ensures |line| == length
  {
    seq(length, i => 'm')
  }

  /** Any start whose processing outweighs the largest item: all of it comes back
      unseen during one Enqueue. */
  lemma HeavyStartBreaksTheBound(lineMax: nat, maxItem: nat, s: State) returns (c: Config, evs: seq<Event>, u: State)
    requires Init(s) && Sized(maxItem, s) && HeldBytes(s) > maxItem > lineMax
    ensures c.maxBytes > 0 && c.lineMax == lineMax && !c.atomicMeasure && Comes(c, s, evs, u) && Sized(maxItem, u)
    ensures Load(u) > Max(Load(s), c.maxBytes + lineMax + maxItem)
  {
    c := Config(Weight(s.pending.Keys, s.pending) + 1, lineMax, false, false);
    hide Comes, Recoverable, Init, FirstBytes, Weight;
    var t, name;
    evs, t := HeavyBegun(c, s);
    evs, u, name := MissingEnqueue(c, s, evs, t, |t.wrk.todo|, Line(lineMax), "x");
  }

  lemma HeavyBegun(c: Config, s: State) returns (evs: seq<Event>, t: State)
    requires Init(s)
    ensures Comes(c, s, evs, t) && Recoverable(t) && t.enq.Idle? && t.published == s.published && Load(t) == Load(s)
    ensures t.wrk.Recovering? && Names(t.wrk.todo) <= t.published.Keys
    ensures FirstBytes(t, |t.wrk.todo|) == HeldBytes(s)
  {
    var order := SomeListing(s.processing.Keys);
    evs, t := RecoveryBegun(c, s, order);
    InitInv(c, s);
    InvPublished(c, s);
    AllBytes(t);
    WeightAgree(s.processing.Keys, s.processing, s.published);
  }

  /** The loads of the two walks: the first adds at most what it misses, the second
      as much as an item may hold. */
  lemma CrowdedSums(load: nat, first: nat, rest: nat, lineMax: nat, maxItem: nat) returns (a: nat, b: nat)
    requires first > 0 && rest > maxItem > lineMax
    ensures a <= first && lineMax + a <= maxItem && lineMax + b <= maxItem
    ensures (load + lineMax + a) - rest + b <= load
    ensures load + lineMax + a + lineMax + b > load + lineMax + maxItem
  {
    a := if first < maxItem - lineMax then first else maxItem - lineMax;
    b := if rest - a < maxItem then rest - a - lineMax else maxItem - lineMax;
  }

  /** Any start that is not Spare, even within the limit: one item comes back during
      one Enqueue, the rest during the next. */
  lemma CrowdedStartBreaksTheLimit(lineMax: nat, maxItem: nat, s: State) returns (c: Config, evs: seq<Event>, u: State)
    requires Init(s) && Sized(maxItem, s) && maxItem > lineMax && !Spare(maxItem, s)
    ensures c.maxBytes > 0 && c.lineMax == lineMax && !c.atomicMeasure && Comes(c, s, evs, u) && Sized(maxItem, u)
    ensures Load(s) <= c.maxBytes && Load(u) > c.maxBytes + lineMax + maxItem
  {
    var n :| n in s.processing && s.processing[n] != "" && HeldBytes(s) - |s.processing[n]| > maxItem;
    WeightPick(s.processing.Keys, n, s.processing);
    c := Config(Load(s), lineMax, false, false);
    var a, b := CrowdedSums(Load(s), |s.processing[n]|, HeldBytes(s) - |s.processing[n]|, lineMax, maxItem);
    hide Comes, Recoverable, Init, FirstBytes, Load, HeldBytes, Spare;
    var v, y;
    evs, v := CrowdedFirst(c, s, n, maxItem, a);
    evs, u, y := MissingEnqueue(c, s, evs, v, |v.wrk.todo|, Line(lineMax), Line(b));
  }

  /** Recovery begins with item n. */
  lemma CrowdedBegun(c: Config, s: State, n: string) returns (evs: seq<Event>, t: State)
    requires Init(s) && n in s.processing
    ensures Comes(c, s, evs, t) && Recoverable(t) && t.enq.Idle? && t.published == s.published && Load(t) == Load(s)
    ensures t.wrk.Recovering? && t.wrk.todo != [] && t.wrk.todo[0] == n && Distinct(t.wrk.todo)
    ensures Names(t.wrk.todo) == s.processing.Keys <= t.published.Keys && FirstBytes(t, 1) == |s.processing[n]|
  {
    var order := SomeListing(s.processing.Keys - {n});
    order := ListWith(order, s.processing.Keys - {n}, n);
    assert s.processing.Keys - {n} + {n} == s.processing.Keys;
    evs, t := RecoveryBegun(c, s, order);
    CrowdedBytes(c, s, t, n);
  }

  /** The first of the two: item n comes back unseen. */
  lemma CrowdedFirst(c: Config, s: State, n: string, maxItem: nat, a: nat) returns (evs: seq<Event>, v: State)
    requires Init(s) && Sized(maxItem, s) && n in s.processing && a <= |s.processing[n]|
    requires c.maxBytes == Load(s) > 0 && !c.atomicMeasure && c.lineMax + a <= maxItem
    ensures Comes(c, s, evs, v) && v.enq.Idle? && Recoverable(v) && Sized(maxItem, v)
    ensures Load(v) == Load(s) + c.lineMax + a
    ensures Names(v.wrk.todo) <= v.published.Keys
    ensures FirstBytes(v, |v.wrk.todo|) == HeldBytes(s) - |s.processing[n]|
  {
    hide Comes, Recoverable, Init, FirstBytes, Load, HeldBytes;
    var t, x;
    evs, t := CrowdedBegun(c, s, n);
    evs, v, x := MissingEnqueue(c, s, evs, t, 1, Line(c.lineMax), Line(a));
    CrowdedRest(c, s, t, v, n, x);
  }

  lemma CrowdedBytes(c: Config, s: State, t: State, n: string)
    requires Init(s) && n in s.processing && t.wrk.Recovering? && t.published == s.published
    requires t.wrk.todo != [] && t.wrk.todo[0] == n && Names(t.wrk.todo) == s.processing.Keys
    ensures Names(t.wrk.todo) <= t.published.Keys && FirstBytes(t, 1) == |s.processing[n]|
  {
    InitInv(c, s);
    InvPublished(c, s);
    assert t.wrk.todo[..1] == [n] && Names([n]) == {n};
    WeightPick({n}, n, t.published);
    assert {n} - {n} == {};
  }

  lemma CrowdedRest(c: Config, s: State, t: State, v: State, n: string, x: string)
    requires Init(s) && n in s.processing && t.wrk.Recovering? && t.published == s.published
    requires t.wrk.todo != [] && t.wrk.todo[0] == n && Distinct(t.wrk.todo) && Names(t.wrk.todo) == s.processing.Keys
    requires v.wrk == Recovering(t.wrk.todo[1..]) && x !in t.published && x in v.published
    requires v.published == t.published[x := v.published[x]]
    ensures Names(v.wrk.todo) <= v.published.Keys
    ensures FirstBytes(v, |v.wrk.todo|) == HeldBytes(s) - |s.processing[n]|
  {
    InitInv(c, s);
    InvPublished(c, s);
    FirstOut(t.wrk.todo);
    AllBytes(v);
    WeightPick(s.processing.Keys, n, s.processing);
    WeightAgree(s.processing.Keys - {n}, s.processing, v.published);
  }

  // ---------------------------------------------------------- the conditions

  /** Whatever the limit and the run, the load stays within the start or limit, line
      and largest item. */
  ghost predicate KeepsBound(lineMax: nat, maxItem: nat, s: State) {
    forall c: Config, evs: seq<Event> |
      && c.maxBytes > 0 && c.lineMax == lineMax && !c.atomicMeasure
      && Fair(c, s, evs) && Sized(maxItem, Run(c, s, evs).value) ::
      Load(Run(c, s, evs).value) <= Max(Load(s), c.maxBytes + lineMax + maxItem)
  }

  /** The start need not be within the limit: then exactly the starts whose
      processing weighs no more than the largest item keep the bound. */
  lemma BoundIsExact(lineMax: nat, maxItem: nat, s: State)
    requires Init(s) && Sized(maxItem, s) && maxItem > lineMax
    ensures KeepsBound(lineMax, maxItem, s) <==> HeldBytes(s) <= maxItem
  {
    if HeldBytes(s) <= maxItem {
      forall c: Config, evs: seq<Event> |
        && c.maxBytes > 0 && c.lineMax == lineMax && !c.atomicMeasure
        && Fair(c, s, evs) && Sized(maxItem, Run(c, s, evs).value)
        ensures Load(Run(c, s, evs).value) <= Max(Load(s), c.maxBytes + lineMax + maxItem)
      {
        SpoolStaysBounded(c, maxItem, s, evs);
      }
    } else {
      var c, evs, u := HeavyStartBreaksTheBound(lineMax, maxItem, s);
      assert Fair(c, s, evs);
    }
  }

  /** The same for the limits that the start is within. */
  ghost predicate KeepsLimit(lineMax: nat, maxItem: nat, s: State) {
    forall c: Config, evs: seq<Event> |
      && c.maxBytes > 0 && c.lineMax == lineMax && !c.atomicMeasure && Load(s) <= c.maxBytes
      && Fair(c, s, evs) && Sized(maxItem, Run(c, s, evs).value) ::
      Load(Run(c, s, evs).value) <= c.maxBytes + lineMax + maxItem
  }

  /** For starts within the limit: exactly those whose processing weighs no more than
      the largest item, whichever item with any bytes is left out. */
  lemma LimitIsExact(lineMax: nat, maxItem: nat, s: State)
    requires Init(s) && Sized(maxItem, s) && maxItem > lineMax
    ensures KeepsLimit(lineMax, maxItem, s) <==> Spare(maxItem, s)
  {
    if Spare(maxItem, s) {
      forall c: Config, evs: seq<Event> |
        && c.maxBytes > 0 && c.lineMax == lineMax && !c.atomicMeasure && Load(s) <= c.maxBytes
        && Fair(c, s, evs) && Sized(maxItem, Run(c, s, evs).value)
        ensures Load(Run(c, s, evs).value) <= c.maxBytes + lineMax + maxItem
      {
        SpareStartStaysWithin(c, maxItem, s, evs);
      }
    } else {
      var c, evs, u := CrowdedStartBreaksTheLimit(lineMax, maxItem, s);
      assert Fair(c, s, evs);
    }
  }
}
