/** The byte bound for a spool that starts within its limit: exactly when it holds
    is decided by what processing holds then. */
module SpoolWithin {
  import opened Listing
  import opened SpoolBound
  import opened SpoolMachine

  /** Whichever item with any bytes is left out, what the start has in processing
      weighs no more than the largest item. */
  ghost predicate Spare(maxItem: nat, s: State) {
    forall n | n in s.processing && s.processing[n] != "" :: HeldBytes(s) - |s.processing[n]| <= maxItem
  }

  /** No item with any bytes has come back yet. */
  ghost predicate Intact(s: State, t: State) {
    forall n | n in s.processing && s.processing[n] != "" :: n in t.processing
  }

  /** Some has, or the worker has begun its ordinary work. */
  ghost predicate Light(s: State, t: State) {
    Lone(t) || (Starting(s, t) && !Intact(s, t))
  }

  /** While none has, a walk misses nothing that weighs anything. */
  ghost predicate KnowsAll(c: Config, t: State)
    requires AllPublished(t)
  {
    match t.enq
    case Locked(line, raw) => |line| <= c.lineMax
    case Walking(line, raw, names, next, total, second) =>
      && |line| <= c.lineMax && next <= |names|
      && (forall n | n in names :: n in t.published)
      && total == Measured(names[..next], t.published)
      && Weight(Live(t) - Names(names) - (if second then {} else t.processing.Keys), t.published) == 0
    case Admitted(line, raw) => |line| <= c.lineMax && Weight(Live(t), t.published) + |raw| <= c.maxBytes
    case Writing(_, line, raw, _) => |line| <= c.lineMax && Weight(Live(t), t.published) + |raw| <= c.maxBytes
    case _ => true
  }

  ghost predicate Low(c: Config, t: State)
    requires AllPublished(t)
  {
    Weight(Live(t), t.published) <= c.maxBytes + c.lineMax
  }

  ghost predicate Untouched(c: Config, s: State, t: State)
    requires AllPublished(t)
  {
    Starting(s, t) && Intact(s, t) && Low(c, t) && KnowsAll(c, t)
  }

  ghost predicate Touched(c: Config, maxItem: nat, s: State, t: State)
    requires AllPublished(t)
  {
    Light(s, t) && (EnqueueKnows(c, maxItem, t) || Low(c, t))
  }

  ghost predicate Within(c: Config, maxItem: nat, s: State, t: State) {
    && AllPublished(t) && Weight(Live(t), t.published) <= c.maxBytes + c.lineMax + maxItem
    && (Untouched(c, s, t) || Touched(c, maxItem, s, t))
  }

  lemma {:induction false} WeightOfEmpty(names: set<string>, items: map<string, Bytes>)
    requires names <= items.Keys && forall n | n in names :: items[n] == ""
    ensures Weight(names, items) == 0
  {
    if names != {} {
      var n :| n in names;
      WeightPick(names, n, items);
      WeightOfEmpty(names - {n}, items);
    }
  }

  lemma LightIsLight(c: Config, maxItem: nat, s: State, t: State)
    requires Inv(c, s) && Inv(c, t) && Keeps(s, t) && Sized(maxItem, t) && Spare(maxItem, s) && Light(s, t)
    ensures HeldBytes(t) <= maxItem
  {
    if Lone(t) {
      LoneIsLight(c, maxItem, t);
    } else {
      var n :| n in s.processing && s.processing[n] != "" && n !in t.processing;
      InvPublished(c, s);
      InvPublished(c, t);
      WeightPick(s.processing.Keys, n, s.processing);
      WeightAgree(t.processing.Keys, t.processing, s.processing);
      WeightMono(t.processing.Keys, s.processing.Keys - {n}, s.processing);
    }
  }

  // -------------------------------------------------- steps of the worker

  /** Items without bytes may come back unseen. */
  lemma QuietStepKnowsAll(c: Config, s: State, t: State, u: State)
    requires AllPublished(t) && AllPublished(u) && KnowsAll(c, t) && Intact(s, u)
    requires t.processing.Keys <= s.processing.Keys
    requires forall n | n in t.processing :: t.processing[n] == s.processing[n]
    requires u.published == t.published && Live(u) <= Live(t) && (u.enq == t.enq || u.enq.Idle?)
    ensures KnowsAll(c, u)
  {
    WeightMono(Live(u), Live(t), t.published);
    if u.enq.Walking? {
      var names := Names(u.enq.names);
      if u.enq.second {
        WeightMono(Live(u) - names - {}, Live(t) - names - {}, t.published);
      } else {
        BackUnseen(s, t, u, names);
      }
    }
  }

  lemma BackUnseen(s: State, t: State, u: State, names: set<string>)
    requires AllPublished(t) && AllPublished(u) && Intact(s, u)
    requires t.processing.Keys <= s.processing.Keys
    requires forall n | n in t.processing :: t.processing[n] == s.processing[n]
    requires u.published == t.published && Live(u) <= Live(t)
    requires Weight(Live(t) - names - t.processing.Keys, t.published) == 0
    ensures Weight(Live(u) - names - u.processing.Keys, u.published) == 0
  {
    var back := t.processing.Keys - u.processing.Keys;
    WeightOfEmpty(back, t.published);
    var left := Live(t) - names - t.processing.Keys;
    WeightUnion(left, back, t.published);
    assert Live(u) - names - u.processing.Keys <= left + back;
    WeightMono(Live(u) - names - u.processing.Keys, left + back, t.published);
  }

  lemma QuietStepKnows(c: Config, maxItem: nat, t: State, u: State)
    requires AllPublished(t) && AllPublished(u) && EnqueueKnows(c, maxItem, t)
    requires u.published == t.published && Live(u) <= Live(t) && (u.enq == t.enq || u.enq.Idle?)
    ensures EnqueueKnows(c, maxItem, u)
  {
    WeightMono(Live(u), Live(t), t.published);
    if u.enq.Walking? {
      var names := Names(u.enq.names);
      WeightMono(Live(u) - names, Live(t) - names, t.published);
    }
  }

  lemma StepKeepsLight(c: Config, s: State, t: State, ev: Event)
    requires Light(s, t) && WorkerSucceeds(ev) && !ev.Enq? && Next(c, t, ev).To?
    ensures Light(s, Next(c, t, ev).value)
  {
    StepKeepsFew(c, s, t, ev);
    if Lone(t) {
      StepKeepsLone(c, t, ev);
    } else if ev.Wrk? {
      RestoreKeepsFew(s, t, ev.w);
    }
  }

  lemma QuietStepKeepsWithin(c: Config, maxItem: nat, s: State, t: State, ev: Event)
    requires Inv(c, s) && Inv(c, t) && Keeps(s, t) && Within(c, maxItem, s, t)
    requires WorkerSucceeds(ev) && !ev.Enq? && NamesFresh(t, ev) && Next(c, t, ev).To?
    ensures Within(c, maxItem, s, Next(c, t, ev).value)
  {
    var u := Next(c, t, ev).value;
    StepKeepsInv(c, t, ev);
    InvPublished(c, s);
    InvPublished(c, t);
    InvPublished(c, u);
    assert u.published == t.published && Live(u) <= Live(t) && (u.enq == t.enq || u.enq.Idle?) by {
      if ev.Wrk? { assert Framed(t, NextWrk(c, t, ev.w).value); }
    }
    WeightMono(Live(u), Live(t), t.published);
    if Untouched(c, s, t) {
      StepKeepsFew(c, s, t, ev);
      if Starting(s, u) && Intact(s, u) { QuietStepKnowsAll(c, s, t, u); }
    } else {
      StepKeepsLight(c, s, t, ev);
      if EnqueueKnows(c, maxItem, t) { QuietStepKnows(c, maxItem, t, u); }
    }
  }

  // --------------------------------------------------- steps of Enqueue

  lemma AdmitKnowsAll(c: Config, t: State, names: seq<string>, total: nat, raw: Bytes)
    requires AllPublished(t) && forall n | n in names :: n in t.published
    requires total == Measured(names, t.published) && Weight(Live(t) - Names(names), t.published) == 0
    requires total + |raw| <= c.maxBytes
    ensures Weight(Live(t), t.published) + |raw| <= c.maxBytes
  {
    AdmitKnows(c, 0, t, names, total, raw);
  }

  lemma ListPendingKnowsAll(c: Config, t: State, order: seq<string>)
    requires AllPublished(t) && t.enq.Locked? && |t.enq.line| <= c.lineMax && Enumerates(order, t.pending.Keys)
    ensures KnowsAll(c, t.(enq := Walking(t.enq.line, t.enq.raw, order, 0, 0, false)))
  {
    hide Weight;
    var u := t.(enq := Walking(t.enq.line, t.enq.raw, order, 0, 0, false));
    EnumeratesMember(order, t.pending.Keys);
    assert order[..0] == [] && Live(u) == Live(t);
    assert Live(u) - Names(order) - u.processing.Keys == {};
    WeightOfEmpty({}, t.published);
  }

  lemma StatKnowsAll(c: Config, t: State, u: State)
    requires AllPublished(t) && t.enq.Walking? && KnowsAll(c, t) && Measure(c, t, Stat).Some?
    requires u == t.(enq := Measure(c, t, Stat).value)
    ensures KnowsAll(c, u)
  {
    hide Weight;
    assert Live(u) == Live(t);
    StatKnows(t.enq.names, t.enq.next, t.published);
  }

  lemma ListProcessingKnowsAll(c: Config, t: State, order: seq<string>)
    requires AllPublished(t) && t.enq.Walking? && !t.enq.second && KnowsAll(c, t) && t.enq.next == |t.enq.names|
    requires Enumerates(order, t.processing.Keys)
    ensures KnowsAll(c, t.(enq := t.enq.(names := t.enq.names + order, second := true)))
  {
    hide Weight;
    var u := t.(enq := t.enq.(names := t.enq.names + order, second := true));
    EnumeratesMember(order, t.processing.Keys);
    assert (t.enq.names + order)[..t.enq.next] == t.enq.names[..t.enq.next] && Live(u) == Live(t);
    assert Live(t) - Names(t.enq.names + order) - {} == Live(t) - Names(t.enq.names) - t.processing.Keys;
  }

  lemma AdmissionKnowsAll(c: Config, t: State)
    requires AllPublished(t) && t.enq.Walking? && t.enq.second && KnowsAll(c, t) && t.enq.next == |t.enq.names|
    ensures KnowsAll(c, t.(enq := Decide(c, t.enq.line, t.enq.raw, t.enq.total)))
  {
    hide Weight;
    var u := t.(enq := Decide(c, t.enq.line, t.enq.raw, t.enq.total));
    assert t.enq.names[..t.enq.next] == t.enq.names && Live(u) == Live(t);
    assert Live(t) - Names(t.enq.names) - {} == Live(t) - Names(t.enq.names);
    if u.enq.Admitted? { AdmitKnowsAll(c, t, t.enq.names, t.enq.total, t.enq.raw); }
  }

  lemma MeasureKnowsAll(c: Config, t: State, e: EnqEvent)
    requires !c.atomicMeasure && c.maxBytes > 0 && AllPublished(t) && KnowsAll(c, t)
    requires IsMeasuring(t.enq) && Measure(c, t, e).Some?
    ensures KnowsAll(c, t.(enq := Measure(c, t, e).value))
  {
    hide Weight;
    match e
    case ListPending(order) => ListPendingKnowsAll(c, t, order);
    case Stat => StatKnowsAll(c, t, t.(enq := Measure(c, t, Stat).value));
    case ListProcessing(order) => ListProcessingKnowsAll(c, t, order);
    case Admit => AdmissionKnowsAll(c, t);
    case _ =>
  }

  lemma MeasureKeepsWithin(c: Config, maxItem: nat, s: State, t: State, e: EnqEvent)
    requires !c.atomicMeasure && c.maxBytes > 0 && Within(c, maxItem, s, t) && t.pending.Keys !! t.processing.Keys
    requires Light(s, t) ==> HeldBytes(t) <= maxItem
    requires IsMeasuring(t.enq) && Measure(c, t, e).Some?
    ensures Within(c, maxItem, s, t.(enq := Measure(c, t, e).value))
  {
    hide Weight, LoneIn, Measured, Measure;
    var u := t.(enq := Measure(c, t, e).value);
    assert Live(u) == Live(t);
    if Untouched(c, s, t) {
      MeasureKnowsAll(c, t, e);
    } else if EnqueueKnows(c, maxItem, t) {
      MeasureKeepsBounded(c, c.maxBytes + c.lineMax + maxItem, maxItem, t, e);
    }
  }

  lemma PublishKeepsWithin(c: Config, maxItem: nat, s: State, t: State)
    requires !c.atomicMeasure && Within(c, maxItem, s, t) && EnqueueHolds(t) && t.enq.Writing? && Write(t, Publish).To?
    requires Sized(maxItem, Write(t, Publish).value)
    ensures Within(c, maxItem, s, Write(t, Publish).value)
  {
    hide Weight, LoneIn, Measured;
    var u := Write(t, Publish).value;
    PublishAdds(t);
    assert u.wrk == t.wrk && u.processing == t.processing && u.enq.Returning?;
    assert |t.enq.line + t.enq.raw| <= maxItem;
  }

  lemma WriteKeepsWithin(c: Config, maxItem: nat, s: State, t: State, e: EnqEvent)
    requires !c.atomicMeasure && Within(c, maxItem, s, t) && EnqueueHolds(t) && Write(t, e).To?
    requires AllPublished(Write(t, e).value) && Sized(maxItem, Write(t, e).value)
    ensures Within(c, maxItem, s, Write(t, e).value)
  {
    hide Weight, LoneIn, Measured;
    var u := Write(t, e).value;
    if e.Publish? {
      PublishKeepsWithin(c, maxItem, s, t);
    } else {
      assert Live(u) == Live(t) && u.published == t.published && u.wrk == t.wrk && u.processing == t.processing;
      if Untouched(c, s, t) {
        WriteKnowsAll(c, t, e);
      } else if EnqueueKnows(c, maxItem, t) {
        WriteKeepsBounded(c, c.maxBytes + c.lineMax + maxItem, maxItem, t, e);
      }
    }
  }

  lemma WriteKnowsAll(c: Config, t: State, e: EnqEvent)
    requires AllPublished(t) && KnowsAll(c, t) && Write(t, e).To? && !e.Publish? && AllPublished(Write(t, e).value)
    requires Live(Write(t, e).value) == Live(t)
    ensures KnowsAll(c, Write(t, e).value)
  {
    hide Weight, Measured;
    if e.Create? {
      assert Write(t, e).value.enq == Writing(e.name, t.enq.line, t.enq.raw, 0);
    } else if e.Append? {
      AppendKnowsAll(c, t);
    }
  }

  lemma AppendKnowsAll(c: Config, t: State)
    requires AllPublished(t) && KnowsAll(c, t) && Write(t, Append).To? && AllPublished(Write(t, Append).value)
    requires Live(Write(t, Append).value) == Live(t)
    ensures KnowsAll(c, Write(t, Append).value)
  {
    hide Weight, Measured;
    var u := Write(t, Append).value;
    assert u.enq == t.enq.(stage := u.enq.stage);
  }

  lemma StepKeepsWithin(c: Config, maxItem: nat, s: State, t: State, ev: Event)
    requires !c.atomicMeasure && c.maxBytes > 0 && Inv(c, s) && Inv(c, t) && Keeps(s, t) && Within(c, maxItem, s, t)
    requires Spare(maxItem, s) && WorkerSucceeds(ev) && NamesFresh(t, ev) && Next(c, t, ev).To?
    requires Sized(maxItem, Next(c, t, ev).value)
    ensures Within(c, maxItem, s, Next(c, t, ev).value)
  {
    if ev.Enq? {
      SizedBefore(c, maxItem, t, ev);
      StepKeepsInv(c, t, ev);
      InvPublished(c, t);
      InvPublished(c, Next(c, t, ev).value);
      if IsMeasuring(t.enq) {
        if Light(s, t) { LightIsLight(c, maxItem, s, t); }
        MeasureKeepsWithin(c, maxItem, s, t, ev.e);
      } else {
        WriteKeepsWithin(c, maxItem, s, t, ev.e);
      }
    } else {
      QuietStepKeepsWithin(c, maxItem, s, t, ev);
    }
  }

  lemma {:induction false} RunKeepsWithin(c: Config, maxItem: nat, s: State, evs: seq<Event>)
    requires !c.atomicMeasure && c.maxBytes > 0 && Init(s) && Load(s) <= c.maxBytes && Spare(maxItem, s)
    requires Run(c, s, evs).To? && FreshRun(c, s, evs) && WorkerRunSucceeds(evs)
    requires Sized(maxItem, Run(c, s, evs).value)
    ensures Within(c, maxItem, s, Run(c, s, evs).value)
  {
    InitInv(c, s);
    if evs == [] {
      InvPublished(c, s);
      LoadIsWeight(s);
    } else {
      var before, last := evs[..|evs| - 1], evs[|evs| - 1];
      RunKeepsInv(c, s, before);
      var t := Run(c, s, before).value;
      SizedBefore(c, maxItem, t, last);
      FewRun(c, maxItem, s, before);
      RunKeepsWithin(c, maxItem, s, before);
      StepKeepsWithin(c, maxItem, s, t, last);
    }
  }

  /** From a start within the limit that satisfies Spare, limit, line and largest
      item are never exceeded. */
  lemma SpareStartStaysWithin(c: Config, maxItem: nat, s: State, evs: seq<Event>)
    requires !c.atomicMeasure && c.maxBytes > 0 && Init(s) && Load(s) <= c.maxBytes && Spare(maxItem, s)
    requires Run(c, s, evs).To? && FreshRun(c, s, evs) && WorkerRunSucceeds(evs)
    requires Sized(maxItem, Run(c, s, evs).value)
    ensures Load(Run(c, s, evs).value) <= c.maxBytes + c.lineMax + maxItem
  {
    RunKeepsWithin(c, maxItem, s, evs);
    RunKeepsInv(c, s, evs);
    InvPublished(c, Run(c, s, evs).value);
    LoadIsWeight(Run(c, s, evs).value);
  }
}
