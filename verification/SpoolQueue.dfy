/** The queue's own methods, written over the atomic steps of the machine, and
    the SMTP session in front of them. */
module SpoolQueue {
  import opened Text
  import opened CivilTime
  import opened Listing
  import opened Sorting
  import opened SpoolBound
  import opened SpoolMachine
  import opened SpoolOrder
  import SpoolItem

  datatype EnqueueResult = Spooled(name: string) | Full | Broken

  /** What the measurement says. */
  datatype Verdict = Fits | TooMuch | Unmeasured

  datatype FlushResult = Cancelled | Drained | Unreadable | Stopped(name: string, putBack: bool)

  class Queue {
    const c: Config
    // The spool directories with everything that happens to them, and the two
    // program counters.
    var m: State
    ghost const origin: State
    ghost var trace: seq<Event>

    /** The queue is somewhere on a run of the machine in which every name is new
        and made from the time of its item. */
    ghost predicate Valid()
      reads this
    {
      && !c.atomicMeasure && SpoolItem.META_MAX <= c.lineMax
      && Init(origin) && Run(c, origin, trace) == To(m) && FreshRun(c, origin, trace) && TimedRun(c, origin, trace)
    }

    constructor (c: Config, spool: State)
      requires !c.atomicMeasure && SpoolItem.META_MAX <= c.lineMax && Init(spool)
      ensures Valid() && this.c == c && m == spool && trace == []
    {
      this.c := c;
      m := spool;
      origin := spool;
      trace := [];
    }

    lemma Reachable()
      requires Valid()
      ensures Inv(c, m) && Timed(origin.published, m)
    {
      RunKeepsInv(c, origin, trace);
      NamesCarryTimes(c, origin, trace);
    }

    method Do(ev: Event)
      requires Valid() && Next(c, m, ev).To? && NamesFresh(m, ev) && NamesTimed(m, ev)
      modifies this
      ensures Valid() && m == Next(c, old(m), ev).value && trace == old(trace) + [ev]
    {
      RunExtends(c, origin, trace, m, ev);
      TimedRunExtends(c, origin, trace, m, ev);
      m := Next(c, m, ev).value;
      trace := trace + [ev];
    }

    /** Any number of worker steps, whatever they are. Where `calm` is set, here and
        below, the worker rests and nothing fails. */
    method Interfere(calm: bool)
      requires Valid()
      modifies this
      ensures Valid() && old(trace) <= trace && (calm ==> m == old(m))
      ensures m.enq == old(m.enq) && m.tmp == old(m.tmp) && m.published == old(m.published)
      ensures m.accepted == old(m.accepted) && m.restarts == old(m.restarts)
    {
      hide Run, FreshRun, TimedRun, Init;
      var steps: nat := *;
      while steps > 0 && !calm
        invariant Valid() && old(trace) <= trace && (calm ==> m == old(m))
        invariant m.enq == old(m.enq) && m.tmp == old(m.tmp) && m.published == old(m.published)
        invariant m.accepted == old(m.accepted) && m.restarts == old(m.restarts)
      {
        var w: WrkEvent := *;
        if NextWrk(c, m, w).To? { Do(Wrk(w)); }
        steps := steps - 1;
      }
    }

    // --------------------------------------------------------------- enqueue

    /** Measuring the files of one listed directory, one after the other. */
    method StatAll(calm: bool) returns (ok: bool)
      requires Valid() && m.enq.Walking? && (calm ==> Measurable(m))
      modifies this
      ensures Valid() && old(trace) <= trace
      ensures m.tmp == old(m.tmp) && m.published == old(m.published) && m.accepted == old(m.accepted)
      ensures if ok
              then m.enq.Walking? && m.enq == old(m.enq).(next := |m.enq.names|, total := m.enq.total)
              else m.enq.Idle?
      ensures calm ==> ok && Rests(old(m), m)
    {
      hide Run, FreshRun, TimedRun, Init, Next, Rests;
      Reachable();
      RestsAlready(m);
      while m.enq.next < |m.enq.names|
        invariant Valid() && old(trace) <= trace && m.enq.Walking? && m.enq.next <= |m.enq.names|
        invariant m.enq == old(m.enq).(next := m.enq.next, total := m.enq.total)
        invariant m.tmp == old(m.tmp) && m.published == old(m.published) && m.accepted == old(m.accepted)
        invariant calm ==> Rests(old(m), m) && Measurable(m)
        decreases |m.enq.names| - m.enq.next
      {
        ghost var before := m;
        ok := StatOne(calm);
        if !ok { return; }
        if calm { StillMeasurable(old(m), before, m); }
      }
      ok := true;
    }

    /** The size of one file, or an error because it has gone. */
    method StatOne(calm: bool) returns (ok: bool)
      requires Valid() && m.enq.Walking? && m.enq.next < |m.enq.names|
      modifies this
      ensures Valid() && old(trace) <= trace
      ensures m.tmp == old(m.tmp) && m.published == old(m.published) && m.accepted == old(m.accepted)
      ensures if ok
              then m.enq.Walking? && m.enq == old(m.enq).(next := old(m.enq.next) + 1, total := m.enq.total)
              else m.enq.Idle?
      ensures calm ==>
                && Rests(old(m), m)
                && (ok <==> old(m.enq).names[old(m.enq.next)] in
                              if old(m.enq.second) then old(m.processing) else old(m.pending))
    {
      hide Run, FreshRun, TimedRun, Init;
      Interfere(calm);
      Do(Enq(Stat));
      ok := m.enq.Walking?;
    }

    /** Listing one of the two directories; an error ends the measurement. */
    method ListNext(calm: bool) returns (ok: bool, ghost order: seq<string>)
      requires Valid() && (m.enq.Locked? || (m.enq.Walking? && !m.enq.second && m.enq.next == |m.enq.names|))
      modifies this
      ensures Valid() && old(trace) <= trace
      ensures m.tmp == old(m.tmp) && m.published == old(m.published) && m.accepted == old(m.accepted)
      ensures if ok
              then m.enq.Walking? && m.enq.second == old(m.enq.Walking?)
                   && m.enq.line == old(m.enq.line) && m.enq.raw == old(m.enq.raw)
              else m.enq.Idle?
      ensures calm ==> ok && Rests(old(m), m) && Measurable(m)
      ensures ok ==> m.enq.names == (if old(m.enq.Locked?) then [] else old(m.enq.names)) + order
      ensures calm ==> Enumerates(order, if old(m.enq.Locked?) then old(m.pending.Keys) else old(m.processing.Keys))
    {
      hide Run, FreshRun, TimedRun, Init, Next, Measurable;
      Interfere(calm);
      order := [];
      var fails: bool := *;
      if fails && !calm {
        FailWalk();
        return false, order;
      }
      var names := ReadDir(if m.enq.Locked? then m.pending.Keys else m.processing.Keys);
      order := names;
      ghost var before := m;
      ListNow(names);
      ListedIsMeasurable(before, m, order);
      ok := true;
    }

    method FailWalk()
      requires Valid() && (m.enq.Locked? || m.enq.Walking?)
      modifies this
      ensures Valid() && trace == old(trace) + [Enq(WalkFails)] && m == old(m).(enq := Idle)
    {
      hide Run, FreshRun, TimedRun, Init;
      Do(Enq(WalkFails));
    }

    method ListNow(names: seq<string>)
      requires Valid() && (m.enq.Locked? || (m.enq.Walking? && !m.enq.second && m.enq.next == |m.enq.names|))
      requires Enumerates(names, if m.enq.Locked? then m.pending.Keys else m.processing.Keys)
      modifies this
      ensures Valid() && old(trace) <= trace && m == old(m).(enq := Listed(old(m.enq), names))
    {
      hide Run, FreshRun, TimedRun, Init;
      Do(Enq(if m.enq.Locked? then ListPending(names) else ListProcessing(names)));
    }

    /** sizeLocked, followed by the comparison with the limit. Undisturbed it measures
        exactly the load. */
    method Admission(calm: bool) returns (v: Verdict, ghost cut: seq<Event>, ghost seen: State)
      requires Valid() && m.enq.Locked?
      modifies this
      ensures Valid() && old(trace) <= trace
      ensures v.TooMuch? ==> Overfull(old(trace), cut, seen, old(m.enq.raw)) && cut <= trace
      ensures m.tmp == old(m.tmp) && m.published == old(m.published) && m.accepted == old(m.accepted)
      ensures if v.Fits? then m.enq == Admitted(old(m.enq.line), old(m.enq.raw)) else m.enq.Idle?
      ensures calm ==>
                && Rests(old(m), m) && !v.Unmeasured?
                && (v.TooMuch? <==> Load(old(m)) + |old(m.enq.raw)| > c.maxBytes)
    {
      hide Run, FreshRun, TimedRun, Init, Load, Measured, Next, Measurable, Rests, Enumerates, Overfull;
      var ok;
      ghost var ps, qs;
      ok, ps := ListAndStat(calm);
      ghost var first := m;
      if ok { ok, qs := ListAndStat(calm); }
      cut, seen := trace, m;
      if !ok { return Unmeasured, cut, seen; }
      ghost var walked, names, sofar := m, ps + qs, trace;
      assert m.enq.names == names;
      if calm {
        RestsOn(old(m), first, m);
        RestingLoad(ps, qs);
        SameLoad(old(m), m);
      }
      v, cut, seen := Compare();
      if calm { RestsStill(old(m), walked, m); }
      if v.TooMuch? { OverfullEarlier(old(trace), sofar, cut, seen, old(m.enq.raw)); }
    }

    /** One directory, listed and measured. */
    method ListAndStat(calm: bool) returns (ok: bool, ghost order: seq<string>)
      requires Valid() && (m.enq.Locked? || (m.enq.Walking? && !m.enq.second && m.enq.next == |m.enq.names|))
      modifies this
      ensures Valid() && old(trace) <= trace
      ensures m.tmp == old(m.tmp) && m.published == old(m.published) && m.accepted == old(m.accepted)
      ensures if ok
              then m.enq.Walking? && m.enq.second == old(m.enq.Walking?) && m.enq.next == |m.enq.names|
                   && m.enq.line == old(m.enq.line) && m.enq.raw == old(m.enq.raw)
                   && m.enq.names == (if old(m.enq.Locked?) then [] else old(m.enq.names)) + order
              else m.enq.Idle?
      ensures calm ==> ok && Rests(old(m), m)
      ensures calm ==> Enumerates(order, if old(m.enq.Locked?) then old(m.pending.Keys) else old(m.processing.Keys))
    {
      hide Run, FreshRun, TimedRun, Init, Next, Measurable, Enumerates;
      ok, order := ListNext(calm);
      ghost var listed := m;
      if ok {
        ok := StatAll(calm);
        if calm { RestsOn(old(m), listed, m); }
      }
    }

    /** The comparison of the measured total with the limit. */
    method Compare() returns (v: Verdict, ghost cut: seq<Event>, ghost seen: State)
      requires Valid() && m.enq.Walking? && m.enq.second && m.enq.next == |m.enq.names|
      modifies this
      ensures Valid() && trace == old(trace) + [Enq(Admit)] && !v.Unmeasured?
      ensures forall n | n in old(m.enq.names) :: n in old(m.published)
      ensures v.TooMuch? <==> Measured(old(m.enq.names), old(m.published)) + |old(m.enq.raw)| > c.maxBytes
      ensures v.TooMuch? ==> Overfull(old(trace), cut, seen, old(m.enq.raw)) && cut <= trace
      ensures m == old(m).(enq := if v.Fits? then Admitted(old(m.enq.line), old(m.enq.raw)) else Idle)
    {
      hide Run, FreshRun, TimedRun, Init, Measured;
      cut, seen := trace, m;
      WholeWalk();
      Do(Enq(Admit));
      v := if m.enq.Admitted? then Fits else TooMuch;
    }

    lemma OverfullEarlier(before: seq<Event>, later: seq<Event>, cut: seq<Event>, seen: State, raw: Bytes)
      requires before <= later && Overfull(later, cut, seen, raw)
      ensures Overfull(before, cut, seen, raw)
    {
      hide Run, Measured;
    }

    /** The state at the end of the walk, in which what was measured and the message
        together exceed the limit. */
    ghost predicate Overfull(before: seq<Event>, cut: seq<Event>, seen: State, raw: Bytes)
      reads this
    {
      && before <= cut && Run(c, origin, cut) == To(seen)
      && seen.enq.Walking? && seen.enq.second && seen.enq.next == |seen.enq.names|
      && (forall n | n in seen.enq.names :: n in seen.published)
      && Measured(seen.enq.names, seen.published) + |raw| > c.maxBytes
    }

    lemma WholeWalk()
      requires Valid() && m.enq.Walking? && m.enq.next == |m.enq.names|
      ensures (forall n | n in m.enq.names :: n in m.published)
      ensures m.enq.total == Measured(m.enq.names, m.published)
    {
      RunMeasures(c, origin, trace);
      assert m.enq.names[..m.enq.next] == m.enq.names;
    }

    lemma RestingLoad(ps: seq<string>, qs: seq<string>)
      requires Valid() && Enumerates(ps, m.pending.Keys) && Enumerates(qs, m.processing.Keys)
      ensures (forall n | n in ps + qs :: n in m.published) && Measured(ps + qs, m.published) == Load(m)
    {
      hide Run, FreshRun, TimedRun, Init;
      Reachable();
      InvPublished(c, m);
      ListingsMeasureLoad(m, ps, qs);
    }

    /** Removing the temporary file of an item that could not be finished. */
    method GiveUp()
      requires Valid() && m.enq.Cleanup?
      modifies this
      ensures Valid() && old(trace) <= trace
      ensures m.enq.Idle? && m.published == old(m.published) && m.accepted == old(m.accepted)
    {
      hide Run, FreshRun, TimedRun, Init;
      Interfere(false);
      var removed: bool := *;
      Do(Enq(RemoveTmp(removed)));
    }

    /** Enqueue, with the worker running between any two of its steps and any of
        its own steps failing. The name is made from the time of receipt and must
        be new: see ReusedNameLosesAMessage. When the answer is Full, `seen` is the
        state at the end of the walk, reached by the steps in `cut`. Undisturbed the
        answer is Full exactly when load and message exceed a limit, and nothing has
        changed; otherwise the item has been added to pending and its receipt given,
        and nothing else has changed. */
    method Enqueue(raw: Bytes, at: Time, suffix: string, calm: bool)
      returns (r: EnqueueResult, ghost cut: seq<Event>, ghost seen: State)
      requires Valid() && m.enq.Idle? && CivilTime.Valid(at)
      requires SpoolItem.ItemName(at, suffix) !in m.tmp && SpoolItem.ItemName(at, suffix) !in m.published
      modifies this
      ensures Valid() && m.enq.Idle? && old(trace) <= trace
      ensures r.Spooled? ==>
                && r.name == SpoolItem.ItemName(at, suffix) && r.name !in old(m.accepted)
                && m.accepted == old(m.accepted)[r.name := Receipt(SpoolItem.Content(raw, at), m.restarts)]
      ensures !r.Spooled? ==> m.accepted == old(m.accepted)
      ensures r.Full? ==>
                && c.maxBytes > 0 && old(trace) <= cut <= trace && Run(c, origin, cut) == To(seen)
                && seen.enq.Walking? && seen.enq.second && seen.enq.next == |seen.enq.names|
                && (forall n | n in seen.enq.names :: n in seen.published)
                && Measured(seen.enq.names, seen.published) + |raw| > c.maxBytes
      ensures calm ==>
                if c.maxBytes > 0 && Load(old(m)) + |raw| > c.maxBytes then r.Full? && m == old(m)
                else
                  && r.Spooled?
                  && m == old(m).(pending := old(m.pending)[r.name := SpoolItem.Content(raw, at)],
                                  published := old(m.published)[r.name := SpoolItem.Content(raw, at)],
                                  epoch := old(m.epoch)[r.name := m.restarts], accepted := m.accepted)
    {
      hide Run, FreshRun, TimedRun, Init, Next, Measured, Load, SpoolItem.ItemName, SpoolItem.MetaLine;
      var line, name := SpoolItem.MetaLine(at), SpoolItem.ItemName(at, suffix);
      SpoolItem.MetaLineIsShort(at);
      Reachable();
      assert AcceptedItem(m, name) by { assert ItemInv(c, m, name); }
      var v;
      v, cut, seen := LockAndMeasure(line, raw, calm);
      if v.TooMuch? { return Full, cut, seen; }
      if v.Unmeasured? { return Broken, cut, seen; }
      ContentIsNamed(raw, at, suffix);
      r := Deliver(line, raw, name, calm);
    }

    /** Everything up to the admission; without a limit nothing is measured. */
    method LockAndMeasure(line: Bytes, raw: Bytes, calm: bool)
      returns (v: Verdict, ghost cut: seq<Event>, ghost seen: State)
      requires Valid() && m.enq.Idle? && |line| <= c.lineMax
      modifies this
      ensures Valid() && old(trace) <= trace
      ensures m.tmp == old(m.tmp) && m.published == old(m.published) && m.accepted == old(m.accepted)
      ensures if v.Fits? then m.enq == Admitted(line, raw) else m.enq.Idle?
      ensures v.TooMuch? ==> c.maxBytes > 0 && Overfull(old(trace), cut, seen, raw) && cut <= trace
      ensures calm ==>
                && Rests(old(m), m) && !v.Unmeasured?
                && (v.TooMuch? <==> c.maxBytes > 0 && Load(old(m)) + |raw| > c.maxBytes)
    {
      hide Run, FreshRun, TimedRun, Init, Load, Measured;
      Do(Enq(Lock(line, raw)));
      SameLoad(old(m), m);
      v, cut, seen := Fits, trace, m;
      if c.maxBytes > 0 { v, cut, seen := Admission(calm); }
    }

    /** Everything after the admission. */
    method Deliver(line: Bytes, raw: Bytes, name: string, calm: bool) returns (r: EnqueueResult)
      requires Valid() && m.enq == Admitted(line, raw) && name !in m.tmp && name !in m.published
      requires NamedByTime(name, line + raw)
      modifies this
      ensures Valid() && m.enq.Idle? && old(trace) <= trace
      ensures r.Spooled? ==>
                r.name == name && m.accepted == old(m.accepted)[name := Receipt(line + raw, m.restarts)]
      ensures !r.Spooled? ==> r.Broken? && m.accepted == old(m.accepted)
      ensures calm ==> r.Spooled? && Delivered(old(m), m, name, line + raw)
    {
      hide Run, FreshRun, TimedRun, Init, NamedByTime, Next;
      var ok := CreateTmp(name, calm);
      if ok { ok := WriteAll(line, raw, name, calm); }
      if ok { ok := PublishItem(line, raw, name, calm); }
      if !ok { return Broken; }
      GiveReceipt(line + raw, name);
      r := Spooled(name);
    }

    method GiveReceipt(bytes: Bytes, name: string)
      requires Valid() && m.enq == Returning(name, bytes)
      modifies this
      ensures Valid() && trace == old(trace) + [Enq(Return)]
      ensures m == old(m).(enq := Idle, accepted := old(m.accepted)[name := Receipt(bytes, m.restarts)])
    {
      hide Run, FreshRun, TimedRun, Init;
      Do(Enq(Return));
    }

    /** The exclusive create of the temporary file. */
    method CreateTmp(name: string, calm: bool) returns (ok: bool)
      requires Valid() && m.enq.Admitted? && name !in m.tmp && name !in m.published
      requires NamedByTime(name, m.enq.line + m.enq.raw)
      modifies this
      ensures Valid() && old(trace) <= trace && m.accepted == old(m.accepted)
      ensures if ok then m.enq == Writing(name, old(m.enq.line), old(m.enq.raw), 0) else m.enq.Idle?
      ensures calm ==> ok && m == old(m).(enq := m.enq, tmp := old(m.tmp)[name := ""])
    {
      hide Run, FreshRun, TimedRun, Init, NamedByTime;
      Interfere(calm);
      var fails: bool := *;
      if fails && !calm {
        FailCreate();
        return false;
      }
      CreateNow(name);
      Interfere(calm);
      ok := true;
    }

    method FailCreate()
      requires Valid() && m.enq.Admitted?
      modifies this
      ensures Valid() && trace == old(trace) + [Enq(CreateFails)] && m == old(m).(enq := Idle)
    {
      hide Run, FreshRun, TimedRun, Init;
      Do(Enq(CreateFails));
    }

    method CreateNow(name: string)
      requires Valid() && m.enq.Admitted? && name !in m.tmp && name !in m.published
      requires NamedByTime(name, m.enq.line + m.enq.raw)
      modifies this
      ensures Valid() && trace == old(trace) + [Enq(Create(name))]
      ensures m == old(m).(enq := Writing(name, old(m.enq.line), old(m.enq.raw), 0), tmp := old(m.tmp)[name := ""])
    {
      hide Run, FreshRun, TimedRun, Init, NamedByTime;
      Reachable();
      assert Fresh(m, name) by { assert ItemInv(c, m, name); }
      Do(Enq(Create(name)));
    }

    /** A write that fails, after which the file may hold anything. */
    method FailWrite()
      requires Valid() && m.enq.Writing?
      modifies this
      ensures Valid() && old(trace) <= trace && m.accepted == old(m.accepted) && m.enq.Idle?
    {
      hide Run, FreshRun, TimedRun, Init;
      var partial: Bytes := *;
      Do(Enq(AppendFails(partial)));
      GiveUp();
    }

    /** One write; sync and close count with the second. */
    method WriteOne(calm: bool) returns (ok: bool)
      requires Valid() && m.enq.Writing? && m.enq.stage < 2
      modifies this
      ensures Valid() && old(trace) <= trace && m.accepted == old(m.accepted)
      ensures if ok then m.enq == old(m.enq).(stage := old(m.enq.stage) + 1) else m.enq.Idle?
      ensures calm ==> ok && OnlyWrote(old(m), m, old(m.enq.name))
    {
      hide Run, FreshRun, TimedRun, Init;
      var fails: bool := *;
      if fails && !calm {
        FailWrite();
        return false;
      }
      AppendNext();
      Interfere(calm);
      ok := true;
    }

    method AppendNext()
      requires Valid() && m.enq.Writing? && m.enq.stage < 2
      modifies this
      ensures Valid() && trace == old(trace) + [Enq(Append)] && m.accepted == old(m.accepted)
      ensures m.enq == old(m.enq).(stage := old(m.enq.stage) + 1) && OnlyWrote(old(m), m, m.enq.name)
    {
      hide Run, FreshRun, TimedRun, Init, Next;
      assert m.enq.name in m.tmp by { Reachable(); }
      AppendIs(c, m);
      Do(Enq(Append));
    }

    method WriteAll(line: Bytes, raw: Bytes, name: string, calm: bool) returns (ok: bool)
      requires Valid() && m.enq == Writing(name, line, raw, 0)
      modifies this
      ensures Valid() && old(trace) <= trace && m.accepted == old(m.accepted)
      ensures if ok then m.enq == Writing(name, line, raw, 2) else m.enq.Idle?
      ensures calm ==> ok && OnlyWrote(old(m), m, name)
    {
      hide Run, FreshRun, TimedRun, Init, Next;
      ok := WriteOne(calm);
      if ok { ok := WriteOne(calm); }
    }

    method PublishItem(line: Bytes, raw: Bytes, name: string, calm: bool) returns (ok: bool)
      requires Valid() && m.enq == Writing(name, line, raw, 2)
      modifies this
      ensures Valid() && old(trace) <= trace && m.accepted == old(m.accepted)
      ensures if ok then m.enq == Returning(name, line + raw) else m.enq.Idle?
      ensures calm ==> ok && Published(old(m), m, name, line + raw)
    {
      hide Run, FreshRun, TimedRun, Init;
      assert name in m.tmp && m.tmp[name] == line + raw by { Reachable(); }
      var fails: bool := *;
      if fails && !calm {
        Do(Enq(PublishFails));
        GiveUp();
        return false;
      }
      PublishNow(line + raw, name);
      Interfere(calm);
      ok := true;
    }

    method PublishNow(bytes: Bytes, name: string)
      requires Valid() && m.enq.Writing? && m.enq.stage == 2 && m.enq.name == name
      requires name in m.tmp && m.tmp[name] == bytes
      modifies this
      ensures Valid() && trace == old(trace) + [Enq(Publish)] && Published(old(m), m, name, bytes)
    {
      hide Run, FreshRun, TimedRun, Init;
      Do(Enq(Publish));
    }

    // ---------------------------------------------------------------- worker

    /** recoverProcessing: each item listed in processing goes back to pending
        with its bytes, unless its rename fails; then it stays where it is. */
    method RecoverProcessing(calm: bool) returns (listed: bool, moved: set<string>, stuck: set<string>)
      requires Valid() && m.wrk.Down?
      modifies this
      ensures Valid() && old(trace) <= trace
      ensures m.wrk.Ready? && m.enq == old(m.enq) && m.accepted == old(m.accepted)
      ensures moved !! stuck && moved + stuck == if listed then old(m.processing).Keys else {}
      ensures m.pending == old(m.pending) + Only(old(m.processing), moved)
      ensures m.processing == old(m.processing) - moved
      ensures forall n | n in moved :: n in m.pending && m.pending[n] == old(m.processing)[n]
      ensures listed && stuck == {} ==> m.processing == map[]
      ensures calm ==> listed && stuck == {}
    {
      hide Run, FreshRun, TimedRun, Init, Next;
      moved, stuck := {}, {};
      listed := ListProcessed(calm);
      if !listed { return; }
      assert Only(m.processing, {}) == map[];
      while m.wrk.todo != []
        invariant Valid() && old(trace) <= trace
        invariant m.wrk.Recovering? && m.enq == old(m.enq) && m.accepted == old(m.accepted)
        invariant Shared(old(m.processing), m.wrk.todo, moved, stuck)
        invariant m.pending == old(m.pending) + Only(old(m.processing), moved)
        invariant m.processing == old(m.processing) - moved && (calm ==> stuck == {})
        decreases |m.wrk.todo|
      {
        var n := m.wrk.todo[0];
        RecoverOne(old(m.pending), old(m.processing), m.wrk.todo, moved, stuck);
        var ok := RecoverNext(calm);
        if ok { moved := moved + {n}; } else { stuck := stuck + {n}; }
      }
      AllShared(old(m.processing), moved, stuck);
      EndRecovery();
    }

    method EndRecovery()
      requires Valid() && m.wrk == Recovering([])
      modifies this
      ensures Valid() && trace == old(trace) + [Wrk(Recovered)] && m == old(m).(wrk := Ready)
    {
      hide Run, FreshRun, TimedRun, Init;
      Do(Wrk(Recovered));
    }

    /** The listing that recovery starts from, if it can be had. */
    method ListProcessed(calm: bool) returns (listed: bool)
      requires Valid() && m.wrk.Down?
      modifies this
      ensures Valid() && old(trace) <= trace && m == old(m).(wrk := m.wrk)
      ensures calm ==> listed
      ensures if listed then m.wrk.Recovering? && Shared(m.processing, m.wrk.todo, {}, {}) else m.wrk.Ready?
    {
      hide Run, FreshRun, TimedRun, Init;
      var unreadable: bool := *;
      if unreadable && !calm {
        Do(Wrk(StartBlind));
        return false;
      }
      var order := ReadDir(m.processing.Keys);
      EnumeratesMember(order, m.processing.Keys);
      Do(Wrk(Start(order)));
      listed := true;
    }

    method RecoverNext(calm: bool) returns (ok: bool)
      requires Valid() && m.wrk.Recovering? && m.wrk.todo != []
      modifies this
      ensures Valid() && trace == old(trace) + [Wrk(Recover(ok))] && (calm ==> ok)
      ensures var n, before := old(m.wrk.todo)[0], old(m);
              m == before.(pending := if ok then Received(before.pending, before.processing, n) else before.pending,
                           processing := if ok then before.processing - {n} else before.processing,
                           wrk := Recovering(old(m.wrk.todo)[1..]))
    {
      hide Run, FreshRun, TimedRun, Init;
      ok := *;
      if calm { ok := true; }
      Do(Wrk(Recover(ok)));
    }

    /** nextPending: the first .eml name in string order. */
    method NextPending() returns (found: bool, name: string)
      requires Valid()
      ensures if found then IsNext(name, m.pending) else forall n | n in m.pending :: !IsEml(n)
      ensures found ==> name in m.pending && exists stem :: name == stem + ".eml"
      ensures found ==> forall n | n in m.pending && IsEml(n) :: n == name || Before(name, n)
    {
      hide Run, FreshRun, TimedRun, Init;
      var entries := ReadDir(m.pending.Keys);
      var names: seq<string> := [];
      for i := 0 to |entries|
        invariant forall n :: n in names <==> n in entries[..i] && IsEml(n)
      {
        if IsEml(entries[i]) { names := names + [entries[i]]; }
      }
      assert entries[..|entries|] == entries;
      assert forall n :: n in (set k | k in entries) <==> n in entries;
      if names == [] {
        return false, "";
      }
      BeforeIsWeakOrder();
      var sorted := SortSlice(names, Before);
      found, name := true, sorted[0];
      forall n ensures n in names <==> n in sorted {
        assert n in names <==> n in multiset(names);
        assert n in sorted <==> n in multiset(sorted);
      }
      assert |multiset(sorted)| == |sorted|;
      forall n | n in m.pending && IsEml(n) ensures !Before(n, name) {
        assert n in sorted;
        NotBeforeItself(name);
      }
      EmlIs(name);
      forall n | n in m.pending && IsEml(n) ensures n == name || Before(name, n) { BeforeTotal(name, n); }
    }

    /** The claim of the first pending item, given to succeed. */
    method Take(name: string)
      requires Valid() && m.wrk.Ready? && IsNext(name, m.pending)
      modifies this
      ensures Valid() && old(trace) <= trace
      ensures m == old(m).(pending := old(m.pending) - {name},
                           processing := old(m.processing)[name := old(m.pending)[name]], wrk := Claimed(name))
    {
      hide Run, FreshRun, TimedRun, Init;
      Do(Wrk(Pick(name)));
      Do(Wrk(Claim(true)));
    }

    /** Storage is away: the item goes back under its old name, if the rename succeeds. */
    method Retain(name: string) returns (moved: bool)
      requires Valid() && m.wrk == Claimed(name) && name in m.processing
      modifies this
      ensures Valid() && old(trace) <= trace && m == Settled(c, old(m), name, Unavailable, moved)
    {
      hide Run, FreshRun, TimedRun, Init;
      moved := *;
      Do(Wrk(Store(Unavailable)));
      Do(Wrk(PutBack(moved)));
    }

    /** The message cannot be stored: the item is set aside, if the rename succeeds. */
    method PutAside(name: string, calm: bool) returns (moved: bool)
      requires Valid() && m.wrk == Claimed(name) && name in m.processing
      modifies this
      ensures Valid() && old(trace) <= trace && m == Settled(c, old(m), name, Rejected, moved) && (calm ==> moved)
    {
      hide Run, FreshRun, TimedRun, Init;
      moved := *;
      if calm { moved := true; }
      Do(Wrk(Store(Rejected)));
      Do(Wrk(SetAside(moved)));
    }

    /** The message is stored: the item is removed, if that succeeds, and announced in
        any case. */
    method Conclude(name: string, calm: bool) returns (removed: bool)
      requires Valid() && m.wrk == Claimed(name) && name in m.processing
      modifies this
      ensures Valid() && old(trace) <= trace && m == Settled(c, old(m), name, Kept, removed) && (calm ==> removed)
    {
      hide Run, FreshRun, TimedRun, Init, Measure, Write;
      Do(Wrk(Store(Kept)));
      removed := RemoveAndPost(calm);
    }

    method RemoveAndPost(calm: bool) returns (removed: bool)
      requires Valid() && m.wrk.Stored?
      modifies this
      ensures Valid() && old(trace) <= trace && (calm ==> removed)
      ensures var name := old(m.wrk).name;
              m == old(m).(processing := if removed then old(m.processing) - {name} else old(m.processing),
                           posted := if c.hasHandler then old(m.posted)[name := PostsOf(old(m), name) + 1]
                                     else old(m.posted),
                           wrk := Ready)
    {
      hide Run, FreshRun, TimedRun, Init, Measure, Write;
      removed := *;
      if calm { removed := true; }
      Do(Wrk(Remove(removed)));
      Do(Wrk(Post));
    }

    /** A claim that fails changes nothing. */
    method MissClaim(name: string)
      requires Valid() && m.wrk.Ready? && IsNext(name, m.pending)
      modifies this
      ensures Valid() && old(trace) <= trace && m == old(m)
    {
      hide Run, FreshRun, TimedRun, Init;
      Do(Wrk(Pick(name)));
      Do(Wrk(Claim(false)));
    }

    /** Storing the claimed item and what follows; `moved` says whether the last step
        worked. */
    method Settle(name: string, calm: bool) returns (stored: StoreOutcome, moved: bool)
      requires Valid() && m.wrk == Claimed(name) && name in m.processing
      modifies this
      ensures Valid() && old(trace) <= trace && m == Settled(c, old(m), name, stored, moved)
      ensures calm ==> !stored.Unavailable? && moved
    {
      hide Run, FreshRun, TimedRun, Init, Next, Settled;
      stored := *;
      if calm && stored.Unavailable? { stored := Kept; }
      match stored
      case Unavailable => moved := Retain(name);
      case Rejected => moved := PutAside(name, calm);
      case Kept => moved := Conclude(name, calm);
    }

    /** processOne on the first pending item. `claims` says whether the claiming
        rename works; a failed one is reported as success. The result is false
        exactly when storage was unavailable. `moved` says whether the last step
        worked: the rename back for an item storage was unavailable for, the remove
        for a stored one, the rename to failed for a rejected one. If it did not,
        the item stays in processing. */
    method ProcessOne(name: string, claims: bool, calm: bool)
      returns (ok: bool, outcome: Option<StoreOutcome>, moved: bool)
      requires Valid() && m.wrk.Ready? && IsNext(name, m.pending)
      modifies this
      ensures Valid() && old(trace) <= trace
      ensures m.wrk.Ready? && m.enq == old(m.enq) && m.accepted == old(m.accepted) && m.published == old(m.published)
      ensures outcome.Some? <==> claims
      ensures !ok <==> outcome == Some(Unavailable)
      ensures calm && claims ==> ok && moved
      ensures !claims ==> m == old(m)
      ensures claims ==>
                var bytes := old(m.pending)[name];
                && m.pending == (if !ok && moved then old(m.pending) else old(m.pending) - {name})
                && m.processing == (if moved then old(m.processing) else old(m.processing)[name := bytes])
                && m.failed ==
                   (if outcome.value.Rejected? && moved then old(m.failed)[name := bytes] else old(m.failed))
                && StoresOf(m, name) == StoresOf(old(m), name) + (if outcome.value.Kept? then [bytes] else [])
                && PostsOf(m, name) == PostsOf(old(m), name) +
                                       (if outcome.value.Kept? && c.hasHandler then 1 else 0)
    {
      hide Run, FreshRun, TimedRun, Init, Next, StoresOf, PostsOf, Settled;
      if !claims {
        MissClaim(name);
        return true, None, false;
      }
      PendingIsNotHeld(name);
      Take(name);
      ghost var taken := m;
      var stored;
      stored, moved := Settle(name, calm);
      SettledIs(c, old(m), name, stored, moved);
      SettledCounts(c, old(m), name, stored, moved);
      SettledKeeps(c, taken, name, stored, moved);
      ok, outcome := !stored.Unavailable?, Some(stored);
    }

    lemma PendingIsNotHeld(name: string)
      requires Valid() && name in m.pending
      ensures name !in m.processing
    {
      hide Run, FreshRun, TimedRun, Init;
      Reachable();
      assert ItemInv(c, m, name);
    }

    /** flush with no Enqueue beside it, when at most `misses` claims fail. It ends,
        after no more rounds than there were items and failed claims; it takes
        items in name order, which is the order of their receipt, and stops early
        only when cancelled, when the directory cannot be read, or at the first
        item storage is unavailable for; that item is then back under its old name
        if the rename worked. Undisturbed it drains the directory: every .eml item is
        stored or set aside. */
    method Flush(misses: nat, calm: bool) returns (r: FlushResult, claims: seq<string>, rounds: nat)
      requires Valid() && m.wrk.Ready?
      modifies this
      ensures Valid() && m.wrk.Ready? && old(trace) <= trace && m.accepted == old(m.accepted)
      ensures rounds <= |old(m.pending)| + misses
      ensures Taking(old(m.pending), if r.Stopped? && r.putBack then m.pending - {r.name} else m.pending, claims)
      ensures ReceivedInOrder(old(m.pending), claims)
      ensures forall n | n in claims && n !in origin.published :: NamedByTime(n, old(m.pending)[n])
      ensures r.Drained? ==> forall n | n in m.pending :: !IsEml(n) && n in origin.published
      ensures r.Drained? ==> forall n | n in claims ::
                var bytes := old(m.pending)[n];
                || (n in m.processing && m.processing[n] == bytes) || (n in m.failed && m.failed[n] == bytes)
                || bytes in StoresOf(m, n)
      ensures calm ==> r.Drained? && m.processing == old(m.processing)
      ensures r.Stopped? ==> claims != [] && r.name == claims[|claims| - 1]
      ensures r.Stopped? && r.putBack ==>
                r.name in m.pending && r.name in old(m.pending) && m.pending[r.name] == old(m.pending)[r.name]
    {
      hide Run, FreshRun, TimedRun, Init, NamedByTime, ReceivedInOrder, Next, IsNext, Taking;
      claims, rounds := [], 0;
      PendingIsNamed();
      PendingIsPublished();
      TakingNothing(m.pending);
      var left := misses;
      while true
        invariant Valid() && m.wrk.Ready? && old(trace) <= trace
        invariant m.accepted == old(m.accepted) && m.published == old(m.published)
        invariant Taking(old(m.pending), m.pending, claims) && ReceivedInOrder(old(m.pending), claims)
        invariant forall n | n in claims :: n in old(m.pending)
        invariant calm ==> m.processing == old(m.processing)
        invariant rounds + |m.pending| + left <= |old(m.pending)| + misses
        decreases |m.pending| + left
      {
        var cancelled: bool := *;
        if cancelled && !calm { return Cancelled, claims, rounds; }
        var unreadable: bool := *;
        if unreadable && !calm { return Unreadable, claims, rounds; }
        var found, name := NextPending();
        if !found {
          PendingIsTaken();
          ClaimedIsDisposed(old(m.pending), claims);
          return Drained, claims, rounds;
        }
        var fails: bool := *;
        rounds := rounds + 1;
        if fails && left > 0 {
          var _, _, _ := ProcessOne(name, false, calm);
          left := left - 1;
          continue;
        }
        ghost var before := m.pending;
        var ok, _, putBack := ProcessOne(name, true, calm);
        TakeNext(old(m.pending), before, claims, name);
        claims := claims + [name];
        if !ok { return Stopped(name, putBack), claims, rounds; }
      }
    }

    lemma PendingIsPublished()
      requires Valid()
      ensures forall n | n in m.pending :: n in m.published && m.published[n] == m.pending[n]
    {
      hide Run, FreshRun, TimedRun, Init;
      Reachable();
      forall n | n in m.pending ensures n in m.published && m.published[n] == m.pending[n] {
        assert ItemInv(c, m, n);
      }
    }

    /** What has a name the worker does not take was there at the start. */
    lemma PendingIsTaken()
      requires Valid()
      ensures forall n | n in m.pending && !IsEml(n) :: n in origin.published
    {
      hide Run, FreshRun, TimedRun, Init, NamedByTime;
      PendingIsNamed();
      forall n | n in m.pending && n !in origin.published ensures IsEml(n) { NamedIsTaken(n, m.pending[n]); }
    }

    /** An item that has been taken is stored, set aside, or still in processing. */
    lemma ClaimedIsDisposed(start: map<string, Bytes>, claims: seq<string>)
      requires Valid() && Taking(start, m.pending, claims)
      requires forall n | n in start :: n in m.published && m.published[n] == start[n]
      ensures forall n | n in claims :: Disposed(m, n, start[n])
    {
      hide Run, FreshRun, TimedRun, Init;
      Reachable();
      forall n | n in claims ensures Disposed(m, n, start[n]) {
        assert ItemInv(c, m, n);
        if StoresOf(m, n) != [] { assert StoresOf(m, n)[0] in StoresOf(m, n); }
      }
    }

    lemma PendingIsNamed()
      requires Valid()
      ensures forall n | n in m.pending && n !in origin.published :: NamedByTime(n, m.pending[n])
    {
      Reachable();
      forall n | n in m.pending && n !in origin.published ensures NamedByTime(n, m.pending[n]) {
        assert ItemInv(c, m, n);
      }
    }
  }

  /** The names still to be measured are there. */
  ghost predicate Measurable(s: State) {
    s.enq.Walking? && forall i | s.enq.next <= i < |s.enq.names| ::
      s.enq.names[i] in (if s.enq.second then s.processing.Keys else s.pending.Keys)
  }

  /** Enqueue's place after a listing. */
  function Listed(pc: EnqPc, names: seq<string>): EnqPc
    requires pc.Locked? || pc.Walking?
  {
    if pc.Locked? then Walking(pc.line, pc.raw, names, 0, 0, false)
    else pc.(names := pc.names + names, second := true)
  }

  lemma ListedIsMeasurable(s: State, t: State, names: seq<string>)
    requires s.enq.Locked? || (s.enq.Walking? && !s.enq.second && s.enq.next == |s.enq.names|)
    requires Enumerates(names, if s.enq.Locked? then s.pending.Keys else s.processing.Keys)
    requires t == s.(enq := Listed(s.enq, names))
    ensures Measurable(t) && t.enq.names == (if s.enq.Locked? then [] else s.enq.names) + names
  {
    EnumeratesMember(names, if s.enq.Locked? then s.pending.Keys else s.processing.Keys);
    assert forall i | t.enq.next <= i < |t.enq.names| :: t.enq.names[i] in names;
  }

  /** Nothing but Enqueue's own place has changed. */
  ghost predicate Rests(s: State, t: State) {
    t == s.(enq := t.enq)
  }

  lemma RestsAlready(s: State)
    ensures Rests(s, s)
  {
  }

  lemma StillMeasurable(s: State, t: State, u: State)
    requires Rests(s, t) && Rests(t, u) && Measurable(t)
    requires u.enq.Walking? && u.enq == t.enq.(next := t.enq.next + 1, total := u.enq.total)
    ensures Rests(s, u) && Measurable(u)
  {
  }

  lemma RestsStill(s: State, t: State, u: State)
    requires Rests(s, t) && u == t.(enq := u.enq)
    ensures Rests(s, u)
  {
  }

  lemma RestsOn(s: State, t: State, u: State)
    requires Rests(s, t) && Rests(t, u)
    ensures Rests(s, u) && u.pending == t.pending == s.pending && u.processing == t.processing == s.processing
  {
  }

  /** Nothing but the item's temporary file and Enqueue's place in it has changed. */
  ghost predicate OnlyWrote(s: State, t: State, name: string) {
    name in t.tmp && t == s.(enq := t.enq, tmp := s.tmp[name := t.tmp[name]])
  }

  /** The temporary file has become an item of pending. */
  ghost predicate Published(s: State, t: State, name: string, bytes: Bytes) {
    t == s.(enq := Returning(name, bytes), tmp := s.tmp - {name}, pending := s.pending[name := bytes],
            published := s.published[name := bytes], epoch := s.epoch[name := s.restarts])
  }

  /** The item is in pending and its receipt given; nothing else has changed, except
      that Enqueue is done. */
  ghost predicate Delivered(s: State, t: State, name: string, bytes: Bytes) {
    t == s.(enq := Idle, pending := s.pending[name := bytes], published := s.published[name := bytes],
            epoch := s.epoch[name := s.restarts], accepted := s.accepted[name := Receipt(bytes, s.restarts)])
  }

  /** The claimed item stored, given back or set aside, and gone from processing if
      the last step worked. */
  function Settled(c: Config, s: State, name: string, stored: StoreOutcome, moved: bool): State
    requires name in s.processing
  {
    var bytes := s.processing[name];
    s.(wrk := Ready,
       pending := if stored.Unavailable? && moved then s.pending[name := bytes] else s.pending,
       processing := if moved then s.processing - {name} else s.processing,
       failed := if stored.Rejected? && moved then s.failed[name := bytes] else s.failed,
       stored := if stored.Kept? then s.stored[name := StoresOf(s, name) + [bytes]] else s.stored,
       posted := if stored.Kept? && c.hasHandler then s.posted[name := PostsOf(s, name) + 1] else s.posted)
  }

  lemma SettledIs(c: Config, s: State, name: string, stored: StoreOutcome, moved: bool)
    requires name in s.pending && name !in s.processing
    ensures var bytes := s.pending[name];
            var claimed := s.(pending := s.pending - {name}, processing := s.processing[name := bytes],
                              wrk := Claimed(name));
            var t := Settled(c, claimed, name, stored, moved);
            && t.pending == (if stored.Unavailable? && moved then s.pending else s.pending - {name})
            && t.processing == (if moved then s.processing else s.processing[name := bytes])
            && t.failed == (if stored.Rejected? && moved then s.failed[name := bytes] else s.failed)
  {
    hide StoresOf, PostsOf;
    OutAndBack(s.pending, name);
    InAndOut(s.processing, name, s.pending[name]);
  }

  lemma SettledKeeps(c: Config, s: State, name: string, stored: StoreOutcome, moved: bool)
    requires name in s.processing
    ensures var t := Settled(c, s, name, stored, moved);
            t.wrk == Ready && t.enq == s.enq && t.accepted == s.accepted && t.published == s.published
  {
  }

  lemma SettledCounts(c: Config, s: State, name: string, stored: StoreOutcome, moved: bool)
    requires name in s.pending && name !in s.processing
    ensures var bytes := s.pending[name];
            var claimed := s.(pending := s.pending - {name}, processing := s.processing[name := bytes],
                              wrk := Claimed(name));
            var t := Settled(c, claimed, name, stored, moved);
            && StoresOf(t, name) == StoresOf(s, name) + (if stored.Kept? then [bytes] else [])
            && PostsOf(t, name) == PostsOf(s, name) + (if stored.Kept? && c.hasHandler then 1 else 0)
  {
  }

  lemma AppendIs(c: Config, s: State)
    requires s.enq.Writing? && s.enq.stage < 2 && s.enq.name in s.tmp
    ensures Next(c, s, Enq(Append)).To?
    ensures var t := Next(c, s, Enq(Append)).value;
            t.accepted == s.accepted && t.enq == s.enq.(stage := s.enq.stage + 1) && OnlyWrote(s, t, s.enq.name)
  {
  }

  lemma OutAndBack(dir: map<string, Bytes>, name: string)
    requires name in dir
    ensures (dir - {name})[name := dir[name]] == dir
  {
  }

  lemma InAndOut(dir: map<string, Bytes>, name: string, bytes: Bytes)
    requires name !in dir
    ensures dir[name := bytes] - {name} == dir
  {
  }

  /** Each name of the directory is still to do, moved or stuck. */
  ghost predicate Shared(dir: map<string, Bytes>, todo: seq<string>, moved: set<string>, stuck: set<string>) {
    && (forall i, j | 0 <= i < j < |todo| :: todo[i] != todo[j])
    && (forall n :: n in dir <==> n in moved || n in stuck || n in todo)
    && moved !! stuck && (forall n | n in todo :: n !in moved && n !in stuck)
  }

  lemma AllShared(dir: map<string, Bytes>, moved: set<string>, stuck: set<string>)
    requires Shared(dir, [], moved, stuck)
    ensures moved + stuck == dir.Keys && (stuck == {} ==> dir - moved == map[])
  {
    assert moved + stuck == dir.Keys;
    assert stuck == {} ==> forall n :: n !in dir - moved;
  }

  lemma RecoverOne(to: map<string, Bytes>, from: map<string, Bytes>, todo: seq<string>,
                   moved: set<string>, stuck: set<string>)
    requires Shared(from, todo, moved, stuck) && todo != []
    ensures var n := todo[0];
            && Shared(from, todo[1..], moved + {n}, stuck) && Shared(from, todo[1..], moved, stuck + {n})
            && Received(to + Only(from, moved), from - moved, n) == to + Only(from, moved + {n})
            && from - moved - {n} == from - (moved + {n})
  {
    var n := todo[0];
    assert todo == [n] + todo[1..] && n in todo && n in from;
    assert Only(from, moved + {n}) == Only(from, moved)[n := from[n]];
  }

  /** The part of a directory with these names. */
  function Only(dir: map<string, Bytes>, names: set<string>): map<string, Bytes> {
    map n | n in dir && n in names :: dir[n]
  }

  /** What has happened to pending after the claims: they came in name order,
      each once, and everything else is as it was and still to come. */
  ghost predicate Taking(start: map<string, Bytes>, now: map<string, Bytes>, claims: seq<string>) {
    && Sorted(claims, Before)
    && (forall i, j | 0 <= i < j < |claims| :: claims[i] != claims[j])
    && (forall n | n in claims :: n in start && IsEml(n))
    && (forall n :: n in now <==> n in start && n !in claims)
    && (forall n | n in now :: now[n] == start[n])
    && (forall n, k | n in now && IsEml(n) && k in claims :: !Before(n, k))
  }

  /** Stored with its bytes, or in failed or processing with them. */
  ghost predicate Disposed(s: State, n: string, bytes: Bytes) {
    || (n in s.processing && s.processing[n] == bytes)
    || (n in s.failed && s.failed[n] == bytes)
    || bytes in StoresOf(s, n)
  }

  /** Every item is taken or still there, not both; the names taken rise, and none
      that is left could have been taken before them. */
  lemma TakingIs(start: map<string, Bytes>, now: map<string, Bytes>, claims: seq<string>)
    requires Taking(start, now, claims)
    ensures forall i, j | 0 <= i < j < |claims| :: Before(claims[i], claims[j])
    ensures forall n | n in claims :: IsEml(n) && n in start
    ensures forall n | n in start :: n in claims <==> n !in now
    ensures forall n | n in now :: n in start && now[n] == start[n]
    ensures forall n, k | n in now && IsEml(n) && k in claims :: Before(k, n)
  {
    forall i, j | 0 <= i < j < |claims| ensures Before(claims[i], claims[j]) { BeforeTotal(claims[i], claims[j]); }
    forall n, k | n in now && IsEml(n) && k in claims ensures Before(k, n) { BeforeTotal(k, n); }
  }

  lemma TakingNothing(start: map<string, Bytes>)
    ensures Taking(start, start, []) && ReceivedInOrder(start, [])
  {
  }

  lemma TakeNext(start: map<string, Bytes>, now: map<string, Bytes>, claims: seq<string>, name: string)
    requires Taking(start, now, claims) && IsNext(name, now)
    ensures Taking(start, now - {name}, claims + [name])
    ensures |now - {name}| < |now| && name in start && now[name] == start[name]
    ensures ReceivedInOrder(start, claims + [name])
  {
    var after := now - {name};
    assert now.Keys == after.Keys + {name};
    assert forall n :: n in claims + [name] <==> n in claims || n == name;
    NameOrderIsTimeOrder(start, claims + [name]);
  }
}
