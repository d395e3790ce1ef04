/** How often the worker can go round its loop. */
module SpoolRounds {
  import opened SpoolMachine
  import opened Text

  /** The items picked, each at the start of a round. */
  function Rounds(evs: seq<Event>): nat {
    if evs == [] then 0 else Rounds(evs[..|evs| - 1]) + (if IsPick(evs[|evs| - 1]) then 1 else 0)
  }

  predicate IsPick(ev: Event) {
    ev.Wrk? && ev.w.Pick?
  }

  /** What gives the worker more to do: a claim that fails, an item that comes back
      or arrives, and a crash that cuts a round short. */
  function Refills(evs: seq<Event>): nat {
    if evs == [] then 0 else Refills(evs[..|evs| - 1]) + (if IsRefill(evs[|evs| - 1]) then 1 else 0)
  }

  predicate IsRefill(ev: Event) {
    match ev
    case Enq(e) => e.Publish?
    case Wrk(w) => w == Claim(false) || w == PutBack(true) || w == Recover(true)
    case Crash => true
  }

  lemma PicksAndRefillsAre(ev: Event, name: string)
    ensures IsPick(Wrk(Pick(name))) && (IsPick(ev) ==> ev == Wrk(Pick(ev.w.name)))
    ensures IsRefill(ev) <==>
            ev in {Enq(Publish), Wrk(Claim(false)), Wrk(PutBack(true)), Wrk(Recover(true)), Crash}
  {
  }

  lemma OneLess(m: map<string, Bytes>, k: string)
    requires k in m
    ensures |m - {k}| == |m| - 1
  {
    assert m.Keys == (m - {k}).Keys + {k};
  }

  lemma OneMore(m: map<string, Bytes>, k: string, v: Bytes)
    ensures |m[k := v]| <= |m| + 1
  {
    assert m[k := v].Keys == m.Keys + {k};
  }

  /** The items pending, and one for a round that has only begun. */
  function Ahead(s: State): int {
    |s.pending| - (if s.wrk.Picked? then 1 else 0)
  }

  /** A step that is no pick leaves no more ahead, unless it refills. */
  ghost predicate Counts(s: State, t: State, ev: Event) {
    Ahead(t) + (if IsPick(ev) then 1 else 0) <= Ahead(s) + (if IsRefill(ev) then 1 else 0)
  }

  lemma ReceivedCounts(to: map<string, Bytes>, from: map<string, Bytes>, name: string)
    ensures |Received(to, from, name)| <= |to| + 1
  {
    if name in from { OneMore(to, name, from[name]); }
  }

  lemma RestoreCounts(s: State, w: WrkEvent)
    requires Restore(s, w).To?
    ensures Counts(s, Restore(s, w).value, Wrk(w))
  {
    if w.Recover? {
      RecoverCounts(s, w.ok);
    } else {
      var t := Restore(s, w).value;
      assert t == s.(wrk := t.wrk);
    }
  }

  lemma RecoverCounts(s: State, ok: bool)
    requires s.wrk.Recovering? && s.wrk.todo != []
    ensures Counts(s, Restore(s, Recover(ok)).value, Wrk(Recover(ok)))
  {
    hide Received;
    ReceivedCounts(s.pending, s.processing, s.wrk.todo[0]);
  }

  lemma ClaimCounts(s: State, w: WrkEvent)
    requires s.wrk.Picked? && TryClaim(s, s.wrk.name, w).To?
    ensures Counts(s, TryClaim(s, s.wrk.name, w).value, Wrk(w))
  {
    if s.wrk.name in s.pending { OneLess(s.pending, s.wrk.name); }
  }

  lemma StoreCounts(s: State, w: WrkEvent)
    requires s.wrk.Claimed? && TryStore(s, s.wrk.name, w).To?
    ensures Counts(s, TryStore(s, s.wrk.name, w).value, Wrk(w))
  {
  }

  lemma FinishCounts(c: Config, s: State, w: WrkEvent)
    requires !s.wrk.Picked? && Finish(c, s, w).To?
    ensures Counts(s, Finish(c, s, w).value, Wrk(w))
  {
    hide Received;
    if s.wrk.Retaining? { ReceivedCounts(s.pending, s.processing, s.wrk.name); }
  }

  lemma WriteCounts(s: State, e: EnqEvent)
    requires Write(s, e).To?
    ensures Counts(s, Write(s, e).value, Enq(e))
  {
    var t := Write(s, e).value;
    if e.Publish? {
      assert t.pending == s.pending[s.enq.name := s.tmp[s.enq.name]];
      OneMore(s.pending, s.enq.name, s.tmp[s.enq.name]);
    } else {
      assert t.pending == s.pending && t.wrk == s.wrk;
    }
  }

  lemma StepCounts(c: Config, s: State, ev: Event)
    requires Next(c, s, ev).To?
    ensures Counts(s, Next(c, s, ev).value, ev)
  {
    match ev
    case Enq(e) => if !IsMeasuring(s.enq) { WriteCounts(s, e); }
    case Wrk(w) =>
      if s.wrk.Picked? { ClaimCounts(s, w); }
      else if s.wrk.Claimed? { StoreCounts(s, w); }
      else if s.wrk.Down? || s.wrk.Recovering? || s.wrk.Ready? { RestoreCounts(s, w); }
      else { FinishCounts(c, s, w); }
    case Crash =>
  }

  /** On any run at all the worker begins no more rounds than there were items,
      refills, and one. With FailedClaimsSpin: the rounds of a run are unbounded
      exactly when its refills are. */
  lemma {:induction false} RoundsAreBounded(c: Config, s: State, evs: seq<Event>)
    requires Run(c, s, evs).To? && !s.wrk.Picked?
    ensures Rounds(evs) + Ahead(Run(c, s, evs).value) <= |s.pending| + Refills(evs)
    ensures Rounds(evs) <= |s.pending| + Refills(evs) + 1
  {
    if evs != [] {
      var front := evs[..|evs| - 1];
      RoundsAreBounded(c, s, front);
      StepCounts(c, Run(c, s, front).value, evs[|evs| - 1]);
    }
  }

  function Spin(name: string, k: nat): seq<Event> {
    if k == 0 then [] else Spin(name, k - 1) + [Wrk(Pick(name)), Wrk(Claim(false))]
  }

  lemma {:induction false} SpinCounts(name: string, k: nat)
    ensures Rounds(Spin(name, k)) == k == Refills(Spin(name, k))
  {
    if k > 0 {
      hide Rounds, Refills;
      SpinCounts(name, k - 1);
      var spin := Spin(name, k - 1);
      OneMoreCounts(spin, Wrk(Pick(name)));
      OneMoreCounts(spin + [Wrk(Pick(name))], Wrk(Claim(false)));
      assert Spin(name, k) == spin + [Wrk(Pick(name))] + [Wrk(Claim(false))];
    }
  }

  lemma OneMoreCounts(evs: seq<Event>, ev: Event)
    ensures Rounds(evs + [ev]) == Rounds(evs) + if IsPick(ev) then 1 else 0
    ensures Refills(evs + [ev]) == Refills(evs) + if IsRefill(ev) then 1 else 0
  {
    assert (evs + [ev])[..|evs|] == evs;
  }

  lemma SpinOnce(c: Config, s: State, evs: seq<Event>, name: string)
    requires s.wrk.Ready? && IsNext(name, s.pending) && Run(c, s, evs) == To(s)
    ensures Run(c, s, evs + [Wrk(Pick(name))] + [Wrk(Claim(false))]) == To(s)
  {
    hide Run, FreshRun;
    var picked := s.(wrk := Picked(name));
    RunExtends(c, s, evs, s, Wrk(Pick(name)));
    RunExtends(c, s, evs + [Wrk(Pick(name))], picked, Wrk(Claim(false)));
  }

  /** A failed claim is reported as progress, so the worker can try the same item any
      number of times and change nothing. */
  lemma {:induction false} FailedClaimsSpin(c: Config, s: State, name: string, k: nat)
    requires s.wrk.Ready? && IsNext(name, s.pending)
    ensures Run(c, s, Spin(name, k)) == To(s) && Rounds(Spin(name, k)) == k == Refills(Spin(name, k))
  {
    SpinCounts(name, k);
    if k > 0 {
      FailedClaimsSpin(c, s, name, k - 1);
      SpinOnce(c, s, Spin(name, k - 1), name);
      assert Spin(name, k) == Spin(name, k - 1) + [Wrk(Pick(name))] + [Wrk(Claim(false))];
    }
  }
}
