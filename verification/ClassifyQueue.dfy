/** The classification queue: a set of reserved paths and a bounded channel,
    shared by any number of producers and workers. Every step below is atomic
    in the source (one critical section or one channel operation). */
module ClassifyQueue {
  import opened Text
  import opened Sidecars

  const CAPACITY: nat := 1024

  datatype Job = Job(path: string, notify: bool)

  /** A producer between its reservation and the end of its call. */
  datatype Producer = Reserved(job: Job) | Dropping(job: Job)

  /** A worker between its receive and its release. The ticket is the job's
      position in the order of sends. */
  datatype Held = Held(job: Job, ticket: nat)

  /** queued and channel are the program's state, the rest records where each
      call is and what has been sent, received and finished so far: senders[i] is the producer of sent[i]. */
  datatype State = State(
    queued: set<string>,
    channel: seq<Job>,
    producers: map<nat, Producer>,
    workers: map<nat, Held>,
    sent: seq<Job>,
    senders: seq<nat>,
    received: nat,
    finished: set<nat>)

  datatype Event =
    | Reserve(p: nat, job: Job)
    | Send(p: nat)
    | Release(p: nat)
    | Receive(w: nat)
    | Finish(w: nat)

  const EMPTY := State({}, [], map[], map[], [], [], 0, {})

  predicate Enabled(s: State, ev: Event) {
    match ev
    case Reserve(p, _) => p !in s.producers
    case Send(p) => p in s.producers && s.producers[p].Reserved?
    case Release(p) => p in s.producers && s.producers[p].Dropping?
    case Receive(w) => w !in s.workers && s.channel != []
    case Finish(w) => w in s.workers
  }

  function Next(s: State, ev: Event): State
    requires Enabled(s, ev)
  {
    match ev
    case Reserve(p, job) =>
      if job.path in s.queued then s
      else s.(queued := s.queued + {job.path}, producers := s.producers[p := Reserved(job)])
    case Send(p) =>
      var job := s.producers[p].job;
      if |s.channel| < CAPACITY
      then s.(channel := s.channel + [job], producers := s.producers - {p}, sent := s.sent + [job],
                 senders := s.senders + [p])
      else s.(producers := s.producers[p := Dropping(job)])
    case Release(p) =>
      s.(queued := s.queued - {s.producers[p].job.path}, producers := s.producers - {p})
    case Receive(w) =>
      s.(channel := s.channel[1..], workers := s.workers[w := Held(s.channel[0], s.received)],
         received := s.received + 1)
    case Finish(w) =>
      s.(queued := s.queued - {s.workers[w].job.path}, workers := s.workers - {w},
         finished := s.finished + {s.workers[w].ticket})
  }

  ghost predicate IsRun(s: State, evs: seq<Event>, t: State) {
    if evs == [] then s == t
    else
      var front, last := evs[..|evs| - 1], evs[|evs| - 1];
      exists u :: IsRun(s, front, u) && Enabled(u, last) && Next(u, last) == t
  }

  // ------------------------------------------------------------- invariant

  /** Where a path can be: reserved and not yet sent, in the channel, or with a
      worker. */
  datatype Place = AtProducer(p: nat) | InChannel(i: nat) | AtWorker(w: nat)

  ghost predicate Carries(s: State, at: Place, path: string) {
    match at
    case AtProducer(p) => p in s.producers && s.producers[p].job.path == path
    case InChannel(i) => i < |s.channel| && s.channel[i].path == path
    case AtWorker(w) => w in s.workers && s.workers[w].job.path == path
  }

  ghost predicate Somewhere(s: State, path: string) {
    exists at :: Carries(s, at, path)
  }

  /** queued is the disjoint union of the paths reserved and not sent, those in
      the channel and those held by workers, and each of them is there once. */
  ghost predicate Partition(s: State) {
    && (forall path :: path in s.queued <==> Somewhere(s, path))
    && (forall a, b, path :: Carries(s, a, path) && Carries(s, b, path) ==> a == b)
  }

  ghost predicate InHand(s: State, t: int) {
    exists w | w in s.workers :: s.workers[w].ticket == t
  }

  /** First sent, first received, and a ticket is the job's number in that order. */
  ghost predicate InOrder(s: State) {
    && s.received <= |s.sent| == |s.senders| && s.channel == s.sent[s.received..]
    && (forall w | w in s.workers ::
          s.workers[w].ticket < s.received && s.workers[w].job == s.sent[s.workers[w].ticket])
  }

  /** Every job received is finished or with a worker, not both. */
  ghost predicate Delivered(s: State) {
    && (forall w | w in s.workers :: s.workers[w].ticket < s.received && s.workers[w].ticket !in s.finished)
    && (forall t | t in s.finished :: 0 <= t < s.received)
    && (forall t | 0 <= t < s.received :: t in s.finished || InHand(s, t))
  }

  ghost predicate Inv(s: State) {
    Partition(s) && InOrder(s) && Delivered(s) && |s.channel| <= CAPACITY
  }

  /** Where a place has moved to after a step. */
  ghost function Moved(s: State, ev: Event, at: Place): Place
    requires Enabled(s, ev)
  {
    if ev.Send? && at == AtProducer(ev.p) && |s.channel| < CAPACITY then InChannel(|s.channel|)
    else if ev.Receive? && at.InChannel? then if at.i == 0 then AtWorker(ev.w) else InChannel(at.i - 1)
    else at
  }

  /** And where it came from. */
  ghost function Origin(s: State, ev: Event, at: Place): Place
    requires Enabled(s, ev)
  {
    if ev.Send? && at == InChannel(|s.channel|) then AtProducer(ev.p)
    else if ev.Receive? && at == AtWorker(ev.w) then InChannel(0)
    else if ev.Receive? && at.InChannel? then InChannel(at.i + 1)
    else at
  }

  lemma PlacesMove(s: State, ev: Event, at: Place, path: string)
    requires Enabled(s, ev) && Carries(s, at, path)
    requires (ev.Release? ==> at != AtProducer(ev.p)) && (ev.Finish? ==> at != AtWorker(ev.w))
    ensures Carries(Next(s, ev), Moved(s, ev, at), path)
  {
  }

  lemma PlacesComeFrom(s: State, ev: Event, at: Place, path: string)
    requires Enabled(s, ev) && Carries(Next(s, ev), at, path)
    requires ev.Reserve? ==> at != AtProducer(ev.p)
    ensures Carries(s, Origin(s, ev, at), path)
  {
  }

  lemma StepKeepsPartition(s: State, ev: Event)
    requires Partition(s) && Enabled(s, ev)
    ensures Partition(Next(s, ev))
  {
    var t := Next(s, ev);
    forall path ensures path in t.queued <==> Somewhere(t, path) {
      if path in t.queued { QueuedIsSomewhere(s, ev, path); }
      if Somewhere(t, path) {
        var at :| Carries(t, at, path);
        SomewhereIsQueued(s, ev, at, path);
      }
    }
    forall a, b, path | Carries(t, a, path) && Carries(t, b, path) ensures a == b {
      StillOnce(s, ev, a, b, path);
    }
  }

  lemma QueuedIsSomewhere(s: State, ev: Event, path: string)
    requires Partition(s) && Enabled(s, ev) && path in Next(s, ev).queued
    ensures Somewhere(Next(s, ev), path)
  {
    if path in s.queued {
      var at :| Carries(s, at, path);
      PlacesMove(s, ev, at, path);
    } else {
      assert Carries(Next(s, ev), AtProducer(ev.p), path);
    }
  }

  lemma SomewhereIsQueued(s: State, ev: Event, at: Place, path: string)
    requires Partition(s) && Enabled(s, ev) && Carries(Next(s, ev), at, path)
    ensures path in Next(s, ev).queued
  {
    if !(ev.Reserve? && at == AtProducer(ev.p)) {
      PlacesComeFrom(s, ev, at, path);
      assert Somewhere(s, path);
      // A release or a finish takes away only the path of its own place.
      if ev.Release? { assert Carries(s, AtProducer(ev.p), s.producers[ev.p].job.path); }
      if ev.Finish? { assert Carries(s, AtWorker(ev.w), s.workers[ev.w].job.path); }
    }
  }

  lemma StillOnce(s: State, ev: Event, a: Place, b: Place, path: string)
    requires Partition(s) && Enabled(s, ev)
    requires Carries(Next(s, ev), a, path) && Carries(Next(s, ev), b, path)
    ensures a == b
  {
    if ev.Reserve? && (a == AtProducer(ev.p)) != (b == AtProducer(ev.p)) {
      // The reserved path was nowhere before.
      var other := if a == AtProducer(ev.p) then b else a;
      PlacesComeFrom(s, ev, other, path);
      assert Somewhere(s, path);
    } else if !(ev.Reserve? && a == AtProducer(ev.p)) {
      PlacesComeFrom(s, ev, a, path);
      PlacesComeFrom(s, ev, b, path);
    }
  }

  lemma StepKeepsOrder(s: State, ev: Event)
    requires InOrder(s) && Enabled(s, ev)
    ensures InOrder(Next(s, ev))
  {
  }

  lemma TicketsApart(s: State, v: nat, w: nat)
    requires Partition(s) && InOrder(s) && v in s.workers && w in s.workers && v != w
    ensures s.workers[v].ticket != s.workers[w].ticket
  {
    assert Carries(s, AtWorker(v), s.workers[v].job.path) && Carries(s, AtWorker(w), s.workers[w].job.path);
  }

  lemma FinishKeepsDelivered(s: State, w: nat)
    requires Delivered(s) && Partition(s) && InOrder(s) && w in s.workers
    ensures Delivered(Next(s, Finish(w)))
  {
    var t := Next(s, Finish(w));
    forall v | v in t.workers ensures t.workers[v].ticket != s.workers[w].ticket { TicketsApart(s, v, w); }
    forall i | 0 <= i < t.received ensures i in t.finished || InHand(t, i) {
      if i !in t.finished {
        var v :| v in s.workers && s.workers[v].ticket == i;
        assert v in t.workers && t.workers[v] == s.workers[v];
      }
    }
  }

  lemma ReceiveKeepsDelivered(s: State, w: nat)
    requires Delivered(s) && w !in s.workers && s.channel != []
    ensures Delivered(Next(s, Receive(w)))
  {
    var t := Next(s, Receive(w));
    assert w in t.workers && t.workers[w].ticket == s.received;
    forall i | 0 <= i < s.received ensures i in t.finished || InHand(t, i) {
      if i !in t.finished {
        var v :| v in s.workers && s.workers[v].ticket == i;
        assert v in t.workers && t.workers[v] == s.workers[v];
      }
    }
  }

  lemma StepKeepsInv(s: State, ev: Event)
    requires Inv(s) && Enabled(s, ev)
    ensures Inv(Next(s, ev))
  {
    StepKeepsPartition(s, ev);
    StepKeepsOrder(s, ev);
    match ev
    case Receive(w) => ReceiveKeepsDelivered(s, w);
    case Finish(w) => FinishKeepsDelivered(s, w);
    case _ => assert forall i :: InHand(Next(s, ev), i) <==> InHand(s, i);
  }

  /** In every state any number of producers and workers can reach. */
  lemma {:induction false} RunKeepsInv(s: State, evs: seq<Event>, t: State)
    requires Inv(s) && IsRun(s, evs, t)
    ensures Inv(t)
  {
    if evs != [] {
      var front, last := evs[..|evs| - 1], evs[|evs| - 1];
      var u :| IsRun(s, front, u) && Enabled(u, last) && Next(u, last) == t;
      RunKeepsInv(s, front, u);
      StepKeepsInv(u, last);
    }
  }

  // -------------------------------------------------------------- theorems

  /** No path is in the channel twice, no two workers hold the same one, none is
      both waiting and held, and the channel keeps its bound. */
  lemma NoPathTwice(evs: seq<Event>, t: State)
    requires IsRun(EMPTY, evs, t)
    ensures |t.channel| <= 1024
    ensures forall i, j | 0 <= i < j < |t.channel| :: t.channel[i].path != t.channel[j].path
    ensures forall v, w | v in t.workers && w in t.workers && v != w ::
              t.workers[v].job.path != t.workers[w].job.path
    ensures forall i, w | 0 <= i < |t.channel| && w in t.workers :: t.channel[i].path != t.workers[w].job.path
  {
    RunKeepsInv(EMPTY, evs, t);
    forall i, j | 0 <= i < j < |t.channel| ensures t.channel[i].path != t.channel[j].path {
      assert Carries(t, InChannel(i), t.channel[i].path) && Carries(t, InChannel(j), t.channel[j].path);
    }
    forall v, w | v in t.workers && w in t.workers && v != w ensures t.workers[v].job.path != t.workers[w].job.path {
      assert Carries(t, AtWorker(v), t.workers[v].job.path) && Carries(t, AtWorker(w), t.workers[w].job.path);
    }
    forall i, w | 0 <= i < |t.channel| && w in t.workers ensures t.channel[i].path != t.workers[w].job.path {
      assert Carries(t, InChannel(i), t.channel[i].path) && Carries(t, AtWorker(w), t.workers[w].job.path);
    }
  }

  /** A reservation is refused exactly while the path is somewhere. */
  lemma RefusedWhileSomewhere(evs: seq<Event>, t: State, p: nat, job: Job)
    requires IsRun(EMPTY, evs, t) && p !in t.producers
    ensures p !in Next(t, Reserve(p, job)).producers <==> Somewhere(t, job.path)
  {
    RunKeepsInv(EMPTY, evs, t);
  }

  /** The release on a full queue, and the one after processing, free the path of
      their own place and touch nothing else. */
  lemma ReleaseIsOwn(evs: seq<Event>, t: State, ev: Event, own: Place, path: string, other: Place, elsewhere: string)
    requires IsRun(EMPTY, evs, t) && Enabled(t, ev)
    requires (ev.Release? && own == AtProducer(ev.p)) || (ev.Finish? && own == AtWorker(ev.w))
    requires Carries(t, own, path) && Carries(t, other, elsewhere) && other != own
    ensures path !in Next(t, ev).queued && !Somewhere(Next(t, ev), path)
    ensures elsewhere in Next(t, ev).queued && Carries(Next(t, ev), other, elsewhere)
  {
    RunKeepsInv(EMPTY, evs, t);
    StepKeepsInv(t, ev);
    PlacesMove(t, ev, other, elsewhere);
    assert Somewhere(Next(t, ev), elsewhere);
  }

  /** Every job whose call returned true is at its place in the channel, with one
      worker, or finished. */
  lemma SentJobIsWhere(evs: seq<Event>, t: State, i: nat)
    requires IsRun(EMPTY, evs, t) && i < |t.sent|
    ensures i >= t.received ==> i - t.received < |t.channel| && t.channel[i - t.received] == t.sent[i]
    ensures i < t.received ==> (i in t.finished <==> !InHand(t, i))
    ensures i >= t.received ==> i !in t.finished && !InHand(t, i)
  {
    RunKeepsInv(EMPTY, evs, t);
  }

  /** And no job is with two workers. */
  lemma OneWorkerEach(evs: seq<Event>, t: State, v: nat, w: nat)
    requires IsRun(EMPTY, evs, t) && v in t.workers && w in t.workers && t.workers[v].ticket == t.workers[w].ticket
    ensures v == w
  {
    RunKeepsInv(EMPTY, evs, t);
    if v != w { TicketsApart(t, v, w); }
  }

  /** Once nobody is in the middle of a call, nothing stays reserved and every
      job that was sent has been processed. */
  lemma QuietMeansEmpty(evs: seq<Event>, t: State)
    requires IsRun(EMPTY, evs, t) && t.producers == map[] && t.channel == [] && t.workers == map[]
    ensures t.queued == {} && forall i :: i in t.finished <==> 0 <= i < |t.sent|
  {
    RunKeepsInv(EMPTY, evs, t);
    assert forall path :: !Somewhere(t, path);
    assert forall i :: !InHand(t, i);
  }

  // --------------------------------------------------------------- service

  class Service {
    const root: string
    var m: State
    ghost var trace: seq<Event>

    ghost predicate Valid()
      reads this
    {
      IsRun(EMPTY, trace, m)
    }

    constructor (root: string)
      ensures Valid() && this.root == root && m == EMPTY
    {
      this.root := root;
      m, trace := EMPTY, [];
    }

    method Do(ev: Event)
      requires Valid() && Enabled(m, ev)
      modifies this
      ensures Valid() && m == Next(old(m), ev) && trace == old(trace) + [ev]
    {
      m := Next(m, ev);
      trace := trace + [ev];
      assert trace[..|trace| - 1] == old(trace);
    }

    /** Any steps of everyone else. */
    method Interfere(self: Actor)
      requires Valid()
      modifies this
      ensures Valid() && old(trace) <= trace && Grown(old(m), m, self)
    {
      var steps: nat := *;
      RunKeepsInv(EMPTY, trace, m);
      while steps > 0
        invariant Valid() && old(trace) <= trace && Grown(old(m), m, self)
      {
        var ev: Event := *;
        if Enabled(m, ev) && By(ev) != self {
          OthersGrow(old(m), trace, m, ev, self);
          Do(ev);
        }
        steps := steps - 1;
      }
    }

    /** What Enqueue and its backfill twin take: videos below the storage root.
        abs is the absolute form of the path, if it has one. */
    predicate Takes(video: string, abs: Option<string>) {
      && IsVideoPath(video) && !IsDetectionSidecarPath(video) && abs.Some?
      && (abs.value == root || HasPrefix(abs.value, root + "/"))
    }

    /** Marking the path, unless it is marked already. */
    method TryReserve(p: nat, job: Job) returns (ok: bool, ghost cut: seq<Event>, ghost seen: State)
      requires Valid() && p !in m.producers
      modifies this
      ensures Valid() && old(trace) <= trace && OwnSends(old(m), m, p, None)
      ensures if ok then p in m.producers && m.producers[p] == Reserved(job) else p !in m.producers
      ensures !ok ==> old(trace) <= cut <= trace && IsRun(EMPTY, cut, seen) && Somewhere(seen, job.path)
    {
      Interfere(OfProducer(p));
      cut, seen := trace, m;
      RefusedWhileSomewhere(trace, m, p, job);
      Do(Reserve(p, job));
      ok := p in m.producers;
    }

    /** The send that gives up on a full channel and takes the mark back. */
    method TrySend(p: nat) returns (ok: bool, ghost ticket: nat, ghost cut: seq<Event>, ghost seen: State)
      requires Valid() && p in m.producers && m.producers[p].Reserved?
      modifies this
      ensures Valid() && old(trace) <= trace && p !in m.producers
      ensures OwnSends(old(m), m, p, if ok then Some(ticket) else None)
      ensures ok ==> ticket < |m.sent| && m.sent[ticket] == old(m.producers)[p].job
      ensures !ok ==> old(trace) <= cut <= trace && IsRun(EMPTY, cut, seen) && |seen.channel| == 1024
    {
      Interfere(OfProducer(p));
      RunKeepsInv(EMPTY, trace, m);
      cut, seen, ticket := trace, m, |m.sent|;
      Do(Send(p));
      ok := p !in m.producers;
      if ok { return; }
      Interfere(OfProducer(p));
      Do(Release(p));
    }

    /** Enqueue (notify) and enqueueBackfill (not), called by producer p while
        others run. Either way the call leaves no reservation of its own. True
        means it sent the job, once; false that it sent nothing, because the path
        was not one to take or because, at some moment of the call, the path was
        somewhere already or the channel was full. */
    method Enqueue(p: nat, video: string, abs: Option<string>, notify: bool)
      returns (ok: bool, ghost ticket: nat, ghost cut: seq<Event>, ghost seen: State)
      requires Valid() && p !in m.producers
      modifies this
      ensures Valid() && old(trace) <= trace && p !in m.producers
      ensures old(m.sent) <= m.sent && |m.senders| == |m.sent| && (ok ==> ticket >= |old(m.sent)|)
      ensures forall i | |old(m.sent)| <= i < |m.sent| :: m.senders[i] == p <==> ok && i == ticket
      ensures ok ==> Takes(video, abs) && ticket < |m.sent| && m.sent[ticket] == Job(abs.value, notify)
      ensures !Takes(video, abs) ==> m == old(m)
      ensures !ok && Takes(video, abs) ==>
                && old(trace) <= cut <= trace && IsRun(EMPTY, cut, seen)
                && (Somewhere(seen, abs.value) || |seen.channel| == 1024)
    {
      ok, ticket, cut, seen := false, 0, trace, m;
      RunKeepsInv(EMPTY, trace, m);
      if !IsVideoPath(video) || IsDetectionSidecarPath(video) { return; }
      if abs.None? { return; }
      if abs.value != root && !HasPrefix(abs.value, root + "/") { return; }
      ok, cut, seen := TryReserve(p, Job(abs.value, notify));
      if ok { ok, ticket, cut, seen := TrySend(p); }
    }

    /** One round of a worker: it receives the next job, processes it while others
        run, and releases the path, which is then free again. It has no job only if
        at some moment of the call the channel was empty. */
    method Work(w: nat) returns (job: Option<Job>, ghost ticket: nat, ghost cut: seq<Event>, ghost seen: State)
      requires Valid() && w !in m.workers
      modifies this
      ensures Valid() && old(trace) <= trace && w !in m.workers && old(m.sent) <= m.sent
      ensures old(trace) <= cut <= trace && IsRun(EMPTY, cut, seen) && (job.None? <==> seen.channel == [])
      ensures job.Some? ==>
                && ticket < |m.sent| && m.sent[ticket] == job.value
                && old(m.received) <= ticket < m.received && ticket in m.finished && !Somewhere(m, job.value.path)
    {
      job, ticket := None, 0;
      Interfere(OfWorker(w));
      cut, seen := trace, m;
      if m.channel == [] { return; }
      ticket := m.received;
      Do(Receive(w));
      job := Some(m.workers[w].job);
      Interfere(OfWorker(w));
      RunKeepsInv(EMPTY, trace, m);
      Do(Finish(w));
      RunKeepsInv(EMPTY, trace, m);
    }
  }

  datatype Actor = OfProducer(p: nat) | OfWorker(w: nat)

  function By(ev: Event): Actor {
    match ev
    case Reserve(p, _) => OfProducer(p)
    case Send(p) => OfProducer(p)
    case Release(p) => OfProducer(p)
    case Receive(w) => OfWorker(w)
    case Finish(w) => OfWorker(w)
  }

  /** Between two states producer p has sent the job with the given ticket, or none. */
  ghost predicate OwnSends(s: State, t: State, p: nat, ticket: Option<nat>) {
    && s.sent <= t.sent && s.senders <= t.senders && |t.senders| == |t.sent|
    && (ticket.Some? ==> |s.sent| <= ticket.value < |t.sent|)
    && (forall i | |s.sent| <= i < |t.sent| :: t.senders[i] == p <==> ticket.Some? && i == ticket.value)
  }

  /** What everyone else cannot change: the logs only grow, nothing is sent in
      one's own name, and one's own place stays. */
  ghost predicate Grown(s: State, t: State, self: Actor) {
    && s.sent <= t.sent && s.senders <= t.senders && |t.senders| == |t.sent| && s.received <= t.received
    && (forall i | |s.sent| <= i < |t.sent| :: self.OfProducer? ==> t.senders[i] != self.p)
    && (self.OfProducer? ==> (self.p in t.producers <==> self.p in s.producers))
    && (self.OfProducer? && self.p in s.producers ==> t.producers[self.p] == s.producers[self.p])
    && (self.OfWorker? ==> (self.w in t.workers <==> self.w in s.workers))
    && (self.OfWorker? && self.w in s.workers ==> t.workers[self.w] == s.workers[self.w])
  }

  lemma OthersGrow(first: State, evs: seq<Event>, s: State, ev: Event, self: Actor)
    requires IsRun(EMPTY, evs, s) && Grown(first, s, self) && Enabled(s, ev) && By(ev) != self
    ensures Grown(first, Next(s, ev), self)
  {
    var t := Next(s, ev);
    assert s.sent <= t.sent && s.senders <= t.senders;
    assert forall i | |s.sent| <= i < |t.sent| :: self.OfProducer? ==> t.senders[i] != self.p;
  }
}
