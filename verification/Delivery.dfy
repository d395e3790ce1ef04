/** The spool and the store together: what the worker calls a successful store is
    a finished ProcessAndStore call in one of the archive's folders. */
module Delivery {
  import opened CivilTime
  import opened Recipient
  import opened Store
  import opened Text
  import D = StoreMachine
  import M = SpoolMachine
  import SpoolItem
  import StorageNames

  /** What does not change: the spool's configuration, whether the classifier meets
      files of other origin, Unicode, and the MIME parser. */
  datatype Setting = Setting(c: M.Config, strays: bool, u: Runes, parse: string -> Option<Parsed>)

  /** A message and the folder it belongs in. */
  datatype Task = Task(dir: string, msg: D.Message)

  /** What the worker makes of an item, reading it at the time `now`. */
  function TaskOf(w: Setting, bytes: string, now: Time): Option<Task> {
    var item := SpoolItem.ReadItem(bytes);
    if item.None? then None
    else
      var p, at := w.parse(item.value.raw), SpoolItem.ReceivedAt(item.value, now);
      if p.None? then None else Some(Task(DirectoryOf(w.u, p.value, at), MessageOf(p.value, at)))
  }

  /** The call the worker has under way for the item in hand. */
  datatype Job = Job(dir: string, id: nat)

  datatype State = State(spool: M.State, disks: map<string, D.State>, job: Option<Job>)

  datatype Event =
    | Spool(ev: M.Event)
    | StartStore(id: nat, now: Time)
    | Disk(dir: string, step: D.Event)

  function DiskOf(disks: map<string, D.State>, dir: string): D.State {
    if dir in disks then disks[dir] else D.State(map[], map[])
  }

  predicate IsStore(ev: M.Event) {
    ev.Wrk? && ev.w.Store?
  }

  predicate JobDone(s: State) {
    && s.job.Some? && s.job.value.id in DiskOf(s.disks, s.job.value.dir).calls
    && DiskOf(s.disks, s.job.value.dir).calls[s.job.value.id].pc.Done?
  }

  /** A store counts as kept only when the worker's call has returned. */
  predicate Enabled(w: Setting, s: State, ev: Event) {
    match ev
    case Spool(e) =>
      && M.Next(w.c, s.spool, e).To? && M.NamesFresh(s.spool, e)
      && (IsStore(e) && e.w.outcome.Kept? ==> JobDone(s))
    case StartStore(id, now) =>
      && s.spool.wrk.Claimed? && s.spool.wrk.name in s.spool.processing && s.job.None?
      && var task := TaskOf(w, s.spool.processing[s.spool.wrk.name], now);
         task.Some? && D.Step(w.strays, DiskOf(s.disks, task.value.dir), D.Begin(id, task.value.msg)).Some?
    case Disk(dir, step) => D.Step(w.strays, DiskOf(s.disks, dir), step).Some?
  }

  function Next(w: Setting, s: State, ev: Event): State
    requires Enabled(w, s, ev)
  {
    match ev
    case Spool(e) => State(M.Next(w.c, s.spool, e).value, s.disks, if IsStore(e) || e.Crash? then None else s.job)
    case StartStore(id, now) =>
      var task := TaskOf(w, s.spool.processing[s.spool.wrk.name], now).value;
      var disk := D.Step(w.strays, DiskOf(s.disks, task.dir), D.Begin(id, task.msg)).value;
      s.(disks := s.disks[task.dir := disk], job := Some(Job(task.dir, id)))
    case Disk(dir, step) => s.(disks := s.disks[dir := D.Step(w.strays, DiskOf(s.disks, dir), step).value])
  }

  ghost predicate IsRun(w: Setting, s: State, evs: seq<Event>, t: State) {
    if evs == [] then s == t
    else
      var front, last := evs[..|evs| - 1], evs[|evs| - 1];
      exists u :: IsRun(w, s, front, u) && Enabled(w, u, last) && Next(w, u, last) == t
  }

  // ------------------------------------------------------------- invariant

  /** A call of this folder stores what the item says. */
  ghost predicate CallFor(w: Setting, disks: map<string, D.State>, job: Job, bytes: string) {
    && job.dir in disks && job.id in disks[job.dir].calls
    && exists now :: TaskOf(w, bytes, now) == Some(Task(job.dir, disks[job.dir].calls[job.id].msg))
  }

  /** And it has returned. */
  ghost predicate Saved(w: Setting, disks: map<string, D.State>, job: Job, bytes: string) {
    CallFor(w, disks, job, bytes) && disks[job.dir].calls[job.id].pc.Done?
  }

  ghost predicate OnDisk(w: Setting, disks: map<string, D.State>, bytes: string) {
    exists job :: Saved(w, disks, job, bytes)
  }

  ghost predicate SoundDisks(w: Setting, disks: map<string, D.State>) {
    forall dir | dir in disks :: D.Inv(w.strays, disks[dir])
  }

  ghost predicate JobHolds(w: Setting, s: State) {
    s.job.Some? ==>
      && s.spool.wrk.Claimed? && s.spool.wrk.name in s.spool.processing
      && CallFor(w, s.disks, s.job.value, s.spool.processing[s.spool.wrk.name])
  }

  ghost predicate StoresAreOnDisk(w: Setting, s: State) {
    forall n | M.StoresOf(s.spool, n) != [] :: n in s.spool.published && OnDisk(w, s.disks, s.spool.published[n])
  }

  ghost predicate Inv(w: Setting, s: State) {
    M.Inv(w.c, s.spool) && SoundDisks(w, s.disks) && JobHolds(w, s) && StoresAreOnDisk(w, s)
  }

  // ----------------------------------------------------------- disk steps

  /** No step of a folder forgets a call, changes its message or undoes its return. */
  lemma CallsStay(strays: bool, s: D.State, ev: D.Event, id: nat)
    requires D.Step(strays, s, ev).Some? && id in s.calls
    ensures var t := D.Step(strays, s, ev).value;
            id in t.calls && t.calls[id].msg == s.calls[id].msg && (s.calls[id].pc.Done? ==> t.calls[id].pc.Done?)
  {
  }

  /** The folders after a step of one of them. */
  ghost predicate DiskStepped(w: Setting, before: map<string, D.State>, after: map<string, D.State>,
                              dir: string, ev: D.Event) {
    && D.Step(w.strays, DiskOf(before, dir), ev).Some?
    && after == before[dir := D.Step(w.strays, DiskOf(before, dir), ev).value]
  }

  lemma DiskStepKeepsCall(w: Setting, before: map<string, D.State>, after: map<string, D.State>,
                          dir: string, ev: D.Event, job: Job, bytes: string)
    requires DiskStepped(w, before, after, dir, ev) && CallFor(w, before, job, bytes)
    ensures CallFor(w, after, job, bytes) && (Saved(w, before, job, bytes) ==> Saved(w, after, job, bytes))
  {
    if job.dir == dir { CallsStay(w.strays, before[dir], ev, job.id); }
    assert after[job.dir].calls[job.id].msg == before[job.dir].calls[job.id].msg;
  }

  lemma DiskStepKeepsDisks(w: Setting, before: map<string, D.State>, after: map<string, D.State>,
                           dir: string, ev: D.Event)
    requires DiskStepped(w, before, after, dir, ev) && SoundDisks(w, before)
    ensures SoundDisks(w, after)
  {
    D.StepKeepsInv(w.strays, DiskOf(before, dir), ev);
  }

  lemma DiskStepKeepsStores(w: Setting, s: State, t: State, dir: string, ev: D.Event)
    requires DiskStepped(w, s.disks, t.disks, dir, ev) && t.spool == s.spool && StoresAreOnDisk(w, s)
    ensures StoresAreOnDisk(w, t)
  {
    forall n | M.StoresOf(t.spool, n) != [] ensures OnDisk(w, t.disks, t.spool.published[n]) {
      var job :| Saved(w, s.disks, job, s.spool.published[n]);
      DiskStepKeepsCall(w, s.disks, t.disks, dir, ev, job, s.spool.published[n]);
      assert Saved(w, t.disks, job, t.spool.published[n]);
    }
  }

  lemma StartKeepsInv(w: Setting, s: State, id: nat, now: Time)
    requires Inv(w, s) && Enabled(w, s, StartStore(id, now))
    ensures Inv(w, Next(w, s, StartStore(id, now)))
  {
    var t := Next(w, s, StartStore(id, now));
    var bytes := s.spool.processing[s.spool.wrk.name];
    var task := TaskOf(w, bytes, now).value;
    DiskStepKeepsDisks(w, s.disks, t.disks, task.dir, D.Begin(id, task.msg));
    DiskStepKeepsStores(w, s, t, task.dir, D.Begin(id, task.msg));
    assert t.disks[task.dir].calls[id].msg == task.msg;
    assert CallFor(w, t.disks, t.job.value, bytes);
  }

  lemma DiskKeepsInv(w: Setting, s: State, dir: string, ev: D.Event)
    requires Inv(w, s) && Enabled(w, s, Disk(dir, ev))
    ensures Inv(w, Next(w, s, Disk(dir, ev)))
  {
    var t := Next(w, s, Disk(dir, ev));
    DiskStepKeepsDisks(w, s.disks, t.disks, dir, ev);
    DiskStepKeepsStores(w, s, t, dir, ev);
    if s.job.Some? {
      DiskStepKeepsCall(w, s.disks, t.disks, dir, ev, s.job.value, s.spool.processing[s.spool.wrk.name]);
    }
  }

  // ---------------------------------------------------------- spool steps

  /** Only a kept store adds to what has been stored, and only for the item in hand. */
  lemma StoresGrow(c: M.Config, s: M.State, ev: M.Event, n: string)
    requires M.Inv(c, s) && M.Next(c, s, ev).To?
    ensures var t := M.Next(c, s, ev).value;
            && (n in s.published ==> n in t.published && t.published[n] == s.published[n])
            && (M.StoresOf(t, n) == M.StoresOf(s, n) ||
                (IsStore(ev) && ev.w.outcome.Kept? && s.wrk == M.Claimed(n)))
  {
    match ev
    case Enq(e) => if !M.IsMeasuring(s.enq) && n in s.published { WriteKeepsPublished(s, e, n); }
    case Wrk(w) => WorkerStoresGrow(c, s, w, n);
    case Crash =>
  }

  lemma WriteKeepsPublished(s: M.State, e: M.EnqEvent, n: string)
    requires M.EnqueueHolds(s) && M.Write(s, e).To? && n in s.published
    ensures n in M.Write(s, e).value.published && M.Write(s, e).value.published[n] == s.published[n]
  {
  }

  lemma WorkerStoresGrow(c: M.Config, s: M.State, w: M.WrkEvent, n: string)
    requires M.NextWrk(c, s, w).To?
    ensures var t := M.NextWrk(c, s, w).value;
            && t.published == s.published
            && (M.StoresOf(t, n) == M.StoresOf(s, n) || (w.Store? && w.outcome.Kept? && s.wrk == M.Claimed(n)))
  {
    hide M.Restore, M.TryClaim, M.TryStore, M.Finish;
  }

  /** While the item in hand is claimed, nothing but its store and a crash ends that. */
  lemma ClaimStays(c: M.Config, s: M.State, ev: M.Event)
    requires s.wrk.Claimed? && M.Next(c, s, ev).To? && !IsStore(ev) && !ev.Crash?
    ensures M.Next(c, s, ev).value.wrk == s.wrk && M.Next(c, s, ev).value.processing == s.processing
  {
    if ev.Enq? && !M.IsMeasuring(s.enq) {
      var t := M.Write(s, ev.e).value;
      assert t.wrk == s.wrk && t.processing == s.processing;
    }
  }

  lemma SpoolKeepsStores(w: Setting, s: State, ev: M.Event)
    requires Inv(w, s) && Enabled(w, s, Spool(ev))
    ensures StoresAreOnDisk(w, Next(w, s, Spool(ev)))
  {
    var t := Next(w, s, Spool(ev));
    forall n | M.StoresOf(t.spool, n) != []
      ensures n in t.spool.published && OnDisk(w, t.disks, t.spool.published[n])
    {
      assert M.ItemInv(w.c, s.spool, n);
      StoresGrow(w.c, s.spool, ev, n);
      if M.StoresOf(t.spool, n) != M.StoresOf(s.spool, n) {
        assert Saved(w, s.disks, s.job.value, s.spool.processing[n]);
      }
    }
  }

  lemma SpoolKeepsInv(w: Setting, s: State, ev: M.Event)
    requires Inv(w, s) && Enabled(w, s, Spool(ev))
    ensures Inv(w, Next(w, s, Spool(ev)))
  {
    M.StepKeepsInv(w.c, s.spool, ev);
    SpoolKeepsStores(w, s, ev);
    if s.job.Some? && !IsStore(ev) && !ev.Crash? { ClaimStays(w.c, s.spool, ev); }
  }

  // -------------------------------------------------------------- theorems

  /** A spool as a process finds it, and folders with any files but no call under way. */
  ghost predicate Init(s: State) {
    M.Init(s.spool) && s.job.None? && forall dir | dir in s.disks :: s.disks[dir].calls == map[]
  }

  lemma AnyStartIsInit(spool: M.State, disks: map<string, D.State>)
    requires M.Init(spool) && forall dir | dir in disks :: disks[dir].calls == map[]
    ensures Init(State(spool, disks, None))
  {
  }

  /** Receipts stand. */
  ghost predicate Receipted(s: State, t: State) {
    forall n | n in s.spool.accepted :: n in t.spool.accepted && t.spool.accepted[n] == s.spool.accepted[n]
  }

  lemma StepKeepsInv(w: Setting, s: State, ev: Event)
    requires Inv(w, s) && Enabled(w, s, ev)
    ensures Inv(w, Next(w, s, ev)) && Receipted(s, Next(w, s, ev))
  {
    match ev
    case Spool(e) =>
      SpoolKeepsInv(w, s, e);
      forall n | n in s.spool.accepted
        ensures n in Next(w, s, ev).spool.accepted && Next(w, s, ev).spool.accepted[n] == s.spool.accepted[n]
      {
        M.ReceiptKept(w.c, s.spool, e, n);
      }
    case StartStore(id, now) => StartKeepsInv(w, s, id, now);
    case Disk(dir, step) => DiskKeepsInv(w, s, dir, step);
  }

  lemma {:induction false} RunKeepsReceipts(w: Setting, s: State, evs: seq<Event>, t: State)
    requires Inv(w, s) && IsRun(w, s, evs, t)
    ensures Inv(w, t) && Receipted(s, t)
  {
    if evs != [] {
      var front, last := evs[..|evs| - 1], evs[|evs| - 1];
      var u :| IsRun(w, s, front, u) && Enabled(w, u, last) && Next(w, u, last) == t;
      RunKeepsReceipts(w, s, front, u);
      hide Inv;
      StepKeepsInv(w, u, last);
    }
  }

  lemma RunKeepsInv(w: Setting, s: State, evs: seq<Event>, t: State)
    requires Init(s) && IsRun(w, s, evs, t)
    ensures Inv(w, t)
  {
    M.InitInv(w.c, s.spool);
    RunKeepsReceipts(w, s, evs, t);
  }

  /** The message is complete in the folder its receipt time and recipient say. */
  ghost predicate InArchive(w: Setting, disks: map<string, D.State>, raw: string, at: Time) {
    && w.parse(raw).Some? && DirectoryOf(w.u, w.parse(raw).value, at) in disks
    && exists prefix :: Complete(disks[DirectoryOf(w.u, w.parse(raw).value, at)].files, prefix, w.parse(raw).value)
  }

  /** The body, and every attachment under its own extension. */
  ghost predicate Complete(files: map<string, string>, prefix: string, p: Parsed) {
    && prefix + ".txt" in files && files[prefix + ".txt"] == p.body
    && forall i | 0 <= i < |p.attachments| ::
         var name := prefix + "_" + Decimal(i + 1) + p.attachments[i].ext;
         name in files && files[name] == p.attachments[i].data
  }

  /** What InArchive says, spelled out. */
  lemma InArchiveIs(w: Setting, disks: map<string, D.State>, raw: string, at: Time)
    returns (p: Parsed, dir: string, prefix: string)
    requires InArchive(w, disks, raw, at)
    ensures w.parse(raw) == Some(p) && dir == DirectoryOf(w.u, p, at) && dir in disks
    ensures prefix + ".txt" in disks[dir].files && disks[dir].files[prefix + ".txt"] == p.body
    ensures forall i | 0 <= i < |p.attachments| ::
              var name := prefix + "_" + Decimal(i + 1) + p.attachments[i].ext;
              name in disks[dir].files && disks[dir].files[name] == p.attachments[i].data
  {
    p := w.parse(raw).value;
    dir := DirectoryOf(w.u, p, at);
    prefix :| Complete(disks[dir].files, prefix, p);
  }

  lemma SavedIsComplete(w: Setting, s: State, job: Job, raw: string, at: Time)
    requires SoundDisks(w, s.disks) && Valid(at) && Saved(w, s.disks, job, SpoolItem.Content(raw, at))
    ensures InArchive(w, s.disks, raw, at)
  {
    var bytes := SpoolItem.Content(raw, at);
    var call := s.disks[job.dir].calls[job.id];
    var now :| TaskOf(w, bytes, now) == Some(Task(job.dir, call.msg));
    SpoolItem.ReadBack(raw, at, now);
    assert D.Sound(w.strays, s.disks[job.dir].files, call);
    var p := w.parse(raw).value;
    MessageIs(p, at);
    assert forall i | 0 <= i < |p.attachments| ::
        D.NameOf(call, i) == call.prefix + "_" + Decimal(i + 1) + p.attachments[i].ext;
    assert Complete(s.disks[job.dir].files, call.prefix, p);
  }

  /** Where an accepted message is. */
  ghost predicate Covered(w: Setting, t: State, n: string, raw: string, at: Time)
    requires Valid(at)
  {
    && !(n in t.spool.pending && n in t.spool.processing) && !(n in t.spool.pending && n in t.spool.failed)
    && !(n in t.spool.processing && n in t.spool.failed)
    && (n in t.spool.pending ==> t.spool.pending[n] == SpoolItem.Content(raw, at))
    && (n in t.spool.processing ==> t.spool.processing[n] == SpoolItem.Content(raw, at))
    && (n in t.spool.failed ==> t.spool.failed[n] == SpoolItem.Content(raw, at))
    && (n !in t.spool.pending && n !in t.spool.processing && n !in t.spool.failed ==> InArchive(w, t.disks, raw, at))
  }

  lemma InvCovers(w: Setting, t: State, n: string, raw: string, at: Time)
    requires Inv(w, t) && Valid(at)
    requires n in t.spool.accepted && t.spool.accepted[n].bytes == SpoolItem.Content(raw, at)
    ensures Covered(w, t, n, raw, at)
  {
    assert M.ItemInv(w.c, t.spool, n);
    if n !in t.spool.pending && n !in t.spool.processing && n !in t.spool.failed {
      var job :| Saved(w, t.disks, job, t.spool.published[n]);
      SavedIsComplete(w, t, job, raw, at);
    }
  }

  /** The whole way. Whatever the interleaving of enqueuer, worker, other stores,
      classifier, failing steps and crashes: an accepted message is in exactly one
      spool directory with its bytes, or it has left the spool and its body and all
      its attachments are intact in its recipient's folder for the day of receipt. */
  lemma AcceptedIsSpooledOrArchived(w: Setting, s: State, evs: seq<Event>, t: State, n: string, raw: string, at: Time)
    requires Init(s) && IsRun(w, s, evs, t) && Valid(at)
    requires n in t.spool.accepted && t.spool.accepted[n].bytes == SpoolItem.Content(raw, at)
    ensures var bytes := SpoolItem.Content(raw, at);
            || (n in t.spool.pending && t.spool.pending[n] == bytes &&
                n !in t.spool.processing && n !in t.spool.failed)
            || (n in t.spool.processing && t.spool.processing[n] == bytes &&
                n !in t.spool.pending && n !in t.spool.failed)
            || (n in t.spool.failed && t.spool.failed[n] == bytes &&
                n !in t.spool.pending && n !in t.spool.processing)
            || (n !in t.spool.pending && n !in t.spool.processing && n !in t.spool.failed &&
                InArchive(w, t.disks, raw, at))
    ensures Covered(w, t, n, raw, at)
  {
    RunKeepsInv(w, s, evs, t);
    InvCovers(w, t, n, raw, at);
  }

  // ------------------------------------------------------------ completion

  lemma {:induction false} DiskRuns(w: Setting, s: State, dir: string, evs: seq<D.Event>) returns (all: seq<Event>)
    requires dir in s.disks && D.Run(w.strays, s.disks[dir], evs).Some?
    ensures IsRun(w, s, all, s.(disks := s.disks[dir := D.Run(w.strays, s.disks[dir], evs).value]))
  {
    if evs == [] {
      all := [];
      assert s.disks[dir := s.disks[dir]] == s.disks;
    } else {
      var front, last := evs[..|evs| - 1], evs[|evs| - 1];
      var before := DiskRuns(w, s, dir, front);
      var u := s.(disks := s.disks[dir := D.Run(w.strays, s.disks[dir], front).value]);
      all := before + [Disk(dir, last)];
      assert Enabled(w, u, Disk(dir, last));
      assert all[..|all| - 1] == before;
    }
  }

  lemma RunOn(w: Setting, s: State, evs: seq<Event>, t: State, ev: Event) returns (longer: seq<Event>, u: State)
    requires IsRun(w, s, evs, t) && Enabled(w, t, ev)
    ensures IsRun(w, s, longer, u) && u == Next(w, t, ev)
  {
    longer, u := evs + [ev], Next(w, t, ev);
    assert longer[..|longer| - 1] == evs;
  }

  lemma StoreBegins(w: Setting, s: State, now: Time) returns (evs: seq<Event>, t: State, job: Job)
    requires s.spool.wrk.Claimed? && s.spool.wrk.name in s.spool.processing && s.job.None?
    requires var task := TaskOf(w, s.spool.processing[s.spool.wrk.name], now);
             task.Some? && D.WellFormed(task.value.msg, w.strays)
    ensures IsRun(w, s, evs, t) && t.spool == s.spool && t.job == Some(job)
    ensures job.dir in t.disks && job.id in t.disks[job.dir].calls
    ensures var call := t.disks[job.dir].calls[job.id]; call.pc == D.Trying(1) && D.WellFormed(call.msg, w.strays)
  {
    var task := TaskOf(w, s.spool.processing[s.spool.wrk.name], now).value;
    var id := NewId(DiskOf(s.disks, task.dir).calls.Keys);
    job := Job(task.dir, id);
    evs, t := RunOn(w, s, [], s, StartStore(job.id, now));
  }

  lemma StoreIsKept(w: Setting, s: State, evs: seq<Event>, t: State) returns (longer: seq<Event>, u: State)
    requires IsRun(w, s, evs, t) && JobDone(t) && t.spool.wrk.Claimed? && t.spool.wrk.name in t.spool.processing
    ensures IsRun(w, s, longer, u)
    ensures var n, bytes := t.spool.wrk.name, t.spool.processing[t.spool.wrk.name];
            u.spool.wrk == M.Stored(n, bytes) && M.StoresOf(u.spool, n) == M.StoresOf(t.spool, n) + [bytes]
  {
    longer, u := RunOn(w, s, evs, t, Spool(M.Wrk(M.Store(M.Kept))));
  }

  /** A claimed item that can be read and parsed can be stored, whatever is in the
      folders and whatever else is under way there: some steps of its own call, and
      the worker has it kept. */
  lemma ClaimedCanBeArchived(w: Setting, s: State, now: Time) returns (evs: seq<Event>, t: State)
    requires Inv(w, s) && s.spool.wrk.Claimed? && s.job.None?
    requires var task := TaskOf(w, s.spool.processing[s.spool.wrk.name], now);
             task.Some? && D.WellFormed(task.value.msg, w.strays)
    ensures IsRun(w, s, evs, t)
    ensures var n, bytes := s.spool.wrk.name, s.spool.processing[s.spool.wrk.name];
            t.spool.wrk == M.Stored(n, bytes) && M.StoresOf(t.spool, n) == M.StoresOf(s.spool, n) + [bytes]
  {
    hide IsRun, TaskOf, D.Run, D.WellFormed, StoresAreOnDisk, SoundDisks, M.ItemInv, M.EnqueueHolds;
    var u, v, job;
    evs, u, job := StoreBegins(w, s, now);
    var steps, disk := CallCanFinish(w.strays, u.disks[job.dir], job.id);
    evs, v := RunOnDisk(w, s, evs, u, job.dir, steps);
    evs, t := StoreIsKept(w, s, evs, v);
  }

  lemma RunOnDisk(w: Setting, s: State, evs: seq<Event>, t: State, dir: string, steps: seq<D.Event>)
    returns (longer: seq<Event>, u: State)
    requires IsRun(w, s, evs, t) && dir in t.disks && D.Run(w.strays, t.disks[dir], steps).Some?
    ensures IsRun(w, s, longer, u)
    ensures u == t.(disks := t.disks[dir := D.Run(w.strays, t.disks[dir], steps).value])
  {
    var more := DiskRuns(w, t, dir, steps);
    u := t.(disks := t.disks[dir := D.Run(w.strays, t.disks[dir], steps).value]);
    longer := evs + more;
    RunsJoin(w, s, evs, t, more, u);
  }

  lemma {:induction false} RunsJoin(w: Setting, s: State, evs: seq<Event>, t: State, more: seq<Event>, u: State)
    requires IsRun(w, s, evs, t) && IsRun(w, t, more, u)
    ensures IsRun(w, s, evs + more, u)
  {
    if more == [] {
      assert evs + more == evs;
    } else {
      var front, last := more[..|more| - 1], more[|more| - 1];
      var v :| IsRun(w, t, front, v) && Enabled(w, v, last) && Next(w, v, last) == u;
      RunsJoin(w, s, evs, t, front, v);
      assert (evs + more)[..|evs + more| - 1] == evs + front;
    }
  }

  lemma NewId(used: set<nat>) returns (k: nat)
    ensures k !in used && forall n | n in used :: n < k
  {
    k := 0;
    if used != {} {
      var n :| n in used;
      var rest := NewId(used - {n});
      k := rest + n + 1;
      forall m | m in used ensures m < k { assert m == n || m in used - {n}; }
    }
  }
}
