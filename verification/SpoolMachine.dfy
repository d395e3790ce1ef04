/** The durable spool as a state machine over atomic file-system steps: one
    Enqueue at a time (the mutex serialises them), one worker that never takes
    the mutex, and a process crash possible between any two steps. */
module SpoolMachine {
  import opened Listing
  import opened Text

  // A byte string: one character stands for one byte.
  type Bytes = string

  /** `lineMax` bounds the metadata line. `atomicMeasure` selects an idealised
      measurement of both directories in one step instead of the real walk. */
  datatype Config = Config(maxBytes: int, lineMax: nat, atomicMeasure: bool, hasHandler: bool)

  datatype EnqPc =
    | Idle
    | Locked(line: Bytes, raw: Bytes)
      // The names listed so far, how many of them have been measured, and
      // whether the second directory (processing) has been listed.
    | Walking(line: Bytes, raw: Bytes, names: seq<string>, next: nat, total: nat, second: bool)
    | Admitted(line: Bytes, raw: Bytes)
    | Writing(name: string, line: Bytes, raw: Bytes, stage: nat)
    | Cleanup(name: string)
    | Returning(name: string, bytes: Bytes)

  datatype WrkPc =
    | Down
    | Recovering(todo: seq<string>)
    | Ready
    | Picked(name: string)
    | Claimed(name: string)
    | Retaining(name: string)
    | Failing(name: string)
    | Stored(name: string, bytes: Bytes)
    | Posting(name: string, bytes: Bytes)

  /** What Enqueue promised when it returned a name, and how often the process
      had restarted by then. */
  datatype Receipt = Receipt(bytes: Bytes, restarts: nat)

  /** The four directories, the two program counters and the history.
      `published` holds every item ever renamed into pending (or found in the
      spool at the start), `epoch` the number of restarts at that moment,
      `accepted` the names returned to a caller,
      `stored` the bytes handed to final storage, success by success, and
      `posted` the number of postStore calls. */
  datatype State = State(
    tmp: map<string, Bytes>,
    pending: map<string, Bytes>,
    processing: map<string, Bytes>,
    failed: map<string, Bytes>,
    enq: EnqPc,
    wrk: WrkPc,
    published: map<string, Bytes>,
    epoch: map<string, nat>,
    accepted: map<string, Receipt>,
    stored: map<string, seq<Bytes>>,
    posted: map<string, nat>,
    restarts: nat)

  datatype StoreOutcome = Kept | Unavailable | Rejected

  datatype EnqEvent =
    | Lock(line: Bytes, raw: Bytes)
    | MeasureAtOnce(inPending: seq<string>, inProcessing: seq<string>)
    | ListPending(order: seq<string>)
    | Stat
    | ListProcessing(order: seq<string>)
    | Admit
    | WalkFails
    | Create(name: string)
    | CreateFails
    | Append
    | AppendFails(partial: Bytes)
    | Publish
    | PublishFails
    | RemoveTmp(ok: bool)
    | Return

  datatype WrkEvent =
    | Start(order: seq<string>)
    | StartBlind
    | Recover(ok: bool)
    | Recovered
    | Pick(name: string)
    | Claim(ok: bool)
    | Store(outcome: StoreOutcome)
    | Remove(ok: bool)
    | Post
    | PutBack(ok: bool)
    | SetAside(ok: bool)

  datatype Event = Enq(e: EnqEvent) | Wrk(w: WrkEvent) | Crash

  function StoresOf(s: State, name: string): seq<Bytes> {
    if name in s.stored then s.stored[name] else []
  }

  function PostsOf(s: State, name: string): nat {
    if name in s.posted then s.posted[name] else 0
  }

  /** The result of a step: the machine may not be able to take it. */
  datatype Step = Blocked | To(value: State)

  function SizeOf(names: seq<string>, dir: map<string, Bytes>): nat {
    if names == [] then 0
    else (if names[0] in dir then |dir[names[0]]| else 0) + SizeOf(names[1..], dir)
  }

  predicate IsEml(name: string) {
    |name| >= 4 && name[|name| - 4..] == ".eml"
  }

  predicate IsNext(name: string, pending: map<string, Bytes>) {
    && name in pending && IsEml(name)
    && forall n | n in pending && IsEml(n) :: !Before(n, name)
  }

  /** No directory and no earlier item uses the name. */
  predicate Fresh(s: State, name: string) {
    name !in s.tmp && name !in s.pending && name !in s.processing && name !in s.failed && name !in s.published
  }

  function Decide(c: Config, line: Bytes, raw: Bytes, total: nat): EnqPc {
    if total + |raw| > c.maxBytes then Idle else Admitted(line, raw)
  }

  /** The part of Enqueue that only measures: the next program counter. */
  function Measure(c: Config, s: State, e: EnqEvent): Option<EnqPc> {
    match s.enq
    case Idle => (
      match e
      case Lock(line, raw) =>
        if |line| > c.lineMax then None
        else Some(if c.maxBytes > 0 then Locked(line, raw) else Admitted(line, raw))
      case _ => None)
    case Locked(line, raw) => (
      match e
      case MeasureAtOnce(ps, qs) =>
        if c.atomicMeasure && Enumerates(ps, s.pending.Keys) && Enumerates(qs, s.processing.Keys) then
          Some(Decide(c, line, raw, SizeOf(ps, s.pending) + SizeOf(qs, s.processing)))
        else None
      case ListPending(order) =>
        if !c.atomicMeasure && Enumerates(order, s.pending.Keys) then
          Some(Walking(line, raw, order, 0, 0, false))
        else None
      case WalkFails => Some(Idle)
      case _ => None)
    case Walking(line, raw, names, next, total, second) => (
      match e
      case Stat =>
        if next >= |names| then None
        else
          var dir := if second then s.processing else s.pending;
          Some(if names[next] in dir
               then Walking(line, raw, names, next + 1, total + |dir[names[next]]|, second)
               else Idle)
      case ListProcessing(order) =>
        if next == |names| && !second && Enumerates(order, s.processing.Keys) then
          Some(Walking(line, raw, names + order, next, total, true))
        else None
      case Admit =>
        if next == |names| && second then Some(Decide(c, line, raw, total)) else None
      case WalkFails => Some(Idle)
      case _ => None)
    case _ => None
  }

  /** The part of Enqueue that writes the item, publishes it and returns. */
  function Write(s: State, e: EnqEvent): (r: Step)
    ensures r.To? ==>
              var t := r.value;
              && t.processing == s.processing && t.failed == s.failed && t.stored == s.stored && t.posted == s.posted
              && t.wrk == s.wrk && t.restarts == s.restarts && s.pending.Keys <= t.pending.Keys
              && (!e.Publish? ==> t.pending == s.pending && t.published == s.published && t.epoch == s.epoch)
              && (!e.Return? ==> t.accepted == s.accepted) && !t.enq.Walking?
  {
    match s.enq
    case Admitted(line, raw) => (
      match e
      case Create(name) =>
        if name !in s.tmp then To(s.(tmp := s.tmp[name := ""], enq := Writing(name, line, raw, 0))) else Blocked
      case CreateFails => To(s.(enq := Idle))
      case _ => Blocked)
    case Writing(name, line, raw, stage) => (
      match e
      case Append =>
        if stage == 0 && name in s.tmp then
          To(s.(tmp := s.tmp[name := s.tmp[name] + line], enq := Writing(name, line, raw, 1)))
        else if stage == 1 && name in s.tmp then
          To(s.(tmp := s.tmp[name := s.tmp[name] + raw], enq := Writing(name, line, raw, 2)))
        else Blocked
      case AppendFails(partial) =>
        // A failed write, sync or close; what the file holds is anybody's guess.
        To(s.(tmp := s.tmp[name := partial], enq := Cleanup(name)))
      case Publish =>
        if stage == 2 && name in s.tmp then
          To(s.(tmp := s.tmp - {name}, pending := s.pending[name := s.tmp[name]], enq := Returning(name, s.tmp[name]),
                  published := s.published[name := s.tmp[name]], epoch := s.epoch[name := s.restarts]))
        else Blocked
      case PublishFails => if stage == 2 then To(s.(enq := Cleanup(name))) else Blocked
      case _ => Blocked)
    case Cleanup(name) => (
      match e
      case RemoveTmp(ok) => To(s.(tmp := if ok then s.tmp - {name} else s.tmp, enq := Idle))
      case _ => Blocked)
    case Returning(name, bytes) => (
      match e
      case Return => To(s.(accepted := s.accepted[name := Receipt(bytes, s.restarts)], enq := Idle))
      case _ => Blocked)
    case _ => Blocked
  }

  predicate IsMeasuring(pc: EnqPc) {
    pc.Idle? || pc.Locked? || pc.Walking?
  }

  function NextEnq(c: Config, s: State, e: EnqEvent): Step {
    if IsMeasuring(s.enq) then
      match Measure(c, s, e)
      case None => Blocked
      case Some(pc) => To(s.(enq := pc))
    else Write(s, e)
  }

  /** The target directory after a rename: whatever had the name is replaced. */
  function Received(to: map<string, Bytes>, from: map<string, Bytes>, name: string): map<string, Bytes> {
    if name in from then to[name := from[name]] else to
  }

  /** The worker leaves Enqueue's file and the history of acceptance alone, and
      brings no name into the two directories that count against the limit. */
  predicate Framed(s: State, t: State) {
    && t.tmp == s.tmp && t.enq == s.enq && t.restarts == s.restarts
    && t.published == s.published && t.epoch == s.epoch && t.accepted == s.accepted
    && t.pending.Keys + t.processing.Keys <= s.pending.Keys + s.processing.Keys
    && t.failed.Keys <= s.failed.Keys + s.processing.Keys
  }

  /** Startup recovery, and picking the next pending item. */
  function Restore(s: State, w: WrkEvent): (r: Step)
    ensures r.To? ==> Framed(s, r.value) && r.value.stored == s.stored
  {
    match s.wrk
    case Down => (
      match w
      case Start(order) => if Enumerates(order, s.processing.Keys) then To(s.(wrk := Recovering(order))) else Blocked
      case StartBlind => To(s.(wrk := Ready))
      case _ => Blocked)
    case Recovering(todo) => (
      match w
      case Recover(ok) =>
        if todo == [] then Blocked
        else
          To(s.(pending := if ok then Received(s.pending, s.processing, todo[0]) else s.pending,
                processing := if ok then s.processing - {todo[0]} else s.processing,
                wrk := Recovering(todo[1..])))
      case Recovered => if todo == [] then To(s.(wrk := Ready)) else Blocked
      case _ => Blocked)
    case Ready => (
      match w
      case Pick(name) => if IsNext(name, s.pending) then To(s.(wrk := Picked(name))) else Blocked
      case _ => Blocked)
    case _ => Blocked
  }

  /** The claim by rename. */
  function TryClaim(s: State, name: string, w: WrkEvent): (r: Step)
    ensures r.To? ==> Framed(s, r.value) && r.value.stored == s.stored && r.value.posted == s.posted
  {
    match w
    case Claim(ok) =>
      if ok && name !in s.pending then Blocked
      else
        To(s.(processing := if ok then Received(s.processing, s.pending, name) else s.processing,
              pending := if ok then s.pending - {name} else s.pending,
              wrk := if ok then Claimed(name) else Ready))
    case _ => Blocked
  }

  /** Reading and storing the claimed item; an unreadable item counts as rejected. */
  function TryStore(s: State, name: string, w: WrkEvent): (r: Step)
    ensures r.To? ==> w.Store? && Framed(s, r.value) && r.value.posted == s.posted
    ensures r.To? ==> r.value.pending == s.pending && r.value.processing == s.processing && r.value.failed == s.failed
    ensures r.To? ==>
              if w.outcome.Kept? then r.value.wrk.Stored? && r.value.wrk.name == name
              else r.value.wrk == (if w.outcome.Rejected? then Failing(name) else Retaining(name)) &&
                   r.value.stored == s.stored
    ensures r.To? ==> forall n | n != name :: StoresOf(r.value, n) == StoresOf(s, n)
  {
    if !w.Store? then Blocked
    else if w.outcome.Unavailable? then To(s.(wrk := Retaining(name)))
    else if w.outcome.Rejected? then To(s.(wrk := Failing(name)))
    else if name in s.processing then To(Recorded(s, name, s.processing[name]))
    else Blocked
  }

  /** A successful store: its bytes join those already stored under the name. */
  function Recorded(s: State, name: string, bytes: Bytes): (t: State)
    ensures StoresOf(t, name) == StoresOf(s, name) + [bytes]
    ensures forall n | n != name :: StoresOf(t, n) == StoresOf(s, n)
  {
    s.(stored := s.stored[name := StoresOf(s, name) + [bytes]], wrk := Stored(name, bytes))
  }

  /** What happens to the item once the outcome of storing it is known. */
  function Finish(c: Config, s: State, w: WrkEvent): (r: Step)
    ensures r.To? ==> Framed(s, r.value) && r.value.stored == s.stored
  {
    match s.wrk
    case Retaining(name) => (
      match w
      case PutBack(ok) =>
        To(s.(pending := if ok then Received(s.pending, s.processing, name) else s.pending,
              processing := if ok then s.processing - {name} else s.processing,
              wrk := Ready))
      case _ => Blocked)
    case Failing(name) => (
      match w
      case SetAside(ok) =>
        To(s.(failed := if ok then Received(s.failed, s.processing, name) else s.failed,
              processing := if ok then s.processing - {name} else s.processing,
              wrk := Ready))
      case _ => Blocked)
    case Stored(name, b) => (
      match w
      case Remove(ok) =>
        To(s.(processing := if ok then s.processing - {name} else s.processing, wrk := Posting(name, b)))
      case _ => Blocked)
    case Posting(name, b) => (
      match w
      case Post =>
        To(s.(posted := if c.hasHandler then s.posted[name := PostsOf(s, name) + 1] else s.posted, wrk := Ready))
      case _ => Blocked)
    case _ => Blocked
  }

  function NextWrk(c: Config, s: State, w: WrkEvent): Step {
    if s.wrk.Down? || s.wrk.Recovering? || s.wrk.Ready? then Restore(s, w)
    else if s.wrk.Picked? then TryClaim(s, s.wrk.name, w)
    else if s.wrk.Claimed? then TryStore(s, s.wrk.name, w)
    else Finish(c, s, w)
  }

  function Next(c: Config, s: State, ev: Event): Step {
    match ev
    case Enq(e) => NextEnq(c, s, e)
    case Wrk(w) => NextWrk(c, s, w)
    case Crash => To(s.(enq := Idle, wrk := Down, restarts := s.restarts + 1))
  }

  function Run(c: Config, s: State, evs: seq<Event>): Step {
    if evs == [] then To(s)
    else
      match Run(c, s, evs[..|evs| - 1])
      case Blocked => Blocked
      case To(t) => Next(c, t, evs[|evs| - 1])
  }

  // ---------------------------------------------------------------- safety

  /** Everything the machine keeps true of one name. */
  ghost predicate Placed(s: State, n: string) {
    && !(n in s.pending && n in s.processing) && !(n in s.pending && n in s.failed)
    && !(n in s.processing && n in s.failed)
    && (n in s.pending ==> n in s.published && s.published[n] == s.pending[n])
    && (n in s.processing ==> n in s.published && s.published[n] == s.processing[n])
    && (n in s.failed ==> n in s.published && s.published[n] == s.failed[n])
    && (n in s.published <==> n in s.epoch)
    && (n in s.published ==> n in s.pending || n in s.processing || n in s.failed || StoresOf(s, n) != [])
    && (StoresOf(s, n) != [] ==> n in s.published)
    && (forall i | 0 <= i < |StoresOf(s, n)| :: StoresOf(s, n)[i] == s.published[n])
  }

  ghost predicate AcceptedItem(s: State, n: string) {
    n in s.accepted ==>
      n in s.published && n in s.epoch && s.accepted[n] == Receipt(s.published[n], s.epoch[n])
  }

  /** Items that may still be stored before the next restart. */
  ghost predicate Storable(s: State, n: string) {
    n in s.pending || s.wrk == Claimed(n) || s.wrk == Retaining(n) || s.wrk.Down? || s.wrk.Recovering?
  }

  ghost predicate Counted(c: Config, s: State, n: string) {
    && (n in s.epoch ==>
          s.epoch[n] <= s.restarts &&
          |StoresOf(s, n)| <= s.restarts - s.epoch[n] + (if Storable(s, n) then 0 else 1))
    && PostsOf(s, n) + InFlight(s, n) <= |StoresOf(s, n)|
    && (s.restarts == 0 && c.hasHandler ==> PostsOf(s, n) + InFlight(s, n) == |StoresOf(s, n)|)
  }

  /** One while a success for the name has been recorded but not yet posted. */
  ghost function InFlight(s: State, n: string): nat {
    if (s.wrk.Stored? || s.wrk.Posting?) && s.wrk.name == n then 1 else 0
  }

  ghost predicate ItemInv(c: Config, s: State, n: string) {
    Placed(s, n) && AcceptedItem(s, n) && Counted(c, s, n)
  }

  /** What the worker's program counter promises about the item it works on. */
  ghost predicate WorkerHolds(s: State) {
    match s.wrk
    case Picked(n) => n in s.pending
    case Claimed(n) => n in s.processing
    case Retaining(n) => n in s.processing
    case Failing(n) => n in s.processing
    case Stored(n, b) => n in s.processing && s.processing[n] == b && b in StoresOf(s, n)
    case Posting(n, b) => StoresOf(s, n) != [] && b in StoresOf(s, n)
    case _ => true
  }

  /** What Enqueue's program counter promises about the file it is writing. */
  ghost predicate EnqueueHolds(s: State) {
    match s.enq
    case Walking(_, _, names, next, _, _) => next <= |names|
    case Writing(n, line, raw, stage) =>
      && stage <= 2 && n in s.tmp
      && n !in s.pending && n !in s.processing && n !in s.failed && n !in s.published && n !in s.accepted
      && s.tmp[n] == (if stage == 0 then "" else if stage == 1 then line else line + raw)
    case Returning(n, b) =>
      n in s.published && s.published[n] == b && n in s.epoch && s.epoch[n] == s.restarts && n !in s.accepted
    case _ => true
  }

  ghost predicate Inv(c: Config, s: State) {
    && (forall n :: ItemInv(c, s, n))
    && WorkerHolds(s) && EnqueueHolds(s)
  }

  /** A spool as a starting process finds it: any files, nothing running. */
  ghost predicate Init(s: State) {
    && s.enq.Idle? && s.wrk.Down? && s.restarts == 0
    && s.pending.Keys !! s.processing.Keys && s.pending.Keys !! s.failed.Keys && s.processing.Keys !! s.failed.Keys
    && s.published == s.pending + s.processing + s.failed
    && s.epoch == (map n | n in s.published :: 0)
    && s.accepted == map[] && s.stored == map[] && s.posted == map[]
  }

  /** Any three directories with different names will do, beside any temporary files. */
  lemma AnySpoolIsInit(tmp: map<string, Bytes>, pending: map<string, Bytes>, processing: map<string, Bytes>,
                       failed: map<string, Bytes>)
    requires forall n | n in pending :: n !in processing && n !in failed
    requires forall n | n in processing :: n !in failed
    ensures var all := pending + processing + failed;
            Init(State(tmp, pending, processing, failed, Idle, Down, all, map n | n in all :: 0,
                       map[], map[], map[], 0))
  {
  }

  /** Every step that depends on the file system can fail as well. */
  lemma EveryStepCanFail(c: Config, s: State, partial: Bytes)
    ensures s.wrk.Down? ==> Next(c, s, Wrk(StartBlind)) == To(s.(wrk := Ready))
    ensures s.wrk.Recovering? && s.wrk.todo != [] ==>
              Next(c, s, Wrk(Recover(false))) == To(s.(wrk := Recovering(s.wrk.todo[1..])))
    ensures s.wrk.Picked? ==> Next(c, s, Wrk(Claim(false))) == To(s.(wrk := Ready))
    ensures s.wrk.Claimed? ==> Next(c, s, Wrk(Store(Unavailable))) == To(s.(wrk := Retaining(s.wrk.name)))
    ensures s.wrk.Claimed? ==> Next(c, s, Wrk(Store(Rejected))) == To(s.(wrk := Failing(s.wrk.name)))
    ensures s.wrk.Retaining? ==> Next(c, s, Wrk(PutBack(false))) == To(s.(wrk := Ready))
    ensures s.wrk.Failing? ==> Next(c, s, Wrk(SetAside(false))) == To(s.(wrk := Ready))
    ensures s.wrk.Stored? ==> Next(c, s, Wrk(Remove(false))) == To(s.(wrk := Posting(s.wrk.name, s.wrk.bytes)))
    ensures s.enq.Locked? || s.enq.Walking? ==> Next(c, s, Enq(WalkFails)) == To(s.(enq := Idle))
    ensures s.enq.Admitted? ==> Next(c, s, Enq(CreateFails)) == To(s.(enq := Idle))
    ensures s.enq.Writing? ==>
              var name := s.enq.name;
              Next(c, s, Enq(AppendFails(partial))) == To(s.(tmp := s.tmp[name := partial], enq := Cleanup(name)))
    ensures s.enq.Writing? && s.enq.stage == 2 ==>
              Next(c, s, Enq(PublishFails)) == To(s.(enq := Cleanup(s.enq.name)))
    ensures s.enq.Cleanup? ==> Next(c, s, Enq(RemoveTmp(false))) == To(s.(enq := Idle))
  {
  }

  /** A crash can come at any time. It stops both sides and leaves every file and all
      history as they are. */
  lemma CrashKeepsFiles(c: Config, s: State)
    ensures Next(c, s, Crash).To?
    ensures var t := Next(c, s, Crash).value;
            && t.tmp == s.tmp && t.pending == s.pending && t.processing == s.processing && t.failed == s.failed
            && t.published == s.published && t.accepted == s.accepted && t.stored == s.stored && t.posted == s.posted
            && t.enq.Idle? && t.wrk.Down? && t.restarts == s.restarts + 1
  {
  }

  lemma InitInv(c: Config, s: State)
    requires Init(s)
    ensures Inv(c, s)
  {
  }

  lemma MeasureKeeps(c: Config, s: State, e: EnqEvent)
    requires IsMeasuring(s.enq) && EnqueueHolds(s) && Measure(c, s, e).Some?
    ensures EnqueueHolds(s.(enq := Measure(c, s, e).value))
  {
  }

  lemma PublishKeepsItem(c: Config, s: State, n: string)
    requires ItemInv(c, s, n) && EnqueueHolds(s) && Write(s, Publish).To?
    ensures ItemInv(c, Write(s, Publish).value, n)
  {
    var t := Write(s, Publish).value;
    assert StoresOf(t, n) == StoresOf(s, n) && PostsOf(t, n) == PostsOf(s, n);
  }

  lemma ReturnKeepsItem(c: Config, s: State, n: string)
    requires ItemInv(c, s, n) && EnqueueHolds(s) && Write(s, Return).To?
    ensures ItemInv(c, Write(s, Return).value, n)
  {
  }

  lemma WriteKeepsItem(c: Config, s: State, e: EnqEvent, n: string)
    requires ItemInv(c, s, n) && EnqueueHolds(s) && Write(s, e).To?
    ensures ItemInv(c, Write(s, e).value, n)
  {
    if e.Publish? {
      PublishKeepsItem(c, s, n);
    } else if e.Return? {
      ReturnKeepsItem(c, s, n);
    } else {
      var t := Write(s, e).value;
      assert StoresOf(t, n) == StoresOf(s, n) && PostsOf(t, n) == PostsOf(s, n) && InFlight(t, n) == InFlight(s, n);
    }
  }

  lemma WriteKeepsWorker(s: State, e: EnqEvent)
    requires WorkerHolds(s) && Write(s, e).To?
    ensures WorkerHolds(Write(s, e).value)
  {
    var t := Write(s, e).value;
    assert forall n :: StoresOf(t, n) == StoresOf(s, n);
  }

  lemma CreateKeepsEnqueue(s: State, name: string)
    requires EnqueueHolds(s) && Write(s, Create(name)).To? && Fresh(s, name) && AcceptedItem(s, name)
    ensures EnqueueHolds(Write(s, Create(name)).value)
  {
  }

  lemma AppendKeepsEnqueue(s: State)
    requires EnqueueHolds(s) && Write(s, Append).To?
    ensures EnqueueHolds(Write(s, Append).value)
  {
  }

  lemma WriteKeepsEnqueue(s: State, e: EnqEvent)
    requires EnqueueHolds(s) && Write(s, e).To? && NamesFresh(s, Enq(e))
    requires e.Create? ==> AcceptedItem(s, e.name)
    ensures EnqueueHolds(Write(s, e).value)
  {
    if e.Create? {
      CreateKeepsEnqueue(s, e.name);
    } else if e.Append? {
      AppendKeepsEnqueue(s);
    } else if e.Publish? {
      PublishKeepsEnqueue(s);
    }
  }

  lemma PublishKeepsEnqueue(s: State)
    requires EnqueueHolds(s) && Write(s, Publish).To?
    ensures EnqueueHolds(Write(s, Publish).value)
  {
  }

  lemma RecoverKeepsItem(c: Config, s: State, ok: bool, n: string)
    requires s.wrk.Recovering? && s.wrk.todo != [] && ItemInv(c, s, n)
    ensures ItemInv(c, Restore(s, Recover(ok)).value, n)
  {
    var t := Restore(s, Recover(ok)).value;
    assert StoresOf(t, n) == StoresOf(s, n) && PostsOf(t, n) == PostsOf(s, n);
    assert Storable(s, n) && Storable(t, n);
  }

  lemma RestoreKeepsItem(c: Config, s: State, w: WrkEvent, n: string)
    requires ItemInv(c, s, n) && Restore(s, w).To?
    ensures ItemInv(c, Restore(s, w).value, n)
  {
    if w.Recover? {
      RecoverKeepsItem(c, s, w.ok, n);
    } else {
      var t := Restore(s, w).value;
      assert t == s.(wrk := t.wrk);
      assert StoresOf(t, n) == StoresOf(s, n) && PostsOf(t, n) == PostsOf(s, n);
    }
  }

  lemma ClaimKeepsItem(c: Config, s: State, w: WrkEvent, n: string)
    requires s.wrk.Picked? && ItemInv(c, s, n) && TryClaim(s, s.wrk.name, w).To?
    ensures ItemInv(c, TryClaim(s, s.wrk.name, w).value, n)
  {
    assert StoresOf(TryClaim(s, s.wrk.name, w).value, n) == StoresOf(s, n);
  }

  lemma StoreKeepsItem(c: Config, s: State, n: string)
    requires s.wrk.Claimed? && ItemInv(c, s, n) && WorkerHolds(s)
    ensures ItemInv(c, Recorded(s, s.wrk.name, s.processing[s.wrk.name]), n)
  {
  }

  lemma DeclineKeepsItem(c: Config, s: State, pc: WrkPc, n: string)
    requires s.wrk.Claimed? && ItemInv(c, s, n)
    requires pc == Retaining(s.wrk.name) || pc == Failing(s.wrk.name)
    ensures ItemInv(c, s.(wrk := pc), n)
  {
    assert StoresOf(s.(wrk := pc), n) == StoresOf(s, n) && PostsOf(s.(wrk := pc), n) == PostsOf(s, n);
  }

  lemma PutBackKeepsItem(c: Config, s: State, ok: bool, n: string)
    requires s.wrk.Retaining? && ItemInv(c, s, n)
    ensures ItemInv(c, Finish(c, s, PutBack(ok)).value, n)
  {
    assert StoresOf(Finish(c, s, PutBack(ok)).value, n) == StoresOf(s, n);
  }

  lemma SetAsideKeepsItem(c: Config, s: State, ok: bool, n: string)
    requires s.wrk.Failing? && ItemInv(c, s, n)
    ensures ItemInv(c, Finish(c, s, SetAside(ok)).value, n)
  {
    assert StoresOf(Finish(c, s, SetAside(ok)).value, n) == StoresOf(s, n);
  }

  lemma FinishKeepsItem(c: Config, s: State, w: WrkEvent, n: string)
    requires ItemInv(c, s, n) && WorkerHolds(s) && Finish(c, s, w).To?
    ensures ItemInv(c, Finish(c, s, w).value, n)
  {
    if w.PutBack? {
      PutBackKeepsItem(c, s, w.ok, n);
    } else if w.SetAside? {
      SetAsideKeepsItem(c, s, w.ok, n);
    } else {
      assert StoresOf(Finish(c, s, w).value, n) == StoresOf(s, n);
    }
  }

  ghost predicate Holds(s: State) {
    WorkerHolds(s) && EnqueueHolds(s)
  }

  /** The worker cannot disturb Enqueue's file. */
  lemma FramedKeepsEnqueue(s: State, t: State)
    requires EnqueueHolds(s) && Framed(s, t)
    ensures EnqueueHolds(t)
  {
  }

  lemma RestoreKeepsWorker(s: State, w: WrkEvent)
    requires WorkerHolds(s) && Restore(s, w).To?
    ensures WorkerHolds(Restore(s, w).value)
  {
    hide Received, Before, StoresOf;
  }

  lemma ClaimKeepsWorker(s: State, w: WrkEvent)
    requires WorkerHolds(s) && s.wrk.Picked? && TryClaim(s, s.wrk.name, w).To?
    ensures WorkerHolds(TryClaim(s, s.wrk.name, w).value)
  {
  }

  lemma RecordedKeepsWorker(s: State)
    requires WorkerHolds(s) && s.wrk.Claimed?
    ensures WorkerHolds(Recorded(s, s.wrk.name, s.processing[s.wrk.name]))
  {
    var added := StoresOf(s, s.wrk.name) + [s.processing[s.wrk.name]];
    assert added[|added| - 1] == s.processing[s.wrk.name];
  }

  lemma StoreKeepsWorker(s: State, w: WrkEvent)
    requires WorkerHolds(s) && s.wrk.Claimed? && TryStore(s, s.wrk.name, w).To?
    ensures WorkerHolds(TryStore(s, s.wrk.name, w).value)
  {
    RecordedKeepsWorker(s);
  }

  lemma FinishKeepsWorker(c: Config, s: State, w: WrkEvent)
    requires WorkerHolds(s) && Finish(c, s, w).To?
    ensures WorkerHolds(Finish(c, s, w).value)
  {
  }

  /** The one thing asked of the name generator. */
  predicate NamesFresh(s: State, ev: Event) {
    ev.Enq? && ev.e.Create? ==> Fresh(s, ev.e.name)
  }

  lemma StepKeepsItem(c: Config, s: State, ev: Event, n: string)
    requires ItemInv(c, s, n) && WorkerHolds(s) && EnqueueHolds(s) && Next(c, s, ev).To?
    ensures ItemInv(c, Next(c, s, ev).value, n)
  {
    hide Restore, TryClaim, Finish, Write;
    match ev
    case Enq(e) => if !IsMeasuring(s.enq) { WriteKeepsItem(c, s, e, n); }
    case Wrk(w) =>
      if s.wrk.Picked? { ClaimKeepsItem(c, s, w, n); }
      else if s.wrk.Claimed? {
        StoreKeepsItem(c, s, n);
        DeclineKeepsItem(c, s, Retaining(s.wrk.name), n);
        DeclineKeepsItem(c, s, Failing(s.wrk.name), n);
      }
      else if s.wrk.Down? || s.wrk.Recovering? || s.wrk.Ready? { RestoreKeepsItem(c, s, w, n); }
      else { FinishKeepsItem(c, s, w, n); }
    case Crash =>
  }

  lemma StepKeepsHolds(c: Config, s: State, ev: Event)
    requires ev.Enq? && ev.e.Create? ==> AcceptedItem(s, ev.e.name)
    requires Holds(s) && Next(c, s, ev).To? && NamesFresh(s, ev)
    ensures Holds(Next(c, s, ev).value)
  {
    match ev
    case Enq(e) =>
      if IsMeasuring(s.enq) {
        MeasureKeeps(c, s, e);
      } else {
        WriteKeepsEnqueue(s, e);
        WriteKeepsWorker(s, e);
      }
    case Wrk(w) =>
      FramedKeepsEnqueue(s, NextWrk(c, s, w).value);
      WorkerStepKeepsWorker(c, s, w);
    case Crash =>
  }

  lemma WorkerStepKeepsWorker(c: Config, s: State, w: WrkEvent)
    requires WorkerHolds(s) && NextWrk(c, s, w).To?
    ensures WorkerHolds(NextWrk(c, s, w).value)
  {
    if s.wrk.Picked? { ClaimKeepsWorker(s, w); }
    else if s.wrk.Claimed? { StoreKeepsWorker(s, w); }
    else if s.wrk.Down? || s.wrk.Recovering? || s.wrk.Ready? { RestoreKeepsWorker(s, w); }
    else { FinishKeepsWorker(c, s, w); }
  }

  lemma StepKeepsInv(c: Config, s: State, ev: Event)
    requires Inv(c, s) && Next(c, s, ev).To? && NamesFresh(s, ev)
    ensures Inv(c, Next(c, s, ev).value)
  {
    var t := Next(c, s, ev).value;
    forall n ensures ItemInv(c, t, n) { StepKeepsItem(c, s, ev, n); }
    if ev.Enq? && ev.e.Create? { assert ItemInv(c, s, ev.e.name); }
    StepKeepsHolds(c, s, ev);
  }

  lemma ReceiptKept(c: Config, s: State, ev: Event, n: string)
    requires EnqueueHolds(s) && Next(c, s, ev).To? && n in s.accepted
    ensures n in Next(c, s, ev).value.accepted && Next(c, s, ev).value.accepted[n] == s.accepted[n]
  {
  }

  /** A run in which every name created is new. */
  ghost predicate FreshRun(c: Config, s: State, evs: seq<Event>) {
    evs == [] ||
    var before := Run(c, s, evs[..|evs| - 1]);
    FreshRun(c, s, evs[..|evs| - 1]) && before.To? && NamesFresh(before.value, evs[|evs| - 1])
  }

  lemma RunExtends(c: Config, s: State, evs: seq<Event>, t: State, ev: Event)
    requires Run(c, s, evs) == To(t)
    ensures Run(c, s, evs + [ev]) == Next(c, t, ev)
    ensures FreshRun(c, s, evs) && NamesFresh(t, ev) ==> FreshRun(c, s, evs + [ev])
  {
    var longer := evs + [ev];
    assert longer[..|longer| - 1] == evs && longer[|longer| - 1] == ev;
  }

  lemma {:induction false} RunKeepsInv(c: Config, s: State, evs: seq<Event>)
    requires Init(s) && Run(c, s, evs).To? && FreshRun(c, s, evs)
    ensures Inv(c, Run(c, s, evs).value)
  {
    if evs == [] {
      InitInv(c, s);
    } else {
      RunKeepsInv(c, s, evs[..|evs| - 1]);
      StepKeepsInv(c, Run(c, s, evs[..|evs| - 1]).value, evs[|evs| - 1]);
    }
  }

  /** A receipt, once given, stands. */
  lemma {:induction false} ReceiptsStand(c: Config, s: State, first: seq<Event>, then_: seq<Event>, n: string)
    requires Init(s) && Run(c, s, first + then_).To? && FreshRun(c, s, first + then_)
    ensures Run(c, s, first).To?
    ensures var t, u := Run(c, s, first).value, Run(c, s, first + then_).value;
            n in t.accepted ==> n in u.accepted && u.accepted[n] == t.accepted[n]
  {
    if then_ == [] {
      assert first + then_ == first;
    } else {
      var all, before := first + then_, then_[..|then_| - 1];
      assert all[..|all| - 1] == first + before;
      ReceiptsStand(c, s, first, before, n);
      RunKeepsInv(c, s, first + before);
      var t := Run(c, s, first + before).value;
      if n in t.accepted { ReceiptKept(c, t, all[|all| - 1], n); }
    }
  }

  /** No accepted message is lost: whatever crashes, failed renames and failed
      removes the run contains, the message is in exactly one directory with the
      bytes Enqueue promised, or in none and was stored with those bytes. */
  lemma NoAcceptedMessageIsLost(c: Config, s: State, evs: seq<Event>, n: string)
    requires Init(s) && Run(c, s, evs).To? && FreshRun(c, s, evs)
    requires n in Run(c, s, evs).value.accepted
    ensures var t := Run(c, s, evs).value;
            && !(n in t.pending && n in t.processing) && !(n in t.pending && n in t.failed)
            && !(n in t.processing && n in t.failed)
            && (n in t.pending ==> t.pending[n] == t.accepted[n].bytes)
            && (n in t.processing ==> t.processing[n] == t.accepted[n].bytes)
            && (n in t.failed ==> t.failed[n] == t.accepted[n].bytes)
            && (n !in t.pending && n !in t.processing && n !in t.failed ==>
                  n in t.stored && t.accepted[n].bytes in t.stored[n])
  {
    RunKeepsInv(c, s, evs);
    var t := Run(c, s, evs).value;
    assert ItemInv(c, t, n);
    if StoresOf(t, n) != [] { assert StoresOf(t, n)[0] == t.published[n]; }
  }

  /** An accepted message is stored at most once more than the process has
      restarted since, always with its own bytes. */
  lemma DuplicationIsBounded(c: Config, s: State, evs: seq<Event>, n: string)
    requires Init(s) && Run(c, s, evs).To? && FreshRun(c, s, evs)
    requires n in Run(c, s, evs).value.accepted
    ensures var t := Run(c, s, evs).value;
            && t.accepted[n].restarts <= t.restarts
            && |StoresOf(t, n)| <= 1 + t.restarts - t.accepted[n].restarts
            && forall b | b in StoresOf(t, n) :: b == t.accepted[n].bytes
  {
    RunKeepsInv(c, s, evs);
    assert ItemInv(c, Run(c, s, evs).value, n);
  }

  /** postStore runs at most once per successful store; in a run without a
      crash and with a handler, exactly once by the time the worker moves on. */
  lemma PostsFollowStores(c: Config, s: State, evs: seq<Event>, n: string)
    requires Init(s) && Run(c, s, evs).To? && FreshRun(c, s, evs)
    ensures var t := Run(c, s, evs).value;
            && PostsOf(t, n) <= |StoresOf(t, n)|
            && (c.hasHandler && t.restarts == 0 && !t.wrk.Stored? && !t.wrk.Posting? ==>
                  PostsOf(t, n) == |StoresOf(t, n)|)
  {
    RunKeepsInv(c, s, evs);
    assert ItemInv(c, Run(c, s, evs).value, n);
  }
}
