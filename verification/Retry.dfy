/** The retry loop of one classification job and the record it leaves. */
module Retry {
  import opened Int64
  import opened Text
  import opened Sidecars
  import opened Detections

  /** How one attempt ends: frame extraction, then the provider. */
  datatype Outcome =
    | ToolMissing(message: string)
    | Failure(message: string)
    | Classified(reported: seq<Detection>, thumbnail: string, raw: string)

  /** What the loop does, in order. Every sidecar write is attempted whether or
      not an earlier one succeeded, and the index is told whether or not it did. */
  datatype Action =
    | WriteSidecar(sidecar: Sidecar)
    | IndexSidecar(sidecar: Sidecar)
    | Notify(sidecar: Sidecar)
    | Sleep(nanoseconds: int)

  datatype End = Succeeded | Skipped | GaveUp | Cancelled

  /** The job and its surroundings. The functions answer for each attempt. */
  datatype Job = Job(
    base: Sidecar,
    retryMax: nat,
    threshold: real,
    storeRaw: bool,
    notify: bool,
    outcome: nat -> Outcome,
    publishError: Option<string>,
    cancelledBefore: nat -> bool,
    cancelledAsleep: nat -> bool)

  /** The default backoff: attempt squared, in seconds, in int64 arithmetic. */
  function Backoff(attempt: nat): int {
    Wrap64(Wrap64(attempt * attempt) * 1000000000)
  }

  function Pending(base: Sidecar, attempt: nat): Sidecar {
    base.(state := PENDING, attempts := attempt)
  }

  function Record(s: Sidecar): seq<Action> {
    [WriteSidecar(s), IndexSidecar(s)]
  }

  /** Everything done before attempt `next` when all earlier ones failed. */
  function FailedSoFar(base: Sidecar, next: nat): seq<Action>
    requires next >= 1
  {
    if next == 1 then Record(Pending(base, 0))
    else FailedSoFar(base, next - 1) + (Record(Pending(base, next - 1)) + [Sleep(Backoff(next - 1))])
  }

  /** The record with everything of a job that ended at attempt `last`. */
  predicate IsSuccess(job: Job, last: nat, s: Sidecar) {
    && s.state == SUCCESS && s.attempts == last && s.lastError == ""
    && job.outcome(last).Classified?
    && s.thumbnailPath == job.outcome(last).thumbnail
    && s.rawResponse == (if job.storeRaw then job.outcome(last).raw else job.base.rawResponse)
    && s.mqttPublished == job.base.mqttPublished && s.mqttLastError == job.base.mqttLastError
  }

  ghost predicate DetectionsOf(job: Job, last: nat, s: Sidecar)
    requires job.outcome(last).Classified?
  {
    && multiset(s.detections) == multiset(Filtered(job.outcome(last).reported, job.threshold))
    && Normal(s.detections, job.threshold)
    && (s.hasPerson <==> Has(s.detections, "person"))
    && (s.hasAnimal <==> Has(s.detections, "animal"))
    && (s.hasVehicle <==> Has(s.detections, "vehicle"))
  }

  predicate AllFailedBefore(job: Job, attempt: nat) {
    forall i | 1 <= i < attempt :: job.outcome(i).Failure?
  }

  /** What a failed, a skipped and a successful attempt write after the pending record. */
  function Tail(job: Job, last: nat, s: Sidecar): seq<Action> {
    Record(Pending(job.base, last)) + Record(s) +
    (if job.notify && s.state == SUCCESS then [Notify(s)] + Record(Notified(job, s)) else [])
  }

  /** The success record with the outcome of the notification. */
  function Notified(job: Job, s: Sidecar): Sidecar {
    s.(mqttPublished := job.publishError.None?, mqttLastError := job.publishError.GetOr(""))
  }

  ghost predicate IsRecord(job: Job, end: End, last: nat, s: Sidecar) {
    match end
    case Succeeded => IsSuccess(job, last, s) && DetectionsOf(job, last, s)
    case Skipped =>
      job.outcome(last).ToolMissing? &&
      s == job.base.(state := SKIPPED, attempts := last, lastError := job.outcome(last).message)
    case GaveUp =>
      last == job.retryMax + 1 && job.outcome(last).Failure? &&
      s == job.base.(state := FAILED, attempts := last, lastError := job.outcome(last).message)
    case Cancelled => false
  }

  /** A job's whole record, by the way it ended. `last` is the last attempt
      begun, `s` the terminal sidecar. */
  ghost predicate Complete(job: Job, log: seq<Action>, end: End, last: nat, s: Sidecar) {
    && 1 <= last <= job.retryMax + 1 && AllFailedBefore(job, last)
    && if end.Cancelled?
       then log == FailedSoFar(job.base, last) ||
            log == FailedSoFar(job.base, last) + Record(Pending(job.base, last))
       else IsRecord(job, end, last, s) && log == FailedSoFar(job.base, last) + Tail(job, last, s)
  }

  method ProcessWithRetry(job: Job) returns (log: seq<Action>, end: End, last: nat, s: Sidecar)
    ensures Complete(job, log, end, last, s)
    ensures forall i | 1 <= i < last :: !job.cancelledBefore(i) && !job.cancelledAsleep(i)
    ensures end.Cancelled? <==>
            || job.cancelledBefore(last)
            || (last <= job.retryMax && job.outcome(last).Failure? && job.cancelledAsleep(last))
    ensures end.Cancelled? ==>
              log == FailedSoFar(job.base, last) +
                     if job.cancelledBefore(last) then [] else Record(Pending(job.base, last))
  {
    log := Record(Pending(job.base, 0));
    s := job.base;
    var attempts, attempt := job.retryMax + 1, 1;
    while attempt < attempts
      invariant 1 <= attempt <= attempts
      invariant AllFailedBefore(job, attempt) && log == FailedSoFar(job.base, attempt)
      invariant forall i | 1 <= i < attempt :: !job.cancelledBefore(i) && !job.cancelledAsleep(i)
    {
      last := attempt;
      if job.cancelledBefore(attempt) { return log, Cancelled, last, s; }
      if !job.outcome(attempt).Failure? {
        end, log, s := Settle(job, attempt, log);
        return log, end, last, s;
      }
      log := log + Record(Pending(job.base, attempt));
      if job.cancelledAsleep(attempt) { return log, Cancelled, last, s; }
      log := log + [Sleep(Backoff(attempt))];
      assert log == FailedSoFar(job.base, attempt + 1);
      attempt := attempt + 1;
    }
    // The last attempt: no sleep follows it.
    last := attempts;
    if job.cancelledBefore(attempts) { return log, Cancelled, last, s; }
    end, log, s := Settle(job, attempts, log);
  }

  /** An attempt that ends the job: its pending record and the terminal ones. */
  method Settle(job: Job, attempt: nat, before: seq<Action>) returns (end: End, log: seq<Action>, s: Sidecar)
    requires job.outcome(attempt).Failure? ==> attempt == job.retryMax + 1
    ensures !end.Cancelled? && IsRecord(job, end, attempt, s) && log == before + Tail(job, attempt, s)
  {
    log := before + Record(Pending(job.base, attempt));
    match job.outcome(attempt)
    case ToolMissing(message) =>
      end, s := Skipped, job.base.(state := SKIPPED, attempts := attempt, lastError := message);
      log := log + Record(s);
    case Failure(message) =>
      end, s := GaveUp, job.base.(state := FAILED, attempts := attempt, lastError := message);
      log := log + Record(s);
    case Classified(_, _, _) =>
      end := Succeeded;
      s := Success(job, attempt);
      log := log + Record(s);
      if job.notify {
        log := log + ([Notify(s)] + Record(Notified(job, s)));
      }
  }

  /** The success sidecar of an attempt. */
  method Success(job: Job, attempt: nat) returns (s: Sidecar)
    requires job.outcome(attempt).Classified?
    ensures IsSuccess(job, attempt, s) && DetectionsOf(job, attempt, s)
  {
    var o := job.outcome(attempt);
    var normalized := NormalizeDetections(o.reported, job.threshold);
    var person := HasCategory(normalized, "person");
    var animal := HasCategory(normalized, "animal");
    var vehicle := HasCategory(normalized, "vehicle");
    s := job.base.(state := SUCCESS, attempts := attempt, lastError := "", detections := normalized,
                   hasPerson := person, hasAnimal := animal, hasVehicle := vehicle, thumbnailPath := o.thumbnail,
                   rawResponse := if job.storeRaw then o.raw else job.base.rawResponse);
  }

  // ------------------------------------------------- what the record says

  function Writes(log: seq<Action>): seq<Sidecar> {
    if log == [] then []
    else Writes(log[..|log| - 1]) +
         (if log[|log| - 1].WriteSidecar? then [log[|log| - 1].sidecar] else [])
  }

  function Notifications(log: seq<Action>): nat {
    if log == [] then 0 else Notifications(log[..|log| - 1]) + (if log[|log| - 1].Notify? then 1 else 0)
  }

  /** A wait that is not positive is over at once. */
  function Waited(nanoseconds: int): nat {
    if nanoseconds > 0 then nanoseconds else 0
  }

  function Slept(log: seq<Action>): nat {
    if log == [] then 0
    else Slept(log[..|log| - 1]) + (if log[|log| - 1].Sleep? then Waited(log[|log| - 1].nanoseconds) else 0)
  }

  function Indexed(log: seq<Action>): seq<Sidecar> {
    if log == [] then []
    else Indexed(log[..|log| - 1]) +
         (if log[|log| - 1].IndexSidecar? then [log[|log| - 1].sidecar] else [])
  }

  lemma {:induction false} Concat(a: seq<Action>, b: seq<Action>)
    ensures Writes(a + b) == Writes(a) + Writes(b) && Indexed(a + b) == Indexed(a) + Indexed(b)
    ensures Notifications(a + b) == Notifications(a) + Notifications(b)
    ensures Slept(a + b) == Slept(a) + Slept(b)
  {
    if b == [] {
      assert a + b == a;
    } else {
      assert (a + b)[..|a + b| - 1] == a + b[..|b| - 1];
      Concat(a, b[..|b| - 1]);
    }
  }

  lemma OneAction(a: Action)
    ensures Writes([a]) == (if a.WriteSidecar? then [a.sidecar] else [])
    ensures Indexed([a]) == (if a.IndexSidecar? then [a.sidecar] else [])
    ensures Notifications([a]) == (if a.Notify? then 1 else 0)
    ensures Slept([a]) == (if a.Sleep? then Waited(a.nanoseconds) else 0)
  {
    assert [a][..0] == [];
  }

  lemma RecordReads(s: Sidecar)
    ensures var r := Record(s); Writes(r) == Indexed(r) == [s] && Notifications(r) == Slept(r) == 0
  {
    OneAction(WriteSidecar(s));
    OneAction(IndexSidecar(s));
    Concat([WriteSidecar(s)], [IndexSidecar(s)]);
    assert Record(s) == [WriteSidecar(s)] + [IndexSidecar(s)];
  }

  /** One failed attempt that is not the last. */
  lemma FailedReads(base: Sidecar, n: nat)
    ensures var r := Record(Pending(base, n)) + [Sleep(Backoff(n))];
            && Writes(r) == Indexed(r) == [Pending(base, n)]
            && Notifications(r) == 0 && Slept(r) == Waited(Backoff(n))
  {
    RecordReads(Pending(base, n));
    OneAction(Sleep(Backoff(n)));
    Concat(Record(Pending(base, n)), [Sleep(Backoff(n))]);
  }

  /** Pending 0, pending 1, ..., up to the attempt before the next. */
  lemma {:induction false} FailedSoFarWrites(base: Sidecar, next: nat)
    requires next >= 1
    ensures |Writes(FailedSoFar(base, next))| == next
    ensures forall i | 0 <= i < next :: Writes(FailedSoFar(base, next))[i] == Pending(base, i)
    ensures Indexed(FailedSoFar(base, next)) == Writes(FailedSoFar(base, next))
    ensures Notifications(FailedSoFar(base, next)) == 0
  {
    if next == 1 {
      RecordReads(Pending(base, 0));
    } else {
      FailedSoFarWrites(base, next - 1);
      FailedReads(base, next - 1);
      Concat(FailedSoFar(base, next - 1), Record(Pending(base, next - 1)) + [Sleep(Backoff(next - 1))]);
    }
  }

  lemma SquareMono(a: nat, b: nat)
    requires a <= b
    ensures a * a <= b * b
  {
    assert a * a <= a * b <= b * b;
  }

  lemma WrapFits(x: int)
    ensures Fits(Wrap64(x))
  {
  }

  /** The default backoff is the square of the attempt in seconds up to attempt
      96038, and never again: from the next on the nanoseconds do not fit. */
  lemma BackoffExact(attempt: nat)
    ensures Backoff(attempt) == attempt * attempt * 1000000000 <==> attempt <= 96038
    ensures Backoff(attempt) <= attempt * attempt * 1000000000
  {
    WrapFits(Wrap64(attempt * attempt) * 1000000000);
    if attempt <= 96038 {
      SquareMono(attempt, 96038);
      WrapInRange(attempt * attempt);
      WrapInRange(attempt * attempt * 1000000000);
    } else {
      SquareMono(96039, attempt);
    }
  }

  /** 1 + 4 + 9 + ... + n squared. */
  function Squares(n: nat): nat {
    if n == 0 then 0 else Squares(n - 1) + n * n
  }

  lemma {:induction false} SquaresClosed(n: nat)
    ensures 6 * Squares(n) == n * (n + 1) * (2 * n + 1)
  {
    if n > 0 {
      SquaresClosed(n - 1);
      assert (n - 1) * n * (2 * n - 1) + 6 * (n * n) == n * (n + 1) * (2 * n + 1);
    }
  }

  /** While the backoffs are exact the waits are the squares; then they are less. */
  lemma {:induction false} FailedSoFarSleeps(base: Sidecar, next: nat)
    requires next >= 1
    ensures Slept(FailedSoFar(base, next)) <= Squares(next - 1) * 1000000000
    ensures Slept(FailedSoFar(base, next)) == Squares(next - 1) * 1000000000 <==> next <= 96039
  {
    if next == 1 {
      RecordReads(Pending(base, 0));
    } else {
      var n := next - 1;
      FailedSoFarSleeps(base, n);
      FailedReads(base, n);
      Concat(FailedSoFar(base, n), Record(Pending(base, n)) + [Sleep(Backoff(n))]);
      BackoffExact(n);
      assert Slept(FailedSoFar(base, next)) == Slept(FailedSoFar(base, n)) + Waited(Backoff(n));
      assert Squares(n) == Squares(n - 1) + n * n;
    }
  }

  lemma NotifiedReads(job: Job, s: Sidecar)
    ensures var r := [Notify(s)] + Record(Notified(job, s));
            Writes(r) == Indexed(r) == [Notified(job, s)] && Notifications(r) == 1 && Slept(r) == 0
  {
    OneAction(Notify(s));
    RecordReads(Notified(job, s));
    Concat([Notify(s)], Record(Notified(job, s)));
  }

  lemma TailReads(job: Job, last: nat, s: Sidecar)
    ensures var t, told := Tail(job, last, s), job.notify && s.state == SUCCESS;
            && Writes(t) == Indexed(t)
            && Writes(t) == [Pending(job.base, last), s] + (if told then [Notified(job, s)] else [])
            && Notifications(t) == (if told then 1 else 0) && Slept(t) == 0
  {
    var t, told := Tail(job, last, s), job.notify && s.state == SUCCESS;
    hide Writes, Indexed, Notifications, Slept, Record, Pending, Notified;
    var front := Record(Pending(job.base, last)) + Record(s);
    RecordReads(Pending(job.base, last));
    RecordReads(s);
    Concat(Record(Pending(job.base, last)), Record(s));
    if told {
      NotifiedReads(job, s);
      Concat(front, [Notify(s)] + Record(Notified(job, s)));
      assert [Pending(job.base, last)] + [s] + [Notified(job, s)] == [Pending(job.base, last), s, Notified(job, s)];
    } else {
      assert t == front;
      assert [Pending(job.base, last)] + [s] == [Pending(job.base, last), s];
    }
  }

  /** The attempted sidecar writes of a job that was not cancelled: pending 0 to
      pending k for some k up to retryMax + 1, then the terminal record, which is
      written once more after a notification. A failed record comes only after
      every attempt has failed and carries the last error. */
  lemma UncancelledWrites(job: Job, log: seq<Action>, end: End, last: nat, s: Sidecar)
    requires Complete(job, log, end, last, s) && !end.Cancelled?
    ensures 1 <= last <= job.retryMax + 1 && forall i | 1 <= i < last :: job.outcome(i).Failure?
    ensures |Writes(log)| == last + (if end.Succeeded? && job.notify then 3 else 2)
    ensures var w := Writes(log);
            && (forall i | 0 <= i <= last ::
                  && w[i].state == "pending" && w[i].attempts == i
                  && w[i] == job.base.(state := w[i].state, attempts := w[i].attempts))
            && w[last + 1] == s && s.attempts == last
            && (|w| == last + 3 ==>
                  && w[last + 2] == s.(mqttPublished := w[last + 2].mqttPublished,
                                       mqttLastError := w[last + 2].mqttLastError)
                  && (w[last + 2].mqttPublished <==> job.publishError.None?)
                  && w[last + 2].mqttLastError == (if job.publishError.Some? then job.publishError.value else ""))
    ensures end.Succeeded? ==>
              && s.state == "success" && s.lastError == "" && job.outcome(last).Classified?
              && s.thumbnailPath == job.outcome(last).thumbnail
              && s.rawResponse == (if job.storeRaw then job.outcome(last).raw else job.base.rawResponse)
              && multiset(s.detections) == multiset(Filtered(job.outcome(last).reported, job.threshold))
              && s.mqttPublished == job.base.mqttPublished && s.mqttLastError == job.base.mqttLastError
    ensures end.Skipped? ==>
              && s.state == "skipped" && job.outcome(last).ToolMissing? && s.lastError == job.outcome(last).message
              && s == job.base.(state := s.state, attempts := last, lastError := s.lastError)
    ensures end.GaveUp? ==>
              && s.state == "failed" && last == job.retryMax + 1 && job.outcome(last).Failure?
              && s.lastError == job.outcome(last).message
              && s == job.base.(state := s.state, attempts := last, lastError := s.lastError)
  {
    hide Filtered, Normal;
    FailedSoFarWrites(job.base, last);
    TailReads(job, last, s);
    Concat(FailedSoFar(job.base, last), Tail(job, last, s));
  }

  /** A cancelled job leaves pending records only, the last of them for the attempt
      begun or the one before; nobody is told of it. */
  lemma CancelledWrites(job: Job, log: seq<Action>, last: nat, s: Sidecar)
    requires Complete(job, log, Cancelled, last, s)
    ensures 1 <= last <= job.retryMax + 1 && forall i | 1 <= i < last :: job.outcome(i).Failure?
    ensures last <= |Writes(log)| <= last + 1 && Notifications(log) == 0
    ensures var w := Writes(log);
            forall i | 0 <= i < |w| ::
              && w[i].state == "pending" && w[i].attempts == i
              && w[i] == job.base.(state := w[i].state, attempts := w[i].attempts)
  {
    FailedSoFarWrites(job.base, last);
    RecordReads(Pending(job.base, last));
    Concat(FailedSoFar(job.base, last), Record(Pending(job.base, last)));
  }

  /** The publisher is called at most once, only for notify jobs that succeeded. */
  lemma NotifiedOnce(job: Job, log: seq<Action>, end: End, last: nat, s: Sidecar)
    requires Complete(job, log, end, last, s)
    ensures Notifications(log) == if end.Succeeded? && job.notify then 1 else 0
  {
    FailedSoFarWrites(job.base, last);
    if end.Cancelled? {
      var rest := log[|FailedSoFar(job.base, last)|..];
      assert log == FailedSoFar(job.base, last) + rest;
      Concat(FailedSoFar(job.base, last), rest);
      RecordReads(Pending(job.base, last));
    } else {
      TailReads(job, last, s);
      Concat(FailedSoFar(job.base, last), Tail(job, last, s));
    }
  }

  /** A notification comes right after its own success record was written and indexed. */
  lemma NotifiedAfterWrite(job: Job, log: seq<Action>, end: End, last: nat, s: Sidecar, i: nat)
    requires Complete(job, log, end, last, s) && i < |log| && log[i].Notify?
    ensures i > 1 && log[i] == Notify(s) && log[i - 1] == IndexSidecar(s) && log[i - 2] == WriteSidecar(s)
    ensures s.state == "success"
  {
    var front := FailedSoFar(job.base, last);
    NoNotifyBefore(job.base, last);
    assert forall k | 0 <= k < |front| :: log[k] == front[k] && front[k] in front;
    assert i >= |front|;
  }

  /** The index is told of exactly the records written, in that order. */
  lemma IndexFollowsWrites(job: Job, log: seq<Action>, end: End, last: nat, s: Sidecar)
    requires Complete(job, log, end, last, s)
    ensures Indexed(log) == Writes(log)
  {
    FailedSoFarWrites(job.base, last);
    if end.Cancelled? {
      RecordReads(Pending(job.base, last));
      Concat(FailedSoFar(job.base, last), Record(Pending(job.base, last)));
    } else {
      TailReads(job, last, s);
      Concat(FailedSoFar(job.base, last), Tail(job, last, s));
    }
  }

  lemma {:induction false} NoNotifyBefore(base: Sidecar, next: nat)
    requires next >= 1
    ensures forall a | a in FailedSoFar(base, next) :: !a.Notify?
  {
    if next > 1 { NoNotifyBefore(base, next - 1); }
  }

  ghost predicate FlagsRight(s: Sidecar) {
    && (s.hasPerson <==> Has(s.detections, "person"))
    && (s.hasAnimal <==> Has(s.detections, "animal"))
    && (s.hasVehicle <==> Has(s.detections, "vehicle"))
  }

  /** In every record written, each flag is set exactly when such a detection is listed. */
  lemma FlagsAlwaysRight(job: Job, log: seq<Action>, end: End, last: nat, s: Sidecar, a: Action)
    requires job.base.detections == [] && !job.base.hasPerson && !job.base.hasAnimal && !job.base.hasVehicle
    requires Complete(job, log, end, last, s) && a in log && a.WriteSidecar?
    ensures a.sidecar.hasPerson <==> exists d | d in a.sidecar.detections :: d.category == "person"
    ensures a.sidecar.hasAnimal <==> exists d | d in a.sidecar.detections :: d.category == "animal"
    ensures a.sidecar.hasVehicle <==> exists d | d in a.sidecar.detections :: d.category == "vehicle"
  {
    hide Filtered, Normal;
    BasesAreFlagless(job.base, last, a);
    if !end.Cancelled? && a !in FailedSoFar(job.base, last) { assert a in Tail(job, last, s); }
    assert FlagsRight(a.sidecar);
  }

  lemma {:induction false} BasesAreFlagless(base: Sidecar, next: nat, a: Action)
    requires base.detections == [] && !base.hasPerson && !base.hasAnimal && !base.hasVehicle && next >= 1
    ensures a in FailedSoFar(base, next) && a.WriteSidecar? ==> FlagsRight(a.sidecar)
  {
    if next > 1 { BasesAreFlagless(base, next - 1, a); }
  }

  /** A job that gave up has slept n(n+1)(2n+1)/6 seconds for n = retryMax, exactly
      if n is at most 96038; beyond, it has slept less. */
  lemma GaveUpSleeps(job: Job, log: seq<Action>, last: nat, s: Sidecar)
    requires Complete(job, log, GaveUp, last, s)
    ensures var n := job.retryMax; 6 * Slept(log) == n * (n + 1) * (2 * n + 1) * 1000000000 <==> n <= 96038
    ensures var n := job.retryMax; 6 * Slept(log) <= n * (n + 1) * (2 * n + 1) * 1000000000
  {
    FailedSoFarSleeps(job.base, last);
    TailReads(job, last, s);
    Concat(FailedSoFar(job.base, last), Tail(job, last, s));
    SquaresClosed(job.retryMax);
  }
}
