/** The SMTP session in front of the spool or, without one, of the archive. */
module Smtp {
  import opened CivilTime
  import opened SpoolMachine
  import opened SpoolOrder
  import opened SpoolQueue
  import opened StorageNames
  import opened Store
  import opened Text
  import Delivery
  import SpoolBound
  import SpoolItem

  datatype Reply = Okay | Reject(code: int)

  /** Why the archive did not take a message: an error with its own reply, storage
      being away, or anything else. */
  datatype StoreError = Typed(code: int) | Away | Other

  /** One SMTP session. */
  class Session {
    const users: map<string, string>
    const queue: Queue?
    const archive: Archive
    // The MIME parser, and whether somebody handles storage faults.
    const parse: Bytes -> Option<Parsed>
    const faultHandler: bool
    var authenticated: bool
    var username: string
    var from: string
    var rcpts: seq<string>

    /** A sender is only ever recorded for a known, authenticated user. */
    ghost predicate Valid()
      reads this
    {
      && (authenticated ==> username in users)
      && (!authenticated ==> username == "" && from == "")
    }

    constructor (users: map<string, string>, queue: Queue?, archive: Archive, parse: Bytes -> Option<Parsed>,
                 faultHandler: bool)
      ensures Valid() && !authenticated && from == "" && rcpts == []
      ensures this.users == users && this.queue == queue && this.archive == archive
      ensures this.parse == parse && this.faultHandler == faultHandler
    {
      this.users, this.queue, this.archive := users, queue, archive;
      this.parse, this.faultHandler := parse, faultHandler;
      authenticated, username, from, rcpts := false, "", "", [];
    }

    method Authenticate(user: string, password: string) returns (ok: bool)
      requires Valid()
      modifies this
      ensures Valid() && from == old(from) && rcpts == old(rcpts)
      ensures var key := Lower(TrimSpace(user)); ok <==> key in users && users[key] == password
      ensures ok ==> authenticated && username == Lower(TrimSpace(user))
      ensures !ok ==> authenticated == old(authenticated) && username == old(username)
    {
      var key := Lower(TrimSpace(user));
      ok := key in users && users[key] == password;
      if ok { authenticated, username := true, key; }
    }

    method Mail(sender: string) returns (r: Reply)
      requires Valid()
      modifies this`from
      ensures Valid()
      ensures r == if authenticated then Okay else Reject(530)
      ensures from == if r.Okay? then TrimSpace(sender) else old(from)
    {
      if !authenticated { return Reject(530); }
      from := TrimSpace(sender);
      r := Okay;
    }

    method Rcpt(to: string) returns (r: Reply)
      requires Valid()
      modifies this`rcpts
      ensures Valid()
      ensures r == if TrimSpace(to) == "" then Reject(501) else Okay
      ensures rcpts == if r.Okay? then old(rcpts) + [TrimSpace(to)] else old(rcpts)
    {
      var address := TrimSpace(to);
      if address == "" { return Reject(501); }
      rcpts := rcpts + [address];
      r := Okay;
    }

    method Reset()
      requires Valid()
      modifies this`from, this`rcpts
      ensures Valid() && from == "" && rcpts == []
    {
      from, rcpts := "", [];
    }

    /** What a refused message is answered when there is no spool. */
    function Refusal(why: StoreError): Reply {
      match why
      case Typed(code) => Reject(code)
      case Away => if faultHandler then Reject(451) else Reject(554)
      case Other => Reject(554)
    }

    /** Data. Success means that a known user is logged in and that the spool holds
        a receipt for exactly these bytes or, without a spool, that the parsed
        message is in its folder; anything else that the spool accepted nothing.
        `raw` is what was read from the client, if reading worked; `why` is what
        the archive would answer. Where `calm` is set nothing fails and no worker
        runs beside: then a user's message is refused only by the spool's limit or
        because it does not parse. */
    method Data(raw: Option<Bytes>, at: Time, suffix: string, why: StoreError, calm: bool)
      returns (r: Reply, ghost prefix: string)
      requires Valid() && CivilTime.Valid(at)
      requires queue != null ==> queue.Valid() && queue.m.enq.Idle?
      requires queue != null ==>
                 var name := SpoolItem.ItemName(at, suffix); name !in queue.m.tmp && name !in queue.m.published
      requires raw.Some? && parse(raw.value).Some? ==>
                 forall a | a in parse(raw.value).value.attachments :: IsExtension(a.ext)
      modifies if queue != null then {queue} else {}, if queue == null then {archive} else {}
      ensures queue != null ==> queue.Valid() && queue.m.enq.Idle? && old(queue.trace) <= queue.trace
      ensures r.Okay? ==> authenticated && username in users && rcpts != [] && raw.Some?
      ensures r.Okay? && queue != null ==>
                var name := SpoolItem.ItemName(at, suffix);
                name in queue.m.accepted && queue.m.accepted[name].bytes == SpoolItem.Content(raw.value, at)
      ensures r.Okay? && queue == null ==>
                && parse(raw.value).Some?
                && var p, dir := parse(raw.value).value, DirectoryOf(archive.u, parse(raw.value).value, at);
                   && dir in archive.dirs && IsCandidate(prefix, at)
                   && prefix + ".txt" in archive.dirs[dir] && archive.dirs[dir][prefix + ".txt"] == p.body
                   && forall i | 0 <= i < |p.attachments| ::
                        var name := prefix + "_" + Decimal(i + 1) + p.attachments[i].ext;
                        name in archive.dirs[dir] && archive.dirs[dir][name] == p.attachments[i].data
      ensures !r.Okay? && queue != null ==> queue.m.accepted == old(queue.m.accepted)
      ensures calm && authenticated && rcpts != [] && raw.Some? ==>
                if queue != null
                then r.Okay? <==> !(queue.c.maxBytes > 0 &&
                                    SpoolBound.Load(old(queue.m)) + |raw.value| > queue.c.maxBytes)
                else r.Okay? <==> parse(raw.value).Some?
      ensures !authenticated ==> r == Reject(530)
      ensures authenticated && rcpts == [] ==> r == Reject(554)
      ensures authenticated && rcpts != [] && raw.None? ==> r == Reject(451)
      ensures authenticated && rcpts != [] && raw.Some? ==>
                || r == Okay
                || (queue != null && r == Reject(452))
                || (queue == null && why.Typed? && r == Reject(why.code))
                || (queue == null && why.Away? && r == if faultHandler then Reject(451) else Reject(554))
                || (queue == null && why.Other? && r == Reject(554))
    {
      prefix := "";
      if !authenticated { return Reject(530), prefix; }
      if rcpts == [] { return Reject(554), prefix; }
      if raw.None? { return Reject(451), prefix; }
      if queue != null {
        r := Spool(raw.value, at, suffix, calm);
      } else {
        var result;
        result, prefix := archive.ProcessAndStore(parse(raw.value), at, calm);
        r := if result.Stored? then Okay else Refusal(why);
      }
    }

    method Spool(raw: Bytes, at: Time, suffix: string, calm: bool) returns (r: Reply)
      requires queue != null && CivilTime.Valid(at) && queue.Valid() && queue.m.enq.Idle?
      requires var name := SpoolItem.ItemName(at, suffix); name !in queue.m.tmp && name !in queue.m.published
      modifies queue
      ensures queue.Valid() && queue.m.enq.Idle? && old(queue.trace) <= queue.trace
      ensures var name := SpoolItem.ItemName(at, suffix);
              r.Okay? ==> name in queue.m.accepted && queue.m.accepted[name].bytes == SpoolItem.Content(raw, at)
      ensures calm ==>
                (r.Okay? <==> !(queue.c.maxBytes > 0 &&
                                SpoolBound.Load(old(queue.m)) + |raw| > queue.c.maxBytes))
      ensures !r.Okay? ==> r == Reject(452) && queue.m.accepted == old(queue.m.accepted)
    {
      hide Run, FreshRun, TimedRun, Init, SpoolBound.Load;
      var result, _, _ := queue.Enqueue(raw, at, suffix, calm);
      r := if result.Spooled? then Okay else Reject(452);
    }
  }

  /** Every message a Data call answered with success is in one spool directory with
      its bytes, from which the raw message and its time can be read back, or
      complete in its folder, wherever spool and archive have got to since. `here`
      is the whole system when Data returned, with the queue as its spool. */
  lemma DataSuccessIsCovered(queue: Queue, w: Delivery.Setting, start: Delivery.State, first: seq<Delivery.Event>,
                             here: Delivery.State, later: seq<Delivery.Event>, t: Delivery.State,
                             name: string, raw: Bytes, at: Time, now: Time)
    requires CivilTime.Valid(at) && here.spool == queue.m
    requires Delivery.Init(start) && Delivery.IsRun(w, start, first, here) && Delivery.IsRun(w, here, later, t)
    requires name in queue.m.accepted && queue.m.accepted[name].bytes == SpoolItem.Content(raw, at)
    ensures Delivery.Covered(w, t, name, raw, at)
    ensures var kept := SpoolItem.ReadItem(SpoolItem.Content(raw, at));
            kept.Some? && kept.value.raw == raw && SpoolItem.ReceivedAt(kept.value, now) == at
  {
    Delivery.RunKeepsInv(w, start, first, here);
    Delivery.RunKeepsReceipts(w, here, later, t);
    Delivery.InvCovers(w, t, name, raw, at);
    SpoolItem.ReadBack(raw, at, now);
  }
}
