/** Storing one message while nobody else is: its directory, the collision loop
    and the attachments after it. */
module Store {
  import opened CivilTime
  import opened Recipient
  import opened StorageNames
  import opened StoreMachine
  import opened Text
  import SpoolItem

  datatype BodyResult =
    | Claimed(prefix: string)
    | OpenFailed
    | WriteFailed(prefix: string)

  datatype Result = Stored(bodyName: string, attachmentNames: seq<string>) | NotStored

  /** The names tried so far, as a set of n different names. */
  ghost function Tried(timestamp: string, n: nat): set<string> {
    set k | 1 <= k <= n :: BodyName(Candidate(timestamp, k))
  }

  lemma LastIsNew(timestamp: string, n: nat)
    requires IsTimestamp(timestamp) && n > 0
    ensures BodyName(Candidate(timestamp, n)) !in Tried(timestamp, n - 1)
  {
    forall k | 1 <= k < n ensures BodyName(Candidate(timestamp, k)) != BodyName(Candidate(timestamp, n)) {
      if BodyName(Candidate(timestamp, k)) == BodyName(Candidate(timestamp, n)) {
        BodyNamesDiffer(Candidate(timestamp, k), Candidate(timestamp, n));
        CandidatesDiffer(timestamp, k, timestamp, n);
      }
    }
  }

  lemma {:induction false} TriedCount(timestamp: string, n: nat)
    requires IsTimestamp(timestamp)
    ensures |Tried(timestamp, n)| == n
  {
    if n > 0 {
      var last := BodyName(Candidate(timestamp, n));
      TriedCount(timestamp, n - 1);
      LastIsNew(timestamp, n);
      assert Tried(timestamp, n) == Tried(timestamp, n - 1) + {last};
    } else {
      assert Tried(timestamp, 0) == {};
    }
  }

  lemma {:induction false} SubsetCount<T>(small: set<T>, big: set<T>)
    requires small <= big
    ensures |small| <= |big|
  {
    if small != {} {
      var x :| x in small;
      SubsetCount(small - {x}, big - {x});
    }
  }

  /** Pigeonhole: as many taken candidates, so many files. */
  lemma TakenAreFiles(timestamp: string, n: nat, files: map<string, string>)
    requires IsTimestamp(timestamp)
    requires forall k | 1 <= k <= n :: BodyName(Candidate(timestamp, k)) in files
    ensures n <= |files|
  {
    TriedCount(timestamp, n);
    SubsetCount(Tried(timestamp, n), files.Keys);
  }

  // ------------------------------------------------------------ completion

  lemma Extend(strays: bool, s: State, evs: seq<Event>, t: State, ev: Event) returns (longer: seq<Event>, u: State)
    requires Run(strays, s, evs) == Some(t) && Step(strays, t, ev).Some?
    ensures Run(strays, s, longer) == Some(u) && u == Step(strays, t, ev).value
  {
    longer, u := evs + [ev], Step(strays, t, ev).value;
    assert longer[..|longer| - 1] == evs;
  }

  /** From any state in which a call has just begun, whatever files there are and
      whatever other calls are doing, some steps of its own bring it to its end. */
  lemma CallCanFinish(strays: bool, s: State, id: nat) returns (evs: seq<Event>, t: State)
    requires id in s.calls && s.calls[id].pc == Trying(1) && WellFormed(s.calls[id].msg, strays)
    ensures Run(strays, s, evs) == Some(t)
    ensures id in t.calls && t.calls[id].pc.Done? && t.calls[id].msg == s.calls[id].msg
  {
    evs, t := BodyCanBeClaimed(strays, s, [], s, id);
    evs, t := Extend(strays, s, evs, t, WriteBody(id, true, ""));
    evs, t := RestCanBeWritten(strays, s, evs, t, id);
  }

  /** After as many taken candidates as there are files one is free. */
  lemma {:induction false} BodyCanBeClaimed(strays: bool, s: State, evs: seq<Event>, t: State, id: nat)
    returns (longer: seq<Event>, u: State)
    requires Run(strays, s, evs) == Some(t) && id in t.calls && t.calls[id].pc.Trying? && t.calls[id].pc.n >= 1
    requires WellFormed(t.calls[id].msg, strays)
    requires forall k | 1 <= k < t.calls[id].pc.n :: BodyName(Candidate(t.calls[id].msg.timestamp, k)) in t.files
    ensures Run(strays, s, longer) == Some(u)
    ensures id in u.calls && u.calls[id].pc.WritingBody? && u.calls[id].msg == t.calls[id].msg
    decreases |t.files| + 1 - t.calls[id].pc.n
  {
    var n, stamp := t.calls[id].pc.n, t.calls[id].msg.timestamp;
    TakenAreFiles(stamp, n - 1, t.files);
    longer, u := Extend(strays, s, evs, t, Open(id, true));
    if BodyName(Candidate(stamp, n)) in t.files {
      TakenAreFiles(stamp, n, t.files);
      longer, u := BodyCanBeClaimed(strays, s, longer, u, id);
    }
  }

  lemma {:induction false} RestCanBeWritten(strays: bool, s: State, evs: seq<Event>, t: State, id: nat)
    returns (longer: seq<Event>, u: State)
    requires Run(strays, s, evs) == Some(t) && id in t.calls && t.calls[id].pc.Attaching? && !t.calls[id].pc.emptied
    requires t.calls[id].pc.finished <= |t.calls[id].msg.attachments|
    ensures Run(strays, s, longer) == Some(u)
    ensures id in u.calls && u.calls[id].pc.Done? && u.calls[id].msg == t.calls[id].msg
    decreases |t.calls[id].msg.attachments| - t.calls[id].pc.finished
  {
    if t.calls[id].pc.finished == |t.calls[id].msg.attachments| {
      longer, u := Extend(strays, s, evs, t, Return(id));
    } else {
      longer, u := Extend(strays, s, evs, t, Truncate(id));
      longer, u := Extend(strays, s, longer, u, Fill(id, true, ""));
      longer, u := RestCanBeWritten(strays, s, longer, u, id);
    }
  }

  class Folder {
    var files: map<string, string>

    constructor (files: map<string, string>)
      ensures this.files == files
    {
      this.files := files;
    }

    /** The loop ends within one attempt more than there are files. It claims the
        least free candidate, or stops at the first error other than "exists"
        without having changed anything; no existing file is touched. Where `calm` is
        set, here and below, there is no such error. */
    method WriteBodyWithCollisionHandling(timestamp: string, body: string, calm: bool)
      returns (r: BodyResult, ghost attempts: nat)
      requires IsTimestamp(timestamp)
      modifies this
      ensures 1 <= attempts <= |old(files)| + 1 && (calm ==> r.Claimed?)
      ensures forall k | 1 <= k < attempts :: BodyName(Candidate(timestamp, k)) in old(files)
      ensures r.OpenFailed? ==> files == old(files)
      ensures !r.OpenFailed? ==> r.prefix == Candidate(timestamp, attempts) && BodyName(r.prefix) !in old(files)
      ensures r.Claimed? ==> files == old(files)[BodyName(r.prefix) := body]
      ensures r.WriteFailed? ==>
                BodyName(r.prefix) in files && files == old(files)[BodyName(r.prefix) := files[BodyName(r.prefix)]]
    {
      var attempt := 1;
      while true
        invariant attempt >= 1 && files == old(files)
        invariant forall k | 1 <= k < attempt :: BodyName(Candidate(timestamp, k)) in files
        invariant attempt <= |files| + 1
        decreases |files| + 1 - attempt
      {
        var candidate := Candidate(timestamp, attempt);
        var name := BodyName(candidate);
        attempts := attempt;
        var otherError: bool := *;
        if otherError && !calm { return OpenFailed, attempts; }
        if name in files {
          TakenAreFiles(timestamp, attempt, files);
          attempt := attempt + 1;
          continue;
        }
        var writeFails: bool := *;
        if writeFails && !calm {
          var partial: string := *;
          files := files[name := partial];
          return WriteFailed(candidate), attempts;
        }
        files := files[name := body];
        return Claimed(candidate), attempts;
      }
    }

    /** The body and the attachments. On success both hold their bytes, and only
        files with the message's own attachment names can have been replaced. */
    method WriteMessage(msg: Message, calm: bool) returns (r: Result, ghost prefix: string)
      requires WellFormed(msg, false)
      modifies this
      ensures calm ==> r.Stored?
      ensures r.Stored? ==> BodyName(prefix) !in old(files) && Saved(files, msg, prefix, r)
      ensures exists n: nat | n >= 1 :: prefix == Candidate(msg.timestamp, n)
      ensures Spared(old(files), files, msg, prefix)
    {
      var body, attempts := WriteBodyWithCollisionHandling(msg.timestamp, msg.body, calm);
      prefix := Candidate(msg.timestamp, attempts);
      CandidateIsPrefix(msg.timestamp, attempts);
      if !body.Claimed? { return NotStored, prefix; }
      var names: seq<string> := [];
      for i := 0 to |msg.attachments|
        invariant |names| == i
        invariant BodyName(prefix) in files && files[BodyName(prefix)] == msg.body
        invariant forall k | 0 <= k < i ::
                    && names[k] == AttachmentName(prefix, k + 1, msg.attachments[k].ext)
                    && names[k] in files && files[names[k]] == msg.attachments[k].data
        invariant forall name | name in old(files) ::
                    || (name in files && files[name] == old(files)[name])
                    || exists k | 0 <= k < i :: name == AttachmentName(prefix, k + 1, msg.attachments[k].ext)
      {
        var a := msg.attachments[i];
        var name := AttachmentName(body.prefix, i + 1, a.ext);
        OwnNamesDiffer(msg, prefix, i);
        var writeFails: bool := *;
        if writeFails && !calm {
          var partial: string := *;
          files := files[name := partial];
          return NotStored, prefix;
        }
        files := files[name := a.data];
        names := names + [name];
      }
      r := Stored(BodyName(body.prefix), names);
    }
  }

  /** The message is in the directory, under the names in the result. */
  ghost predicate Saved(files: map<string, string>, msg: Message, prefix: string, r: Result)
    requires r.Stored?
  {
    && IsPrefix(prefix) && r.bodyName == BodyName(prefix)
    && r.bodyName in files && files[r.bodyName] == msg.body
    && |r.attachmentNames| == |msg.attachments|
    && forall i | 0 <= i < |msg.attachments| ::
         && r.attachmentNames[i] == AttachmentName(prefix, i + 1, msg.attachments[i].ext)
         && r.attachmentNames[i] in files && files[r.attachmentNames[i]] == msg.attachments[i].data
  }

  /** Every file that was there still is, unless it has the name of an attachment. */
  ghost predicate Spared(before: map<string, string>, after: map<string, string>, msg: Message, prefix: string) {
    forall name | name in before ::
      || (name in after && after[name] == before[name])
      || exists i | 0 <= i < |msg.attachments| :: name == AttachmentName(prefix, i + 1, msg.attachments[i].ext)
  }

  lemma OwnNamesDiffer(msg: Message, prefix: string, i: nat)
    requires WellFormed(msg, false) && IsPrefix(prefix) && i < |msg.attachments|
    ensures AttachmentName(prefix, i + 1, msg.attachments[i].ext) != BodyName(prefix)
    ensures forall k | 0 <= k < i ::
              AttachmentName(prefix, k + 1, msg.attachments[k].ext) !=
              AttachmentName(prefix, i + 1, msg.attachments[i].ext)
  {
    BodyIsNoAttachment(prefix, prefix, i + 1, msg.attachments[i].ext);
    forall k | 0 <= k < i
      ensures AttachmentName(prefix, k + 1, msg.attachments[k].ext) !=
              AttachmentName(prefix, i + 1, msg.attachments[i].ext)
    {
      assert msg.attachments[k] in msg.attachments && msg.attachments[i] in msg.attachments;
      if AttachmentName(prefix, k + 1, msg.attachments[k].ext) ==
         AttachmentName(prefix, i + 1, msg.attachments[i].ext) {
        AttachmentNamesDiffer(prefix, k + 1, msg.attachments[k].ext, prefix, i + 1, msg.attachments[i].ext);
      }
    }
  }

  /** What the MIME parser makes of a message. */
  datatype Parsed = Parsed(recipient: string, body: string, attachments: seq<Attachment>)

  function DirectoryOf(u: Runes, p: Parsed, at: Time): string {
    FolderFor(u, p.recipient) + "/" + SpoolItem.Place(at).0
  }

  function MessageOf(p: Parsed, at: Time): (msg: Message)
    ensures IsTimestamp(msg.timestamp)
  {
    PlaceIsTimestamp(at);
    Message(SpoolItem.Place(at).1, p.body, p.attachments)
  }

  /** Nothing of the message is lost on the way to the folder. */
  lemma MessageIs(p: Parsed, at: Time)
    ensures MessageOf(p, at).body == p.body && MessageOf(p, at).attachments == p.attachments
    ensures MessageOf(p, at).timestamp == SpoolItem.Place(at).1
  {
  }

  /** A name tried for a message received at this time. */
  ghost predicate IsCandidate(prefix: string, at: Time) {
    exists n: nat | n >= 1 :: prefix == Candidate(SpoolItem.Place(at).1, n)
  }

  /** Hour, minute and second, two digits each, alone or with a number behind. */
  lemma CandidateIs(prefix: string, at: Time)
    requires Valid(at) && IsCandidate(prefix, at)
    ensures |prefix| >= 6 && Field(prefix, 0, 2) == Some(at.hour) && Field(prefix, 2, 4) == Some(at.minute)
    ensures Field(prefix, 4, 6) == Some(at.second)
    ensures prefix[6..] == "" || exists n: nat :: n >= 2 && prefix[6..] == "-" + Decimal(n)
  {
    var n: nat :| n >= 1 && prefix == Candidate(SpoolItem.Place(at).1, n);
    var base := SpoolItem.Place(at).1;
    hide Field;
    SpoolItem.BaseIs(at);
    assert n > 1 ==> prefix[6..] == "-" + Decimal(n);
    assert prefix[..6] == base;
    FieldOfFront(prefix, 0, 2);
    FieldOfFront(prefix, 2, 4);
    FieldOfFront(prefix, 4, 6);
  }

  lemma FieldOfFront(s: string, i: nat, j: nat)
    requires i <= j <= 6 <= |s|
    ensures Field(s, i, j) == Field(s[..6], i, j)
  {
    assert s[i..j] == s[..6][i..j];
    assert forall k | i <= k < j :: s[k] == s[..6][k];
  }

  /** The recipient's folder comes first, then year, month and day. */
  lemma DirectoryIs(u: Runes, p: Parsed, at: Time)
    requires u.Regular() && Valid(at)
    ensures var parts := Split(DirectoryOf(u, p, at), '/');
            && |parts| == 4 && parts[0] == FolderFor(u, p.recipient)
            && |parts[1]| == 4 && |parts[2]| == |parts[3]| == 2
            && Field(parts[1], 0, 4) == Some(at.year) && Field(parts[2], 0, 2) == Some(at.month)
            && Field(parts[3], 0, 2) == Some(at.day)
  {
    hide Field;
    FolderNameShape(u, p.recipient);
    SpoolItem.PlaceIs(at);
    SplitStep(FolderFor(u, p.recipient), '/', SpoolItem.Place(at).0);
  }

  lemma PlaceIsTimestamp(at: Time)
    ensures IsTimestamp(SpoolItem.Place(at).1)
  {
    var h, m, s := Fixed(at.hour, 2), Fixed(at.minute, 2), Fixed(at.second, 2);
    assert forall c | c in h + m + s :: c in h || c in m || c in s;
  }

  /** The storage root with all its date folders. */
  class Archive {
    const u: Runes
    var dirs: map<string, map<string, string>>

    constructor (u: Runes, dirs: map<string, map<string, string>>)
      ensures this.u == u && this.dirs == dirs
    {
      this.u := u;
      this.dirs := dirs;
    }

    /** ProcessAndStore: the recipient's folder for the day, made if need be, then
        the message. On success the body is in a file of its own that was not there
        before, and every attachment in one under its own extension. Nothing outside
        that folder changes, and in it nothing but files with those attachments'
        names; a message that does not parse changes nothing. Extensions begin with
        a dot: see ExtensionShape. */
    method ProcessAndStore(parsed: Option<Parsed>, at: Time, calm: bool) returns (r: Result, ghost prefix: string)
      requires parsed.Some? ==> forall a | a in parsed.value.attachments :: IsExtension(a.ext)
      modifies this
      ensures parsed.None? ==> r.NotStored? && dirs == old(dirs)
      ensures parsed.Some? && calm ==> r.Stored?
      ensures parsed.Some? ==>
                var p, dir := parsed.value, DirectoryOf(u, parsed.value, at);
                && (forall d | d != dir :: d in dirs <==> d in old(dirs))
                && (forall d | d in old(dirs) && d != dir :: dirs[d] == old(dirs)[d])
                && (dir in old(dirs) ==> dir in dirs && forall name | name in old(dirs)[dir] ::
                      || (name in dirs[dir] && dirs[dir][name] == old(dirs)[dir][name])
                      || exists i | 0 <= i < |p.attachments| ::
                           name == prefix + "_" + Decimal(i + 1) + p.attachments[i].ext)
                && (r.Stored? ==>
                      && dir in dirs && IsCandidate(prefix, at) && r.bodyName == prefix + ".txt"
                      && r.bodyName in dirs[dir] && dirs[dir][r.bodyName] == p.body
                      && (dir in old(dirs) ==> r.bodyName !in old(dirs)[dir])
                      && |r.attachmentNames| == |p.attachments|
                      && forall i | 0 <= i < |p.attachments| ::
                           && r.attachmentNames[i] == prefix + "_" + Decimal(i + 1) + p.attachments[i].ext
                           && r.attachmentNames[i] in dirs[dir]
                           && dirs[dir][r.attachmentNames[i]] == p.attachments[i].data)
    {
      r, prefix := NotStored, "";
      if parsed.None? { return; }
      var dir := DirectoryOf(u, parsed.value, at);
      var makeFails: bool := *;
      if makeFails && !calm { return; }
      if dir !in dirs { dirs := dirs[dir := map[]]; }
      var folder := new Folder(dirs[dir]);
      r, prefix := folder.WriteMessage(MessageOf(parsed.value, at), calm);
      dirs := dirs[dir := folder.files];
      MessageIs(parsed.value, at);
    }
  }
}
