/** Any number of ProcessAndStore calls running into one directory, together
    with the classifier writing sidecars and thumbnails there, as a state
    machine over single file operations. No body is ever deleted. */
module StoreMachine {
  import opened Text
  import opened StorageNames

  datatype Attachment = Attachment(ext: string, data: string)

  datatype Message = Message(timestamp: string, body: string, attachments: seq<Attachment>)

  datatype Pc =
    | Trying(n: nat)
    | WritingBody
      // Attachments finished, and whether the next one has been truncated.
    | Attaching(finished: nat, emptied: bool)
    | Done
    | Aborted

  /** `prefix` is empty until an exclusive create has claimed one. */
  datatype Call = Call(msg: Message, prefix: string, pc: Pc)

  datatype State = State(files: map<string, string>, calls: map<nat, Call>)

  datatype Event =
    | Begin(id: nat, msg: Message)
    | Open(id: nat, ok: bool)
    | WriteBody(id: nat, ok: bool, partial: string)
    | Truncate(id: nat)
    | Fill(id: nat, ok: bool, partial: string)
    | Return(id: nat)
      // An error in a system call, or the end of the process.
    | Abort(id: nat)
      // A sidecar or thumbnail of an attachment, or of any other file.
    | Derive(id: nat, index: nat, suffix: string, content: string)
    | DeriveStray(video: string, suffix: string, content: string)

  /** `strays`: the classifier may also meet files no call of the run has made. */
  predicate WellFormed(msg: Message, strays: bool) {
    && IsTimestamp(msg.timestamp)
    && forall a | a in msg.attachments :: IsExtension(a.ext) && (strays ==> HasSingleDot(a.ext))
  }

  function NameOf(call: Call, i: nat): string
    requires i < |call.msg.attachments|
  {
    AttachmentName(call.prefix, i + 1, call.msg.attachments[i].ext)
  }

  function Step(strays: bool, s: State, ev: Event): Option<State> {
    match ev
    case Begin(id, msg) =>
      if id !in s.calls && WellFormed(msg, strays) then Some(s.(calls := s.calls[id := Call(msg, "", Trying(1))]))
      else None
    case DeriveStray(video, suffix, content) =>
      if strays && IsDerivedSuffix(suffix) then Some(s.(files := s.files[video + suffix := content])) else None
    case _ =>
      if ev.id in s.calls then StepCall(s, s.calls[ev.id], ev) else None
  }

  function StepCall(s: State, call: Call, ev: Event): Option<State>
    requires !ev.Begin? && !ev.DeriveStray?
  {
    match ev
    case Open(id, ok) =>
      if !call.pc.Trying? || call.pc.n < 1 then None
      else
        var prefix := Candidate(call.msg.timestamp, call.pc.n);
        if !ok then Some(s.(calls := s.calls[id := call.(pc := Aborted)]))
        else if BodyName(prefix) in s.files then
          Some(s.(calls := s.calls[id := call.(pc := Trying(call.pc.n + 1))]))
        else
          Some(State(s.files[BodyName(prefix) := ""], s.calls[id := call.(prefix := prefix, pc := WritingBody)]))
    case WriteBody(id, ok, partial) =>
      if !call.pc.WritingBody? then None
      else
        Some(State(s.files[BodyName(call.prefix) := if ok then call.msg.body else partial],
                   s.calls[id := call.(pc := if ok then Attaching(0, false) else Aborted)]))
    case Truncate(id) =>
      if call.pc.Attaching? && call.pc.finished < |call.msg.attachments| && !call.pc.emptied then
        Some(State(s.files[NameOf(call, call.pc.finished) := ""],
                   s.calls[id := call.(pc := call.pc.(emptied := true))]))
      else None
    case Fill(id, ok, partial) =>
      if call.pc.Attaching? && call.pc.finished < |call.msg.attachments| && call.pc.emptied then
        var i := call.pc.finished;
        Some(State(s.files[NameOf(call, i) := if ok then call.msg.attachments[i].data else partial],
                   s.calls[id := call.(pc := if ok then Attaching(i + 1, false) else Aborted)]))
      else None
    case Return(id) =>
      if call.pc.Attaching? && call.pc.finished == |call.msg.attachments| then
        Some(s.(calls := s.calls[id := call.(pc := Done)]))
      else None
    case Abort(id) =>
      if call.pc.Done? then None else Some(s.(calls := s.calls[id := call.(pc := Aborted)]))
    case Derive(id, index, suffix, content) =>
      if call.prefix != "" && index < |call.msg.attachments| && IsDerivedSuffix(suffix) then
        Some(s.(files := s.files[NameOf(call, index) + suffix := content]))
      else None
  }

  /** The classifier may write beside any attachment of a call that has its prefix,
      and with strays beside any file at all; any call that is not done may stop,
      and any of its writes may leave any bytes. */
  lemma DisturbancesAre(strays: bool, s: State, id: nat, index: nat, video: string, content: string)
    requires id in s.calls
    ensures var call := s.calls[id];
            call.prefix != "" && index < |call.msg.attachments| ==>
              forall suffix | suffix in {".detections.json", ".thumb.jpg"} ::
                var name := call.prefix + "_" + Decimal(index + 1) + call.msg.attachments[index].ext + suffix;
                Step(strays, s, Derive(id, index, suffix, content)) == Some(s.(files := s.files[name := content]))
    ensures forall suffix | suffix in {".detections.json", ".thumb.jpg"} ::
              Step(true, s, DeriveStray(video, suffix, content)) ==
              Some(s.(files := s.files[video + suffix := content]))
    ensures !s.calls[id].pc.Done? ==> Step(strays, s, Abort(id)).Some?
    ensures s.calls[id].pc.WritingBody? ==>
              && Step(strays, s, WriteBody(id, false, content)).Some?
              && Step(strays, s, WriteBody(id, false, content)).value.files ==
                 s.files[s.calls[id].prefix + ".txt" := content]
  {
  }

  function Run(strays: bool, s: State, evs: seq<Event>): Option<State> {
    if evs == [] then Some(s)
    else
      match Run(strays, s, evs[..|evs| - 1])
      case None => None
      case Some(t) => Step(strays, t, evs[|evs| - 1])
  }

  // ---------------------------------------------------------------- invariant

  function Finished(call: Call): nat {
    match call.pc
    case Attaching(k, _) => k
    case Done => |call.msg.attachments|
    case _ => 0
  }

  /** A call's own files: its claim, its body once written, its attachments so far. */
  ghost predicate Intact(files: map<string, string>, call: Call) {
    && Finished(call) <= |call.msg.attachments|
    && (call.prefix != "" ==> BodyName(call.prefix) in files)
    && (call.pc.Attaching? || call.pc.Done? ==> call.prefix != "" && files[BodyName(call.prefix)] == call.msg.body)
    && (forall i | 0 <= i < Finished(call) ::
          NameOf(call, i) in files && files[NameOf(call, i)] == call.msg.attachments[i].data)
  }

  ghost predicate Sound(strays: bool, files: map<string, string>, call: Call) {
    && WellFormed(call.msg, strays)
    && (call.prefix != "" ==> IsPrefix(call.prefix))
    && (call.pc.Trying? ==> call.prefix == "")
    && (call.pc.WritingBody? ==> call.prefix != "")
    && Intact(files, call)
  }

  ghost predicate Apart(a: Call, b: Call) {
    a.prefix != "" && b.prefix != "" ==> a.prefix != b.prefix
  }

  ghost predicate Inv(strays: bool, s: State) {
    && (forall id | id in s.calls :: Sound(strays, s.files, s.calls[id]))
    && (forall a, b | a in s.calls && b in s.calls && a != b :: Apart(s.calls[a], s.calls[b]))
  }

  /** A name that is none of the call's own. */
  ghost predicate Foreign(name: string, call: Call) {
    call.prefix != "" ==>
      && name != BodyName(call.prefix)
      && forall i | 0 <= i < |call.msg.attachments| :: name != NameOf(call, i)
  }

  lemma ForeignWriteKeeps(strays: bool, files: map<string, string>, call: Call, name: string, content: string)
    requires Sound(strays, files, call) && Foreign(name, call)
    ensures Sound(strays, files[name := content], call)
  {
  }

  lemma OthersBodyIsForeign(strays: bool, files: map<string, string>, prefix: string, call: Call)
    requires IsPrefix(prefix) && Sound(strays, files, call)
    requires call.prefix != "" ==> call.prefix != prefix
    ensures Foreign(BodyName(prefix), call)
  {
    if call.prefix != "" {
      if BodyName(prefix) == BodyName(call.prefix) { BodyNamesDiffer(prefix, call.prefix); }
      forall i | 0 <= i < |call.msg.attachments| ensures BodyName(prefix) != NameOf(call, i) {
        BodyIsNoAttachment(prefix, call.prefix, i + 1, call.msg.attachments[i].ext);
      }
    }
  }

  lemma OthersAttachmentIsForeign(strays: bool, files: map<string, string>, prefix: string, index: nat, ext: string,
                                  call: Call)
    requires IsPrefix(prefix) && IsExtension(ext) && Sound(strays, files, call)
    requires call.prefix != "" ==> call.prefix != prefix
    ensures Foreign(AttachmentName(prefix, index, ext), call)
  {
    if call.prefix != "" {
      BodyIsNoAttachment(call.prefix, prefix, index, ext);
      forall i | 0 <= i < |call.msg.attachments| ensures AttachmentName(prefix, index, ext) != NameOf(call, i) {
        assert call.msg.attachments[i] in call.msg.attachments;
        if AttachmentName(prefix, index, ext) == NameOf(call, i) {
          AttachmentNamesDiffer(prefix, index, ext, call.prefix, i + 1, call.msg.attachments[i].ext);
        }
      }
    }
  }

  lemma DerivedIsForeign(strays: bool, files: map<string, string>, owner: Call, index: nat, suffix: string, call: Call)
    requires Sound(strays, files, owner) && owner.prefix != "" && index < |owner.msg.attachments|
    requires Sound(strays, files, call) && (call == owner || Apart(call, owner)) && IsDerivedSuffix(suffix)
    ensures Foreign(NameOf(owner, index) + suffix, call)
  {
    var name, e := NameOf(owner, index) + suffix, owner.msg.attachments[index].ext;
    assert owner.msg.attachments[index] in owner.msg.attachments;
    assert name == AttachmentName(owner.prefix, index + 1, e + suffix);
    if call.prefix != "" {
      BodyIsNoAttachment(call.prefix, owner.prefix, index + 1, e + suffix);
      forall i | 0 <= i < |call.msg.attachments| ensures name != NameOf(call, i) {
        assert call.msg.attachments[i] in call.msg.attachments;
        DerivedOfAttachmentDiffers(owner.prefix, index + 1, e, suffix, call.prefix, i + 1, call.msg.attachments[i].ext);
      }
    }
  }

  lemma StrayIsForeign(files: map<string, string>, video: string, suffix: string, call: Call)
    requires Sound(true, files, call) && IsDerivedSuffix(suffix)
    ensures Foreign(video + suffix, call)
  {
    if call.prefix != "" {
      DerivedNamesDiffer(video, suffix, call.prefix, 0, ".x");
      forall i | 0 <= i < |call.msg.attachments| ensures video + suffix != NameOf(call, i) {
        assert call.msg.attachments[i] in call.msg.attachments;
        DerivedNamesDiffer(video, suffix, call.prefix, i + 1, call.msg.attachments[i].ext);
      }
    }
  }

  /** The call that takes the step. */
  lemma OwnStepKeepsSound(strays: bool, s: State, call: Call, ev: Event)
    requires !ev.Begin? && !ev.DeriveStray? && !ev.Derive?
    requires Sound(strays, s.files, call) && StepCall(s, call, ev).Some?
    ensures var t := StepCall(s, call, ev).value;
            ev.id in t.calls && Sound(strays, t.files, t.calls[ev.id])
  {
    var t := StepCall(s, call, ev).value;
    match ev
    case Open(_, _) => CandidateIsPrefix(call.msg.timestamp, call.pc.n);
    case Truncate(_) => OwnAttachment(strays, s.files, call, call.pc.finished, "");
    case Fill(_, ok, partial) =>
      OwnAttachment(strays, s.files, call, call.pc.finished,
                    if ok then call.msg.attachments[call.pc.finished].data else partial);
    case _ =>
  }

  /** Writing the next attachment leaves the body and the earlier attachments alone. */
  lemma OwnAttachment(strays: bool, files: map<string, string>, call: Call, i: nat, content: string)
    requires Sound(strays, files, call) && call.prefix != "" && Finished(call) <= i < |call.msg.attachments|
    ensures Sound(strays, files[NameOf(call, i) := content], call)
  {
    BodyIsNoAttachment(call.prefix, call.prefix, i + 1, call.msg.attachments[i].ext);
    forall k | 0 <= k < Finished(call) ensures NameOf(call, k) != NameOf(call, i) {
      assert call.msg.attachments[k] in call.msg.attachments && call.msg.attachments[i] in call.msg.attachments;
      if NameOf(call, k) == NameOf(call, i) {
        AttachmentNamesDiffer(call.prefix, k + 1, call.msg.attachments[k].ext,
                              call.prefix, i + 1, call.msg.attachments[i].ext);
      }
    }
  }

  /** Every other call. */
  lemma OthersStepKeepsSound(strays: bool, s: State, call: Call, ev: Event, other: Call)
    requires !ev.Begin? && !ev.DeriveStray?
    requires Sound(strays, s.files, call) && StepCall(s, call, ev).Some?
    requires Sound(strays, s.files, other) && ((ev.Derive? && other == call) || Apart(other, call))
    ensures Sound(strays, StepCall(s, call, ev).value.files, other)
  {
    match ev
    case Open(_, ok) =>
      var prefix := Candidate(call.msg.timestamp, call.pc.n);
      CandidateIsPrefix(call.msg.timestamp, call.pc.n);
      if BodyName(prefix) !in s.files {
        OthersBodyIsForeign(strays, s.files, prefix, other);
        ForeignWriteKeeps(strays, s.files, other, BodyName(prefix), "");
      }
    case WriteBody(_, ok, partial) =>
      OthersBodyIsForeign(strays, s.files, call.prefix, other);
      ForeignWriteKeeps(strays, s.files, other, BodyName(call.prefix), if ok then call.msg.body else partial);
    case Truncate(_) =>
      OthersAttachment(strays, s.files, call, other, "");
    case Fill(_, ok, partial) =>
      OthersAttachment(strays, s.files, call, other,
                       if ok then call.msg.attachments[call.pc.finished].data else partial);
    case Derive(_, index, suffix, content) =>
      DerivedIsForeign(strays, s.files, call, index, suffix, other);
      ForeignWriteKeeps(strays, s.files, other, NameOf(call, index) + suffix, content);
    case _ =>
  }

  lemma OthersAttachment(strays: bool, files: map<string, string>, call: Call, other: Call, content: string)
    requires Sound(strays, files, call) && call.pc.Attaching? && call.pc.finished < |call.msg.attachments|
    requires Sound(strays, files, other) && Apart(other, call)
    ensures Sound(strays, files[NameOf(call, call.pc.finished) := content], other)
  {
    var i := call.pc.finished;
    assert call.msg.attachments[i] in call.msg.attachments;
    OthersAttachmentIsForeign(strays, files, call.prefix, i + 1, call.msg.attachments[i].ext, other);
    ForeignWriteKeeps(strays, files, other, NameOf(call, i), content);
  }

  /** An exclusive create yields a prefix no other call has. */
  lemma StepKeepsApart(strays: bool, s: State, call: Call, ev: Event, other: Call)
    requires !ev.Begin? && !ev.DeriveStray? && Sound(strays, s.files, other) && Apart(other, call)
    requires StepCall(s, call, ev).Some? && ev.id in s.calls && s.calls[ev.id] == call
    ensures Apart(other, StepCall(s, call, ev).value.calls[ev.id])
  {
  }

  lemma StepKeepsInv(strays: bool, s: State, ev: Event)
    requires Inv(strays, s) && Step(strays, s, ev).Some?
    ensures Inv(strays, Step(strays, s, ev).value)
  {
    var t := Step(strays, s, ev).value;
    match ev
    case Begin(id, msg) =>
    case DeriveStray(video, suffix, content) =>
      forall id | id in t.calls ensures Sound(strays, t.files, t.calls[id]) {
        StrayIsForeign(s.files, video, suffix, s.calls[id]);
        ForeignWriteKeeps(strays, s.files, s.calls[id], video + suffix, content);
      }
    case _ =>
      var call := s.calls[ev.id];
      assert t == StepCall(s, call, ev).value;
      OnlyOwnCallChanges(s, call, ev);
      forall id | id in t.calls ensures Sound(strays, t.files, t.calls[id]) {
        if id == ev.id && !ev.Derive? {
          OwnStepKeepsSound(strays, s, call, ev);
        } else {
          assert id != ev.id ==> Apart(s.calls[id], call);
          OthersStepKeepsSound(strays, s, call, ev, s.calls[id]);
        }
      }
      AllStayApart(strays, s, call, ev);
  }

  lemma AllStayApart(strays: bool, s: State, call: Call, ev: Event)
    requires Inv(strays, s) && !ev.Begin? && !ev.DeriveStray? && ev.id in s.calls && s.calls[ev.id] == call
    requires StepCall(s, call, ev).Some?
    ensures var t := StepCall(s, call, ev).value;
            forall a, b | a in t.calls && b in t.calls && a != b :: Apart(t.calls[a], t.calls[b])
  {
    var t := StepCall(s, call, ev).value;
    OnlyOwnCallChanges(s, call, ev);
    forall a, b | a in t.calls && b in t.calls && a != b ensures Apart(t.calls[a], t.calls[b]) {
      assert Apart(s.calls[a], s.calls[b]);
      if a == ev.id { StepKeepsApart(strays, s, call, ev, s.calls[b]); }
      if b == ev.id { StepKeepsApart(strays, s, call, ev, s.calls[a]); }
    }
  }

  lemma OnlyOwnCallChanges(s: State, call: Call, ev: Event)
    requires !ev.Begin? && !ev.DeriveStray? && ev.id in s.calls && s.calls[ev.id] == call && StepCall(s, call, ev).Some?
    ensures var t := StepCall(s, call, ev).value;
            && t.calls.Keys == s.calls.Keys
            && (forall id | id in s.calls && id != ev.id :: t.calls[id] == s.calls[id])
            && (ev.Derive? ==> t.calls == s.calls)
            && (call.pc.Done? ==> t.calls[ev.id] == call)
  {
  }

  lemma {:induction false} RunKeepsInv(strays: bool, s: State, evs: seq<Event>)
    requires s.calls == map[] && Run(strays, s, evs).Some?
    ensures Inv(strays, Run(strays, s, evs).value)
  {
    if evs != [] {
      RunKeepsInv(strays, s, evs[..|evs| - 1]);
      StepKeepsInv(strays, Run(strays, s, evs[..|evs| - 1]).value, evs[|evs| - 1]);
    }
  }

  lemma {:induction false} DoneStays(strays: bool, s: State, evs: seq<Event>, id: nat)
    requires Run(strays, s, evs).Some? && id in s.calls && s.calls[id].pc.Done?
    ensures id in Run(strays, s, evs).value.calls && Run(strays, s, evs).value.calls[id] == s.calls[id]
  {
    if evs != [] {
      DoneStays(strays, s, evs[..|evs| - 1], id);
      var t, ev := Run(strays, s, evs[..|evs| - 1]).value, evs[|evs| - 1];
      if !ev.Begin? && !ev.DeriveStray? { OnlyOwnCallChanges(t, t.calls[ev.id], ev); }
    }
  }

  lemma {:induction false} RunConcat(strays: bool, s: State, first: seq<Event>, later: seq<Event>)
    requires Run(strays, s, first + later).Some?
    ensures Run(strays, s, first).Some?
    ensures Run(strays, Run(strays, s, first).value, later) == Run(strays, s, first + later)
  {
    if later == [] {
      assert first + later == first;
    } else {
      var all, front := first + later, later[..|later| - 1];
      assert all[..|all| - 1] == first + front;
      RunConcat(strays, s, first, front);
    }
  }

  /** Nothing a successful call has stored is ever overwritten: whatever calls
      and classifier writes come later, its body and all its attachments keep
      their bytes. */
  lemma StoredFilesSurvive(strays: bool, s: State, first: seq<Event>, later: seq<Event>, id: nat)
    requires s.calls == map[] && Run(strays, s, first + later).Some?
    requires Run(strays, s, first).Some? && id in Run(strays, s, first).value.calls
    requires Run(strays, s, first).value.calls[id].pc.Done?
    ensures var call, files := Run(strays, s, first).value.calls[id], Run(strays, s, first + later).value.files;
            && BodyName(call.prefix) in files && files[BodyName(call.prefix)] == call.msg.body
            && forall i | 0 <= i < |call.msg.attachments| ::
                 NameOf(call, i) in files && files[NameOf(call, i)] == call.msg.attachments[i].data
  {
    RunConcat(strays, s, first, later);
    DoneStays(strays, Run(strays, s, first).value, later, id);
    RunKeepsInv(strays, s, first + later);
    var t := Run(strays, s, first + later).value;
    assert Sound(strays, t.files, t.calls[id]);
  }

  /** Two calls never end up with the same prefix. */
  lemma PrefixesAreDistinct(strays: bool, s: State, evs: seq<Event>, a: nat, b: nat)
    requires s.calls == map[] && Run(strays, s, evs).Some? && a != b
    requires a in Run(strays, s, evs).value.calls && b in Run(strays, s, evs).value.calls
    requires Run(strays, s, evs).value.calls[a].prefix != ""
    ensures Run(strays, s, evs).value.calls[a].prefix != Run(strays, s, evs).value.calls[b].prefix
  {
    RunKeepsInv(strays, s, evs);
    var t := Run(strays, s, evs).value;
    assert Apart(t.calls[a], t.calls[b]);
  }
}
