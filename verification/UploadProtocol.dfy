/** The life of one upload on a deployment of many replicas, as a machine whose
    steps interleave freely. Session and file ids are used once, so uploads share
    nothing but the clock and one upload is all there is to model. */
module UploadProtocol {
  import opened Prelude
  import opened UploadSessions

  /** Why AssembleChunks gave up. */
  datatype Cause = MissingChunk | Cancelled | IOError | TempLost

  /** Where a replica's assembly goroutine stands. `Copying(t, k)` has chunks
      0..k-1 in the temporary blob t; `InPlace` has renamed it; `Recorded` has
      finished the session and still has to delete the chunks. */
  datatype Phase =
    | Starting
    | Copying(temp: nat, copied: nat)
    | InPlace
    | Recorded
    | Stopped(cause: Cause)

  datatype Worker = Worker(phase: Phase, cancelled: bool)

  /** The files row of the upload: absent, live, or soft-deleted. */
  datatype FileRow = NoFile | LiveFile | DeletedFile

  /** `admitted` and `saved` are the chunk requests that passed the session check
      and those that wrote their chunk; a request may be delayed for ever.
      `cancelledLate` only records that the session was cancelled while hidden. */
  datatype Upload = Upload(
    now: Time,
    session: Option<Session>,
    chunks: map<nat, Bytes>,
    temps: map<nat, Bytes>,
    nextTemp: nat,
    blob: Option<Bytes>,
    file: FileRow,
    workers: map<Replica, Worker>,
    admitted: set<nat>,
    saved: set<nat>,
    cancelledLate: bool)

  /** Requests of the uploading client, on whichever replica they land. */
  datatype ClientEvent =
    | AdmitChunk(requested: int)
    | SaveChunk(index: nat)
    | RecordChunk(index: nat)
    | Complete
    | Finalize(marked: bool)
    | Cancel

  /** Steps of one replica's assembly of the upload. */
  datatype WorkerEvent =
    | Claim
    | Renew
    | Interrupt
    | Crash
    | CheckDir
    | CopyChunk
    | FailIO
    | Rename
    | Finish
    | DeleteChunks
    | GiveUp

  /** The clock, and cleanup run by any replica. */
  datatype UpkeepEvent =
    | Tick(seconds: nat)
    | TakeExpired
    | SweepChunks
    | SweepTemp(temp: nat)
    | SweepBlob
    | DeleteFileRow
    | DeleteBlob

  datatype Event = Client(c: ClientEvent) | At(r: Replica, w: WorkerEvent) | Upkeep(k: UpkeepEvent)

  function Init(now: Time): Upload {
    Upload(now, Some(Fresh(now)), map[], map[], 0, None, NoFile, map[], {}, {}, false)
  }

  function WithWorker(u: Upload, r: Replica, phase: Phase): Upload
    requires r in u.workers
  {
    u.(workers := u.workers[r := u.workers[r].(phase := phase)])
  }

  function WithoutWorker(u: Upload, r: Replica): Upload {
    u.(workers := u.workers - {r})
  }

  /** removeSessionFiles, once the session row is gone. */
  function DropSession(u: Upload): Upload {
    u.(session := None, chunks := map[], blob := if u.file == NoFile then None else u.blob)
  }

  function ClaimStep(u: Upload, r: Replica): Upload {
    if r in u.workers || u.session.None? then u
    else
      match Claimed(u.session.value, u.now, r)
      case None => u
      case Some(s) =>
        u.(session := Some(s), workers := u.workers[r := Worker(Starting, false)])
  }

  function RenewStep(u: Upload, r: Replica): Upload {
    if r !in u.workers then u
    else
      match (if u.session.None? then None else Renewed(u.session.value, u.now, r))
      case Some(s) => u.(session := Some(s))
      case None => u.(workers := u.workers[r := u.workers[r].(cancelled := true)])
  }

  function CheckDirStep(content: seq<Bytes>, u: Upload, r: Replica): Upload {
    if r !in u.workers || u.workers[r].phase != Starting then u
    else if Below(|content|) <= u.chunks.Keys then
      WithWorker(u, r, Copying(u.nextTemp, 0)).(temps := u.temps[u.nextTemp := []], nextTemp := u.nextTemp + 1)
    else WithWorker(u, r, Stopped(MissingChunk))
  }

  /** Closing the temporary blob and removing it, after an error. */
  function Abandon(u: Upload, r: Replica, cause: Cause): Upload
    requires r in u.workers && u.workers[r].phase.Copying?
  {
    WithWorker(u, r, Stopped(cause)).(temps := u.temps - {u.workers[r].phase.temp})
  }

  function CopyStep(content: seq<Bytes>, u: Upload, r: Replica): Upload {
    if r !in u.workers || !u.workers[r].phase.Copying? || u.workers[r].phase.copied >= |content| then u
    else
      var Copying(t, k) := u.workers[r].phase;
      if u.workers[r].cancelled then Abandon(u, r, Cancelled)
      else if k !in u.chunks then Abandon(u, r, MissingChunk)
      else
        // A swept temporary blob still takes writes, but under no name.
        var temps := if t in u.temps then u.temps[t := u.temps[t] + u.chunks[k]] else u.temps;
        WithWorker(u, r, Copying(t, k + 1)).(temps := temps)
  }

  function FailIOStep(u: Upload, r: Replica): Upload {
    if r !in u.workers then u
    else if u.workers[r].phase.Copying? then Abandon(u, r, IOError)
    else if u.workers[r].phase == Starting then WithWorker(u, r, Stopped(IOError))
    else u
  }

  function RenameStep(content: seq<Bytes>, u: Upload, r: Replica): Upload {
    if r !in u.workers || !u.workers[r].phase.Copying? || u.workers[r].phase.copied < |content| then u
    else
      var t := u.workers[r].phase.temp;
      if t in u.temps
      then WithWorker(u, r, InPlace).(blob := Some(u.temps[t]), temps := u.temps - {t})
      else WithWorker(u, r, Stopped(TempLost))
  }

  function FinishStep(u: Upload, r: Replica): Upload {
    if r !in u.workers || u.workers[r].phase != InPlace then u
    else
      match (if u.session.None? then None else Finished(u.session.value, u.now, r))
      case Some(s) => WithWorker(u, r, Recorded).(session := Some(s))
      case None => WithoutWorker(u, r)
  }

  function GiveUpStep(u: Upload, r: Replica): Upload {
    if r !in u.workers || !u.workers[r].phase.Stopped? then u
    else
      var after :=
        if u.session.None? then None
        else if u.workers[r].cancelled then Released(u.session.value, r)
        else FailedBy(u.session.value, r);
      WithoutWorker(u, r).(session := if after.Some? then after else u.session)
  }

  function FinalizeStep(u: Upload, marked: bool): Upload {
    if u.session.None? || !Live(u.session.value, u.now) then u
    else
      var s := u.session.value;
      var done := if marked then Some(s.(state := Finalized)) else u.session;
      if u.file != NoFile then
        if s.state == Finalized then u else u.(session := done)
      else if s.state == Assembled && u.blob.Some? then u.(session := done, file := LiveFile)
      else u
  }

  function CancelStep(u: Upload): Upload {
    if u.session.None? then u.(chunks := map[])
    else if !Live(u.session.value, u.now) then u.(chunks := map[], cancelledLate := true)
    else if u.session.value.state == Finalized then u
    else DropSession(u)
  }

  function ClientStep(content: seq<Bytes>, u: Upload, c: ClientEvent): Upload {
    match c
    case AdmitChunk(requested) =>
      if u.session.Some? && Live(u.session.value, u.now) && 0 <= requested < |content|
         && u.session.value.state == Uploading
      then u.(admitted := u.admitted + {requested}) else u
    case SaveChunk(index) =>
      if index in u.admitted && index < |content|
      then u.(chunks := u.chunks[index := content[index]], saved := u.saved + {index}) else u
    case RecordChunk(index) =>
      if index !in u.saved || u.session.None? then u
      else
        var s := UploadSessions.Recorded(u.session.value, u.now, index);
        if s.Some? then u.(session := s) else u
    case Complete =>
      if u.session.None? then u
      else
        var res := Started(u.session.value, u.now, |content|);
        if res.Returned? then u.(session := Some(res.session)) else u
    case Finalize(marked) => FinalizeStep(u, marked)
    case Cancel => CancelStep(u)
  }

  function WorkerStep(content: seq<Bytes>, u: Upload, r: Replica, w: WorkerEvent): Upload {
    match w
    case Claim => ClaimStep(u, r)
    case Renew => RenewStep(u, r)
    case Interrupt =>
      if r in u.workers then u.(workers := u.workers[r := u.workers[r].(cancelled := true)]) else u
    case Crash => WithoutWorker(u, r)
    case CheckDir => CheckDirStep(content, u, r)
    case CopyChunk => CopyStep(content, u, r)
    case FailIO => FailIOStep(u, r)
    case Rename => RenameStep(content, u, r)
    case Finish => FinishStep(u, r)
    case DeleteChunks =>
      if r in u.workers && u.workers[r].phase == Recorded then WithoutWorker(u, r).(chunks := map[]) else u
    case GiveUp => GiveUpStep(u, r)
  }

  function UpkeepStep(u: Upload, k: UpkeepEvent): Upload {
    match k
    case Tick(seconds) => u.(now := u.now + seconds)
    case TakeExpired =>
      if u.session.Some? && Expired(u.session.value, u.now) then DropSession(u) else u
    case SweepChunks => if u.session.None? then u.(chunks := map[]) else u
    case SweepTemp(t) => u.(temps := u.temps - {t})
    case SweepBlob => if u.session.None? && u.file == NoFile then u.(blob := None) else u
    case DeleteFileRow => if u.file == LiveFile then u.(file := DeletedFile) else u
    case DeleteBlob => if u.file == DeletedFile then u.(blob := None) else u
  }

  /** One step of the deployment; a step that is not enabled changes nothing. */
  function Apply(content: seq<Bytes>, u: Upload, e: Event): Upload {
    match e
    case Client(c) => ClientStep(content, u, c)
    case At(r, w) => WorkerStep(content, u, r, w)
    case Upkeep(k) => UpkeepStep(u, k)
  }

  function Run(content: seq<Bytes>, u: Upload, events: seq<Event>): Upload {
    if events == [] then u
    else Apply(content, Run(content, u, events[..|events| - 1]), events[|events| - 1])
  }

  lemma {:induction false} RunAppend(content: seq<Bytes>, u: Upload, first: seq<Event>, second: seq<Event>)
    ensures Run(content, u, first + second) == Run(content, Run(content, u, first), second)
  {
    if second == [] {
      assert first + second == first;
    } else {
      var init := second[..|second| - 1];
      assert (first + second)[..|first + second| - 1] == first + init;
      RunAppend(content, u, first, init);
    }
  }

  // --- What every step keeps ------------------------------------------------

  /** The session can still need its chunks. */
  predicate NeedsChunks(s: Session) {
    s.state == Uploading || s.state == Assembling || s.state == Failed
  }

  predicate ChunksWhole(content: seq<Bytes>, u: Upload) {
    && (forall i :: i in u.chunks ==> i < |content| && u.chunks[i] == content[i])
    && (forall i :: i in u.admitted ==> i < |content|)
    && u.saved <= u.admitted
  }

  /** A worker only exists after assembly started; it copies a prefix of the
      chunks, and an outcome it holds agrees with what the session still needs. */
  predicate WorkerSound(content: seq<Bytes>, u: Upload, w: Worker) {
    && (u.session.Some? ==> u.session.value.state != Uploading)
    && match w.phase
       case Starting => true
       case Copying(t, k) =>
         t < u.nextTemp && k <= |content| && (t in u.temps ==> u.temps[t] == Concat(content[..k]))
       case InPlace => StillNeeded(u) ==> u.blob.Some?
       case Recorded => !StillNeeded(u)
       case Stopped(cause) =>
         && (cause == Cancelled ==> w.cancelled)
         && (cause == MissingChunk && StillNeeded(u) ==> u.cancelledLate)
  }

  /** The session exists and can still need its chunks. */
  predicate StillNeeded(u: Upload) {
    u.session.Some? && NeedsChunks(u.session.value)
  }

  predicate WorkersSound(content: seq<Bytes>, u: Upload) {
    && (forall t :: t in u.temps ==> t < u.nextTemp)
    && (forall r :: r in u.workers ==> WorkerSound(content, u, u.workers[r]))
    && (forall r, q | r in u.workers && q in u.workers && r != q ::
          u.workers[r].phase.Copying? && u.workers[q].phase.Copying? ==>
            u.workers[r].phase.temp != u.workers[q].phase.temp)
  }

  predicate BlobWhole(content: seq<Bytes>, u: Upload) {
    && (u.blob.Some? ==> u.blob.value == Concat(content))
    && (u.file == LiveFile ==> u.blob.Some?)
  }

  predicate SessionSound(content: seq<Bytes>, u: Upload, s: Session) {
    && (s.owner.Some? <==> s.leaseUntil.Some?)
    && (s.owner.Some? ==> s.state == Assembling)
    && s.recorded <= u.saved
    && (s.state == Assembling || s.state == Failed ==> Below(|content|) <= s.recorded)
    && (!u.cancelledLate && NeedsChunks(s) ==> u.saved <= u.chunks.Keys)
    && (s.state == Finalized ==> u.file != NoFile)
    && (u.file != NoFile ==> s.state == Assembled || s.state == Finalized)
    && (s.state == Assembled && u.file == NoFile ==> u.blob.Some?)
  }

  predicate Inv(content: seq<Bytes>, u: Upload) {
    && ChunksWhole(content, u)
    && WorkersSound(content, u)
    && BlobWhole(content, u)
    && (u.session.Some? ==> SessionSound(content, u, u.session.value))
  }

  lemma InitInv(content: seq<Bytes>, now: Time)
    ensures Inv(content, Init(now))
  {
  }

  /** Steps that leave the workers and their temporary blobs alone. */
  lemma WorkersFrame(content: seq<Bytes>, u: Upload, v: Upload)
    requires WorkersSound(content, u)
    requires v.workers == u.workers && v.temps == u.temps && v.nextTemp == u.nextTemp
    requires StillNeeded(v) ==> StillNeeded(u) && v.blob == u.blob
    requires u.cancelledLate ==> v.cancelledLate
    requires v.session.Some? ==> u.session.Some?
    requires v.session.Some? && v.session.value.state == Uploading ==> u.session.value.state == Uploading
    ensures WorkersSound(content, v)
  {
    forall r | r in v.workers
      ensures WorkerSound(content, v, v.workers[r])
    {
      assert WorkerSound(content, u, u.workers[r]);
    }
  }

  /** Steps that only give one worker a new, sound position. */
  lemma SetWorkerSound(content: seq<Bytes>, u: Upload, r: Replica, w: Worker)
    requires WorkersSound(content, u) && WorkerSound(content, u, w)
    requires w.phase.Copying? ==> forall q :: q in u.workers && q != r && u.workers[q].phase.Copying? ==>
               u.workers[q].phase.temp != w.phase.temp
    ensures WorkersSound(content, u.(workers := u.workers[r := w]))
  {
    hide Concat;
    var v := u.(workers := u.workers[r := w]);
    assert forall q :: q in v.workers ==> v.workers[q] == w || (q in u.workers && v.workers[q] == u.workers[q]);
  }

  lemma SetWorkerInv(content: seq<Bytes>, u: Upload, r: Replica, w: Worker)
    requires Inv(content, u) && WorkerSound(content, u, w)
    requires w.phase.Copying? ==> forall q :: q in u.workers && q != r && u.workers[q].phase.Copying? ==>
               u.workers[q].phase.temp != w.phase.temp
    ensures Inv(content, u.(workers := u.workers[r := w]))
  {
    SetWorkerSound(content, u, r, w);
    hide WorkersSound, WorkerSound, Concat, Below;
  }

  lemma RemoveWorkerInv(content: seq<Bytes>, u: Upload, r: Replica)
    requires Inv(content, u)
    ensures Inv(content, WithoutWorker(u, r))
  {
  }

  /** Steps that only update the session row. */
  lemma SetSessionInv(content: seq<Bytes>, u: Upload, s: Session)
    requires Inv(content, u) && u.session.Some?
    requires NeedsChunks(s) ==> NeedsChunks(u.session.value)
    requires s.state == Uploading ==> u.session.value.state == Uploading
    requires SessionSound(content, u, s)
    ensures Inv(content, u.(session := Some(s)))
  {
    WorkersFrame(content, u, u.(session := Some(s)));
  }

  lemma ChunkInv(content: seq<Bytes>, u: Upload, c: ClientEvent)
    requires Inv(content, u) && (c.AdmitChunk? || c.SaveChunk?)
    ensures Inv(content, ClientStep(content, u, c))
  {
    WorkersFrame(content, u, ClientStep(content, u, c));
  }

  lemma RecordInv(content: seq<Bytes>, u: Upload, index: nat)
    requires Inv(content, u)
    ensures Inv(content, ClientStep(content, u, RecordChunk(index)))
  {
    var v := ClientStep(content, u, RecordChunk(index));
    if v != u {
      SetSessionInv(content, u, v.session.value);
    }
  }

  lemma CompleteInv(content: seq<Bytes>, u: Upload)
    requires Inv(content, u)
    ensures Inv(content, ClientStep(content, u, Complete))
  {
    var v := ClientStep(content, u, Complete);
    if v != u {
      SubsetSize(u.session.value.recorded, Below(|content|));
      SetSessionInv(content, u, v.session.value);
    }
  }

  lemma ClaimInv(content: seq<Bytes>, u: Upload, r: Replica)
    requires Inv(content, u)
    ensures Inv(content, ClaimStep(u, r))
  {
  }

  lemma RenewInv(content: seq<Bytes>, u: Upload, r: Replica)
    requires Inv(content, u)
    ensures Inv(content, RenewStep(u, r))
  {
    if r in u.workers {
      if u.session.Some? && Fenced(u.session.value, r) {
        SetSessionInv(content, u, RenewStep(u, r).session.value);
      } else {
        SetWorkerInv(content, u, r, u.workers[r].(cancelled := true));
      }
    }
  }

  lemma NewTempInv(content: seq<Bytes>, u: Upload)
    requires Inv(content, u)
    ensures Inv(content, u.(temps := u.temps[u.nextTemp := []], nextTemp := u.nextTemp + 1))
  {
  }

  lemma CheckDirInv(content: seq<Bytes>, u: Upload, r: Replica)
    requires Inv(content, u)
    ensures Inv(content, CheckDirStep(content, u, r))
  {
    if r in u.workers && u.workers[r].phase == Starting {
      if Below(|content|) <= u.chunks.Keys {
        NewTempInv(content, u);
        var v := u.(temps := u.temps[u.nextTemp := []], nextTemp := u.nextTemp + 1);
        SetWorkerInv(content, v, r, u.workers[r].(phase := Copying(u.nextTemp, 0)));
      } else {
        SetWorkerInv(content, u, r, u.workers[r].(phase := Stopped(MissingChunk)));
      }
    }
  }

  lemma SweepTempInv(content: seq<Bytes>, u: Upload, t: nat)
    requires Inv(content, u)
    ensures Inv(content, u.(temps := u.temps - {t}))
  {
  }

  lemma AbandonInv(content: seq<Bytes>, u: Upload, r: Replica, cause: Cause)
    requires Inv(content, u) && r in u.workers && u.workers[r].phase.Copying?
    requires cause == MissingChunk ==> exists i: nat :: i < |content| && i !in u.chunks
    requires cause == Cancelled ==> u.workers[r].cancelled
    ensures Inv(content, Abandon(u, r, cause))
  {
    SetWorkerInv(content, u, r, u.workers[r].(phase := Stopped(cause)));
    SweepTempInv(content, WithWorker(u, r, Stopped(cause)), u.workers[r].phase.temp);
  }

  /** A temporary blob no worker is copying into may hold anything. */
  lemma LooseTempInv(content: seq<Bytes>, u: Upload, t: nat, data: Bytes)
    requires Inv(content, u) && t in u.temps
    requires forall r :: r in u.workers && u.workers[r].phase.Copying? ==> u.workers[r].phase.temp != t
    ensures Inv(content, u.(temps := u.temps[t := data]))
  {
  }

  lemma AppendInv(content: seq<Bytes>, u: Upload, r: Replica, t: nat, k: nat)
    requires Inv(content, u) && r in u.workers && u.workers[r].phase == Copying(t, k)
    requires k < |content| && k in u.chunks && t in u.temps
    ensures Inv(content, WithWorker(u, r, Copying(t, k + 1)).(temps := u.temps[t := u.temps[t] + u.chunks[k]]))
  {
    var data := u.temps[t] + u.chunks[k];
    var w := u.workers[r];
    SetWorkerInv(content, u, r, w.(phase := Starting));
    var u1 := u.(workers := u.workers[r := w.(phase := Starting)]);
    LooseTempInv(content, u1, t, data);
    var u2 := u1.(temps := u1.temps[t := data]);
    ConcatTake(content, k);
    SetWorkerInv(content, u2, r, w.(phase := Copying(t, k + 1)));
    assert u2.workers[r := w.(phase := Copying(t, k + 1))] == u.workers[r := w.(phase := Copying(t, k + 1))];
  }

  lemma CopyInv(content: seq<Bytes>, u: Upload, r: Replica)
    requires Inv(content, u)
    ensures Inv(content, CopyStep(content, u, r))
  {
    hide SessionSound, BlobWhole, ChunksWhole, Concat;
    if r in u.workers && u.workers[r].phase.Copying? && u.workers[r].phase.copied < |content| {
      var Copying(t, k) := u.workers[r].phase;
      if u.workers[r].cancelled {
        AbandonInv(content, u, r, Cancelled);
      } else if k !in u.chunks {
        AbandonInv(content, u, r, MissingChunk);
      } else if t in u.temps {
        AppendInv(content, u, r, t, k);
      } else {
        SetWorkerInv(content, u, r, u.workers[r].(phase := Copying(t, k + 1)));
      }
    }
  }

  lemma FailIOInv(content: seq<Bytes>, u: Upload, r: Replica)
    requires Inv(content, u)
    ensures Inv(content, FailIOStep(u, r))
  {
    if r in u.workers {
      if u.workers[r].phase.Copying? {
        AbandonInv(content, u, r, IOError);
      } else if u.workers[r].phase == Starting {
        SetWorkerInv(content, u, r, u.workers[r].(phase := Stopped(IOError)));
      }
    }
  }

  lemma RenameInv(content: seq<Bytes>, u: Upload, r: Replica)
    requires Inv(content, u)
    ensures Inv(content, RenameStep(content, u, r))
  {
    assert content[..|content|] == content;
    if r in u.workers && u.workers[r].phase.Copying? && u.workers[r].phase.copied == |content| {
      var t := u.workers[r].phase.temp;
      if t in u.temps {
        var v := u.(blob := Some(u.temps[t]));
        assert Inv(content, v);
        SetWorkerInv(content, v, r, v.workers[r].(phase := InPlace));
        SweepTempInv(content, WithWorker(v, r, InPlace), t);
      } else {
        SetWorkerInv(content, u, r, u.workers[r].(phase := Stopped(TempLost)));
      }
    }
  }

  lemma FinishInv(content: seq<Bytes>, u: Upload, r: Replica)
    requires Inv(content, u)
    ensures Inv(content, FinishStep(u, r))
  {
    if r in u.workers && u.workers[r].phase == InPlace {
      if u.session.Some? && Fenced(u.session.value, r) {
        var v := u.(session := Finished(u.session.value, u.now, r));
        WorkersFrame(content, u, v);
        SetWorkerInv(content, v, r, v.workers[r].(phase := Recorded));
      } else {
        RemoveWorkerInv(content, u, r);
      }
    }
  }

  lemma InterruptInv(content: seq<Bytes>, u: Upload, r: Replica)
    requires Inv(content, u)
    ensures Inv(content, WorkerStep(content, u, r, Interrupt))
  {
    if r in u.workers {
      SetWorkerInv(content, u, r, u.workers[r].(cancelled := true));
    }
  }

  lemma DeleteChunksInv(content: seq<Bytes>, u: Upload, r: Replica)
    requires Inv(content, u)
    ensures Inv(content, WorkerStep(content, u, r, DeleteChunks))
  {
    RemoveWorkerInv(content, u, r);
  }

  lemma GiveUpInv(content: seq<Bytes>, u: Upload, r: Replica)
    requires Inv(content, u)
    ensures Inv(content, GiveUpStep(u, r))
  {
  }

  lemma WorkerInv(content: seq<Bytes>, u: Upload, r: Replica, w: WorkerEvent)
    requires Inv(content, u)
    ensures Inv(content, WorkerStep(content, u, r, w))
  {
    hide Inv, ClaimStep, RenewStep, CheckDirStep, CopyStep, FailIOStep, RenameStep, FinishStep, GiveUpStep;
    match w
    case Claim => ClaimInv(content, u, r);
    case Renew => RenewInv(content, u, r);
    case Interrupt => InterruptInv(content, u, r);
    case Crash => RemoveWorkerInv(content, u, r);
    case CheckDir => CheckDirInv(content, u, r);
    case CopyChunk => CopyInv(content, u, r);
    case FailIO => FailIOInv(content, u, r);
    case Rename => RenameInv(content, u, r);
    case Finish => FinishInv(content, u, r);
    case DeleteChunks => DeleteChunksInv(content, u, r);
    case GiveUp => GiveUpInv(content, u, r);
  }

  lemma FinalizeInv(content: seq<Bytes>, u: Upload, marked: bool)
    requires Inv(content, u)
    ensures Inv(content, FinalizeStep(u, marked))
  {
    WorkersFrame(content, u, FinalizeStep(u, marked));
  }

  lemma DropSessionInv(content: seq<Bytes>, u: Upload)
    requires Inv(content, u)
    ensures Inv(content, DropSession(u))
  {
    WorkersFrame(content, u, DropSession(u));
  }

  lemma CancelInv(content: seq<Bytes>, u: Upload)
    requires Inv(content, u)
    ensures Inv(content, CancelStep(u))
  {
    if u.session.Some? && Live(u.session.value, u.now) {
      DropSessionInv(content, u);
    } else {
      WorkersFrame(content, u, CancelStep(u));
    }
  }

  lemma SweepInv(content: seq<Bytes>, u: Upload, k: UpkeepEvent)
    requires Inv(content, u) && (k.Tick? || k.SweepChunks? || k.SweepBlob? || k.DeleteFileRow? || k.DeleteBlob?)
    ensures Inv(content, UpkeepStep(u, k))
  {
    WorkersFrame(content, u, UpkeepStep(u, k));
  }

  lemma StepInv(content: seq<Bytes>, u: Upload, e: Event)
    requires Inv(content, u)
    ensures Inv(content, Apply(content, u, e))
  {
    hide Inv, WorkerStep, FinalizeStep, CancelStep, DropSession, UploadSessions.Recorded, Started;
    match e
    case Client(AdmitChunk(_)) | Client(SaveChunk(_)) => ChunkInv(content, u, e.c);
    case Client(RecordChunk(index)) => RecordInv(content, u, index);
    case Client(Complete) => CompleteInv(content, u);
    case Client(Finalize(marked)) => FinalizeInv(content, u, marked);
    case Client(Cancel) => CancelInv(content, u);
    case At(r, w) => WorkerInv(content, u, r, w);
    case Upkeep(TakeExpired) => DropSessionInv(content, u);
    case Upkeep(SweepTemp(t)) => SweepTempInv(content, u, t);
    case Upkeep(k) => SweepInv(content, u, k);
  }
}
