/** What every event of an upload changes, and when, in terms of the rows and files it
    finds. Durations are in seconds. */
module UploadCalls {
  import opened Prelude
  import opened UploadSessions
  import opened UploadProtocol
  import opened UploadGuarantees
  import opened UploadDelivery

  // --- The session row -----------------------------------------------------------------

  /** Requests still see the session: it has not expired, or a replica holds its lease. */
  predicate IsSeen(u: Upload) {
    && u.session.Some?
    && var s := u.session.value;
       s.expiresAt > u.now || (s.state == Assembling && s.leaseUntil.Some? && s.leaseUntil.value > u.now)
  }

  /** Replica r is at this point of the assembly and still owns it. */
  predicate Owns(u: Upload, r: Replica) {
    r in u.workers && u.session.Some? && u.session.value.state == Assembling && u.session.value.owner == Some(r)
  }

  predicate Completes(content: seq<Bytes>, u: Upload, e: Event) {
    && e == Client(Complete) && u.session.Some? && u.session.value.expiresAt > u.now
    && (u.session.value.state == Uploading || u.session.value.state == Failed)
    && forall i: nat | i < |content| :: i in u.session.value.recorded
  }

  /** Nobody else leases the assembly, and this replica is not at work on it. */
  predicate Claims(u: Upload, e: Event) {
    && e.At? && e.w == Claim && e.r !in u.workers && u.session.Some? && u.session.value.state == Assembling
    && var s := u.session.value;
       s.leaseUntil.None? || s.leaseUntil.value < u.now || s.owner == Some(e.r)
  }

  predicate Renews(u: Upload, e: Event) {
    e.At? && e.w == Renew && Owns(u, e.r)
  }

  predicate FinishesNow(u: Upload, e: Event) {
    e.At? && e.w == Finish && Owns(u, e.r) && u.workers[e.r].phase == InPlace
  }

  predicate GivesUp(u: Upload, e: Event) {
    e.At? && e.w == GiveUp && Owns(u, e.r) && u.workers[e.r].phase.Stopped?
  }

  /** A finalize that answers with the file. */
  predicate Finalizes(u: Upload, e: Event) {
    && e.Client? && e.c.Finalize? && IsSeen(u)
    && (u.file != NoFile || (u.session.value.state == Assembled && u.blob.Some?))
  }

  /** A cancel of a session that is seen and not final, or the cleanup of an expired one. */
  predicate Drops(u: Upload, e: Event) {
    || (e == CANCEL && IsSeen(u) && u.session.value.state != Finalized)
    || (e == Upkeep(TakeExpired) && u.session.Some? && u.session.value.expiresAt < u.now
        && !(u.session.value.state == Assembling
             && (u.session.value.leaseUntil.None? || u.session.value.leaseUntil.value > u.now)))
  }

  /** The row after an event: each call's update under its condition, and no other. */
  predicate RowFollows(content: seq<Bytes>, u: Upload, e: Event, s: Session, t: Session) {
    if e.Client? && e.c.RecordChunk? && Accepts(u, e, e.c.index) then
      t == s.(recorded := s.recorded + {e.c.index}, expiresAt := u.now + 3600)
    else if Completes(content, u, e) then
      t == Session(Assembling, None, None, u.now + 600, s.recorded)
    else if Claims(u, e) then t == s.(owner := Some(e.r), leaseUntil := Some(u.now + 30))
    else if Renews(u, e) then t == s.(leaseUntil := Some(u.now + 30))
    else if FinishesNow(u, e) then
      t == Session(Assembled, None, None, if s.expiresAt < u.now + 300 then u.now + 300 else s.expiresAt, s.recorded)
    else if GivesUp(u, e) then
      t == Session(if u.workers[e.r].cancelled then Assembling else Failed, None, None, s.expiresAt, s.recorded)
    else if Finalizes(u, e) && e.c.marked then t == s.(state := Finalized)
    else t == s
  }

  predicate SessionFollows(content: seq<Bytes>, u: Upload, e: Event) {
    var v := Apply(content, u, e);
    && (v.session.Some? <==> u.session.Some? && !Drops(u, e))
    && (v.session.Some? ==> RowFollows(content, u, e, u.session.value, v.session.value))
  }

  lemma CompleteRow(content: seq<Bytes>, u: Upload)
    requires Inv(content, u)
    ensures SessionFollows(content, u, Client(Complete))
  {
    hide WorkersSound, BlobWhole;
    if u.session.Some? {
      RecordedIsEverything(content, u.session.value.recorded);
    }
  }

  lemma ClosingRow(content: seq<Bytes>, u: Upload, c: ClientEvent)
    requires Inv(content, u) && (c.Finalize? || c.Cancel?)
    ensures SessionFollows(content, u, Client(c))
  {
    hide WorkersSound, ChunksWhole, BlobWhole;
  }

  lemma ChunkRow(content: seq<Bytes>, u: Upload, c: ClientEvent)
    requires c.AdmitChunk? || c.SaveChunk? || c.RecordChunk?
    ensures SessionFollows(content, u, Client(c))
  {
    hide Live;
  }

  lemma WorkerRow(content: seq<Bytes>, u: Upload, r: Replica, w: WorkerEvent)
    requires Inv(content, u)
    ensures SessionFollows(content, u, At(r, w))
  {
    hide WorkersSound, ChunksWhole, BlobWhole, Below;
  }

  lemma SessionChangesExactly(content: seq<Bytes>, u: Upload, e: Event)
    requires Inv(content, u)
    ensures SessionFollows(content, u, e)
  {
    hide Inv, ClientStep, WorkerStep;
    match e
    case Client(Complete) => CompleteRow(content, u); hide SessionFollows;
    case Client(Finalize(_)) | Client(Cancel) => ClosingRow(content, u, e.c); hide SessionFollows;
    case Client(c) => ChunkRow(content, u, c); hide SessionFollows;
    case At(r, w) => WorkerRow(content, u, r, w); hide SessionFollows;
    case Upkeep(_) =>
  }

  /** What completing answers. */
  lemma CompleteAnswers(content: seq<Bytes>, u: Upload)
    requires Inv(content, u) && u.session.Some?
    ensures
      var s, res := u.session.value, Started(u.session.value, u.now, |content|);
      var open := s.state == Uploading || s.state == Failed;
      && (res == NotFound <==> s.expiresAt <= u.now)
      && (res == Incomplete <==> u.now < s.expiresAt && open && !Completes(content, u, Client(Complete)))
      && (u.now < s.expiresAt && !open ==> res == Returned(s))
      && (Completes(content, u, Client(Complete)) ==>
            res == Returned(Session(Assembling, None, None, u.now + 600, s.recorded)))
  {
    hide WorkersSound, BlobWhole;
    RecordedIsEverything(content, u.session.value.recorded);
  }

  // --- Chunks, blobs and the file ------------------------------------------------------------

  predicate Admits(content: seq<Bytes>, u: Upload, e: Event, index: nat) {
    && e.Client? && e.c.AdmitChunk? && e.c.requested == index && index < |content|
    && u.session.Some? && u.session.value.state == Uploading && u.session.value.expiresAt > u.now
  }

  predicate Saves(content: seq<Bytes>, u: Upload, e: Event, index: nat) {
    e == Client(ClientEvent.SaveChunk(index)) && index in u.admitted && index < |content|
  }

  /** The chunks' directory goes: the session is dropped or was hidden, its assembly is done,
      or the sweep finds no session. */
  predicate ClearsChunks(u: Upload, e: Event) {
    || Drops(u, e) || (e == CANCEL && !IsSeen(u)) || (e == Upkeep(SweepChunks) && u.session.None?)
    || (e.At? && e.w == DeleteChunks && e.r in u.workers && u.workers[e.r].phase == Phase.Recorded)
  }

  /** Chunks come by an admitted request, with the client's bytes, and go all at once. */
  predicate ChunkFollows(content: seq<Bytes>, u: Upload, e: Event, index: nat) {
    var v := Apply(content, u, e);
    && (index in v.chunks <==> Saves(content, u, e, index) || (index in u.chunks && !ClearsChunks(u, e)))
    && (index in v.chunks ==>
          v.chunks[index] == if Saves(content, u, e, index) then content[index] else u.chunks[index])
    && (index in v.admitted <==> index in u.admitted || Admits(content, u, e, index))
    && (index in v.saved <==> index in u.saved || Saves(content, u, e, index))
  }

  lemma WorkerChunks(content: seq<Bytes>, u: Upload, r: Replica, w: WorkerEvent, index: nat)
    ensures ChunkFollows(content, u, At(r, w), index)
  {
    hide Below;
  }

  lemma ChunksChangeExactly(content: seq<Bytes>, u: Upload, e: Event, index: nat)
    ensures ChunkFollows(content, u, e, index)
  {
    hide ChunkFollows;
    match e
    case Client(c) => ClientChunks(content, u, c, index);
    case At(r, w) => WorkerChunks(content, u, r, w, index);
    case Upkeep(k) => UpkeepChunks(content, u, k, index);
  }

  lemma UpkeepChunks(content: seq<Bytes>, u: Upload, k: UpkeepEvent, index: nat)
    ensures ChunkFollows(content, u, Upkeep(k), index)
  {
  }

  lemma ClientChunks(content: seq<Bytes>, u: Upload, c: ClientEvent, index: nat)
    ensures ChunkFollows(content, u, Client(c), index)
  {
    hide UploadSessions.Recorded, Started;
  }

  /** A replica has copied every chunk into a temporary blob that is still there. */
  predicate Renames(content: seq<Bytes>, u: Upload, e: Event) {
    && e.At? && e.w == Rename && e.r in u.workers && u.workers[e.r].phase.Copying?
    && u.workers[e.r].phase.copied >= |content| && u.workers[e.r].phase.temp in u.temps
  }

  /** The final blob goes with a dropped session that made no file, or with the file. */
  predicate DropsBlob(u: Upload, e: Event) {
    || (u.file == NoFile && (Drops(u, e) || (e == Upkeep(SweepBlob) && u.session.None?)))
    || (e == Upkeep(DeleteBlob) && u.file == DeletedFile)
  }

  /** The blob comes by a rename alone; the file row by a finalize of an assembled upload,
      and it is deleted once. */
  predicate FileFollows(content: seq<Bytes>, u: Upload, e: Event) {
    var v := Apply(content, u, e);
    && v.blob == (if Renames(content, u, e) then Some(u.temps[u.workers[e.r].phase.temp])
                  else if DropsBlob(u, e) then None else u.blob)
    && v.file == (if Finalizes(u, e) && u.file == NoFile then LiveFile
                  else if e == Upkeep(DeleteFileRow) && u.file == LiveFile then DeletedFile else u.file)
    && v.now == u.now + (if e.Upkeep? && e.k.Tick? then e.k.seconds else 0)
    && (v.cancelledLate <==> u.cancelledLate || (e == CANCEL && u.session.Some? && !IsSeen(u)))
  }

  lemma WorkerFiles(content: seq<Bytes>, u: Upload, r: Replica, w: WorkerEvent)
    ensures FileFollows(content, u, At(r, w))
  {
    hide Below;
  }

  lemma FilesChangeExactly(content: seq<Bytes>, u: Upload, e: Event)
    ensures FileFollows(content, u, e)
  {
    hide WorkerStep, ClientStep;
    match e
    case Client(c) => ClientFiles(content, u, c); hide FileFollows;
    case At(r, w) => WorkerFiles(content, u, r, w); hide FileFollows;
    case Upkeep(_) => hide Renames;
  }

  lemma ClientFiles(content: seq<Bytes>, u: Upload, c: ClientEvent)
    ensures FileFollows(content, u, Client(c))
  {
    hide UploadSessions.Recorded, Started;
  }

  // --- The replicas at work ------------------------------------------------------------------

  /** Where a replica's assembly goes from here; None when it ends. */
  function Next(content: seq<Bytes>, u: Upload, r: Replica, w: WorkerEvent): Option<Phase>
    requires r in u.workers
  {
    match (u.workers[r].phase, w)
    case (_, Crash) => None
    case (Starting, CheckDir) =>
      Some(if forall i: nat | i < |content| :: i in u.chunks then Copying(u.nextTemp, 0) else Stopped(MissingChunk))
    case (Copying(t, k), CopyChunk) =>
      if k >= |content| then Some(Copying(t, k))
      else if u.workers[r].cancelled then Some(Stopped(Cancelled))
      else Some(if k in u.chunks then Copying(t, k + 1) else Stopped(MissingChunk))
    case (Copying(t, k), Rename) =>
      if k < |content| then Some(Copying(t, k)) else Some(if t in u.temps then InPlace else Stopped(TempLost))
    case (Starting, FailIO) => Some(Stopped(IOError))
    case (Copying(_, _), FailIO) => Some(Stopped(IOError))
    case (InPlace, Finish) => if Owns(u, r) then Some(Phase.Recorded) else None
    case (Recorded, DeleteChunks) => None
    case (Stopped(_), GiveUp) => None
    case (phase, _) => Some(phase)
  }

  predicate WorkersFollow(content: seq<Bytes>, u: Upload, e: Event, r: Replica) {
    var v := Apply(content, u, e);
    if !By(e, r) then
      (r in v.workers <==> r in u.workers) && (r in u.workers ==> v.workers[r] == u.workers[r])
    else if r !in u.workers then
      (r in v.workers <==> Claims(u, e)) && (Claims(u, e) ==> v.workers[r] == Worker(Starting, false))
    else
      && (r in v.workers <==> Next(content, u, r, e.w).Some?)
      && (r in v.workers ==>
            v.workers[r] == Worker(Next(content, u, r, e.w).value,
                                   u.workers[r].cancelled || e.w == Interrupt || (e.w == Renew && !Owns(u, r))))
  }

  lemma ClientsKeepWorkers(content: seq<Bytes>, u: Upload, c: ClientEvent)
    ensures
      var v := ClientStep(content, u, c);
      v.workers == u.workers && v.temps == u.temps && v.nextTemp == u.nextTemp
  {
    hide UploadSessions.Recorded, Started, Live;
  }

  lemma UpkeepKeepsWorkers(u: Upload, k: UpkeepEvent)
    ensures
      var v := UpkeepStep(u, k);
      && v.workers == u.workers && v.nextTemp == u.nextTemp
      && v.temps == if k.SweepTemp? then u.temps - {k.temp} else u.temps
  {
    hide Expired;
  }

  lemma StepsOwnWorker(content: seq<Bytes>, u: Upload, r: Replica, w: WorkerEvent, q: Replica)
    requires q != r
    ensures WorkersFollow(content, u, At(r, w), q)
  {
    hide Below;
  }

  lemma AssemblySteps(content: seq<Bytes>, u: Upload, r: Replica, w: WorkerEvent)
    requires r in u.workers
    requires w.CheckDir? || w.CopyChunk? || w.FailIO? || w.Rename?
    ensures WorkersFollow(content, u, At(r, w), r)
  {
  }

  lemma LeaseSteps(content: seq<Bytes>, u: Upload, r: Replica, w: WorkerEvent)
    requires r in u.workers ==> !w.CheckDir? && !w.CopyChunk? && !w.FailIO? && !w.Rename?
    ensures WorkersFollow(content, u, At(r, w), r)
  {
    hide Below;
  }

  lemma WorkersChangeExactly(content: seq<Bytes>, u: Upload, e: Event, r: Replica)
    ensures WorkersFollow(content, u, e, r)
  {
    if !e.At? {
      if e.Client? { ClientsKeepWorkers(content, u, e.c); } else { UpkeepKeepsWorkers(u, e.k); }
      hide ClientStep, UpkeepStep;
    } else {
      hide WorkersFollow, Apply;
      if e.r != r { StepsOwnWorker(content, u, e.r, e.w, r); }
      else if r in u.workers && (e.w.CheckDir? || e.w.CopyChunk? || e.w.FailIO? || e.w.Rename?) {
        AssemblySteps(content, u, r, e.w);
      } else {
        LeaseSteps(content, u, r, e.w);
      }
    }
  }

  /** The replica opens a temporary blob: it finds every chunk in the directory. */
  predicate OpensTemp(content: seq<Bytes>, u: Upload, e: Event) {
    && e.At? && e.w == WorkerEvent.CheckDir && e.r in u.workers && u.workers[e.r].phase == Starting
    && forall i: nat | i < |content| :: i in u.chunks
  }

  /** The replica copies its next chunk into t. */
  predicate CopiesInto(content: seq<Bytes>, u: Upload, e: Event, t: nat) {
    && e.At? && e.w == WorkerEvent.CopyChunk && e.r in u.workers && u.workers[e.r].phase.Copying?
    && u.workers[e.r].phase.temp == t && u.workers[e.r].phase.copied < |content|
    && !u.workers[e.r].cancelled && u.workers[e.r].phase.copied in u.chunks
  }

  /** The replica ends its copy into t: renamed, or removed after an error. */
  predicate EndsCopy(content: seq<Bytes>, u: Upload, e: Event, t: nat) {
    && e.At? && e.r in u.workers && u.workers[e.r].phase.Copying? && u.workers[e.r].phase.temp == t
    && var k := u.workers[e.r].phase.copied;
       || e.w == FailIO || (e.w == Rename && k >= |content|)
       || (e.w == WorkerEvent.CopyChunk && k < |content| && !CopiesInto(content, u, e, t))
  }

  /** A temporary blob is opened empty, grows by the next chunk, and goes when its replica
      ends the copy or a sweep takes it. */
  predicate TempFollows(content: seq<Bytes>, u: Upload, e: Event, t: nat) {
    var v := Apply(content, u, e);
    var opens := OpensTemp(content, u, e) && t == u.nextTemp;
    && (t in v.temps <==> opens || (t in u.temps && !EndsCopy(content, u, e, t) && e != Upkeep(SweepTemp(t))))
    && (t in v.temps ==>
          v.temps[t] == if opens then []
                        else if CopiesInto(content, u, e, t) then u.temps[t] + u.chunks[u.workers[e.r].phase.copied]
                        else u.temps[t])
    && v.nextTemp == u.nextTemp + if OpensTemp(content, u, e) then 1 else 0
  }

  lemma CheckTemps(content: seq<Bytes>, u: Upload, r: Replica, t: nat)
    ensures TempFollows(content, u, At(r, WorkerEvent.CheckDir), t)
  {
  }

  lemma CopyTemps(content: seq<Bytes>, u: Upload, r: Replica, t: nat)
    ensures TempFollows(content, u, At(r, WorkerEvent.CopyChunk), t)
  {
  }

  lemma EndTemps(content: seq<Bytes>, u: Upload, r: Replica, w: WorkerEvent, t: nat)
    requires w == Rename || w == FailIO
    ensures TempFollows(content, u, At(r, w), t)
  {
  }

  lemma QuietTemps(content: seq<Bytes>, u: Upload, r: Replica, w: WorkerEvent, t: nat)
    requires !w.CheckDir? && !w.CopyChunk? && w != Rename && w != FailIO
    ensures TempFollows(content, u, At(r, w), t)
  {
    LeasesKeepTemps(u, r);
    hide ClaimStep, RenewStep, FinishStep, GiveUpStep, CheckDirStep, CopyStep, RenameStep, FailIOStep;
  }

  lemma StepTemps(content: seq<Bytes>, u: Upload, r: Replica, w: WorkerEvent, t: nat)
    ensures TempFollows(content, u, At(r, w), t)
  {
    hide TempFollows;
    match w
    case CheckDir => CheckTemps(content, u, r, t);
    case CopyChunk => CopyTemps(content, u, r, t);
    case Rename | FailIO => EndTemps(content, u, r, w, t);
    case _ => QuietTemps(content, u, r, w, t);
  }

  lemma LeasesKeepTemps(u: Upload, r: Replica)
    ensures ClaimStep(u, r).temps == RenewStep(u, r).temps == u.temps
    ensures FinishStep(u, r).temps == GiveUpStep(u, r).temps == u.temps
    ensures ClaimStep(u, r).nextTemp == RenewStep(u, r).nextTemp == u.nextTemp
    ensures FinishStep(u, r).nextTemp == GiveUpStep(u, r).nextTemp == u.nextTemp
  {
  }

  lemma TempsChangeExactly(content: seq<Bytes>, u: Upload, e: Event, t: nat)
    ensures TempFollows(content, u, e, t)
  {
    if e.At? {
      StepTemps(content, u, e.r, e.w, t);
      hide TempFollows;
    } else {
      if e.Client? { ClientsKeepWorkers(content, u, e.c); } else { UpkeepKeepsWorkers(u, e.k); }
      hide ClientStep, UpkeepStep;
    }
  }
}
