/** The same steps as the code takes them, updating rows and files in place. Each
    method is proved to be its step of the protocol, and an undisturbed assembly
    to be one run of it. */
module UploadService {
  import opened Prelude
  import opened UploadSessions
  import opened UploadProtocol
  import opened UploadGuarantees
  import opened UploadDelivery
  import opened UploadCalls

  class UploadStore {
    const content: seq<Bytes>
    var now: Time
    var session: Option<Session>
    var chunks: map<nat, Bytes>
    var temps: map<nat, Bytes>
    var nextTemp: nat
    var blob: Option<Bytes>
    var file: FileRow
    var workers: map<Replica, Worker>
    var admitted: set<nat>
    var saved: set<nat>
    var cancelledLate: bool

    ghost function View(): Upload
      reads this
    {
      Upload(now, session, chunks, temps, nextTemp, blob, file, workers, admitted, saved, cancelledLate)
    }

    /** InitUpload, once the row is inserted. */
    constructor (content: seq<Bytes>, now: Time)
      ensures this.content == content && View() == Init(now)
    {
      this.content := content;
      this.now := now;
      session := Some(Fresh(now));
      chunks, temps, nextTemp := map[], map[], 0;
      blob, file, workers := None, NoFile, map[];
      admitted, saved, cancelledLate := {}, {}, false;
    }

    method SaveChunk(index: nat)
      requires index in admitted && index < |content|
      modifies this
      ensures View() == ClientStep(content, old(View()), ClientEvent.SaveChunk(index))
    {
      chunks := chunks[index := content[index]];
      saved := saved + {index};
    }

    /** The guarded update that extends the session, then the chunk row. */
    method RecordChunk(index: nat) returns (accepted: bool)
      requires index in saved
      modifies this`session
      ensures View() == ClientStep(content, old(View()), ClientEvent.RecordChunk(index))
      ensures accepted <==> old(session.Some? && session.value.state == Uploading && session.value.expiresAt > now)
      ensures accepted ==>
                && session.Some? && session.value.recorded == old(session).value.recorded + {index}
                && session == Some(old(session).value.(recorded := session.value.recorded, expiresAt := now + 3600))
      ensures !accepted ==> session == old(session)
    {
      accepted := session.Some? && session.value.state == Uploading && session.value.expiresAt > now;
      if accepted {
        var s := session.value;
        s := s.(expiresAt := now + SESSION_TTL);
        s := s.(recorded := s.recorded + {index});
        session := Some(s);
      }
    }

    /** UploadChunk: check the session, write the chunk, note it. */
    method UploadChunk(index: int) returns (ok: bool)
      modifies this
      ensures ok <==> old(session.Some? && session.value.state == Uploading && session.value.expiresAt > now)
                      && 0 <= index < |content|
      ensures ok ==>
                && chunks == old(chunks)[index := content[index]]
                && session.Some? && session.value.recorded == old(session).value.recorded + {index}
                && session == Some(old(session).value.(recorded := session.value.recorded, expiresAt := now + 3600))
                && now == old(now) && file == old(file) && blob == old(blob) && workers == old(workers)
      ensures !ok ==> View() == old(View())
    {
      if session.None? || !Live(session.value, now) { return false; }
      if index < 0 || index >= |content| { return false; }
      if session.value.state != Uploading { return false; }
      admitted := admitted + {index};
      SaveChunk(index);
      ok := RecordChunk(index);
    }

    /** StartAssembly, under a row lock. */
    method StartAssembly() returns (res: StartResult)
      modifies this`session
      ensures View() == ClientStep(content, old(View()), Complete)
      ensures res == if old(session).None? then NotFound else Started(old(session).value, now, |content|)
    {
      if session.None? || session.value.expiresAt <= now { return NotFound; }
      var s := session.value;
      if s.state != Uploading && s.state != Failed { return Returned(s); }
      if |s.recorded| != |content| { return Incomplete; }
      s := s.(state := Assembling, owner := None, leaseUntil := None, expiresAt := now + PENDING_TTL);
      session := Some(s);
      return Returned(s);
    }

    /** startAssembly: only one goroutine per replica, and only with the lease. */
    method ClaimAssembly(r: Replica) returns (granted: bool)
      modifies this
      ensures View() == WorkerStep(content, old(View()), r, Claim)
      ensures granted <==> old(r !in workers && session.Some? && Claimable(session.value, now, r))
    {
      if r in workers || session.None? { return false; }
      var s := session.value;
      var free := s.leaseUntil.None? || s.leaseUntil.value < now || s.owner == Some(r);
      if s.state != Assembling || !free { return false; }
      session := Some(s.(owner := Some(r), leaseUntil := Some(now + ASSEMBLY_LEASE)));
      workers := workers[r := Worker(Starting, false)];
      return true;
    }

    /** One tick of the renewing goroutine; a lost lease cancels the assembly. */
    method RenewAssembly(r: Replica) returns (held: bool)
      requires r in workers
      modifies this
      ensures View() == WorkerStep(content, old(View()), r, Renew)
      ensures !held ==> session == old(session) && workers[r].cancelled
    {
      held := session.Some? && session.value.state == Assembling && session.value.owner == Some(r);
      if held {
        session := Some(session.value.(leaseUntil := Some(now + ASSEMBLY_LEASE)));
      } else {
        workers := workers[r := workers[r].(cancelled := true)];
      }
    }

    method CheckDir(r: Replica) returns (complete: bool)
      requires r in workers && workers[r].phase == Starting
      modifies this
      ensures View() == WorkerStep(content, old(View()), r, WorkerEvent.CheckDir)
      ensures complete <==> forall i: nat :: i < |content| ==> i in chunks
      ensures complete ==> temps == old(temps)[old(nextTemp) := []]
                           && workers == old(workers)[r := old(workers[r]).(phase := Copying(old(nextTemp), 0))]
      ensures !complete ==> temps == old(temps)
                            && workers == old(workers)[r := old(workers[r]).(phase := Stopped(MissingChunk))]
      ensures Kept(old(View()), View())
    {
      complete := true;
      for i := 0 to |content|
        invariant complete <==> forall j: nat :: j < i ==> j in chunks
        invariant View() == old(View())
      {
        if i !in chunks {
          complete := false;
        }
      }
      var w := workers[r];
      if complete {
        temps := temps[nextTemp := []];
        workers := workers[r := w.(phase := Copying(nextTemp, 0))];
        nextTemp := nextTemp + 1;
      } else {
        workers := workers[r := w.(phase := Stopped(MissingChunk))];
      }
    }

    /** One turn of the copy loop, its context check first. */
    method CopyChunk(r: Replica) returns (ok: bool)
      requires r in workers && workers[r].phase.Copying? && workers[r].phase.copied < |content|
      modifies this
      ensures View() == WorkerStep(content, old(View()), r, WorkerEvent.CopyChunk)
      ensures ok <==> old(!workers[r].cancelled && workers[r].phase.copied in chunks)
      ensures ok && old(workers[r].phase.temp in temps) ==>
                var Copying(t, k) := old(workers[r]).phase;
                && temps == old(temps)[t := old(temps)[t] + chunks[k]]
                && workers == old(workers)[r := old(workers[r]).(phase := Copying(t, k + 1))]
      ensures Kept(old(View()), View())
    {
      var w := workers[r];
      var t, k := w.phase.temp, w.phase.copied;
      ok := !w.cancelled && k in chunks;
      if !ok {
        temps := temps - {t};
        workers := workers[r := w.(phase := Stopped(if w.cancelled then Cancelled else MissingChunk))];
        return;
      }
      if t in temps {
        temps := temps[t := temps[t] + chunks[k]];
      }
      workers := workers[r := w.(phase := Copying(t, k + 1))];
    }

    method Rename(r: Replica) returns (ok: bool)
      requires r in workers && workers[r].phase.Copying? && workers[r].phase.copied == |content|
      modifies this
      ensures View() == WorkerStep(content, old(View()), r, WorkerEvent.Rename)
      ensures ok <==> old(workers[r].phase.temp in temps)
      ensures ok ==> blob == Some(old(temps[workers[r].phase.temp]))
                     && temps == old(temps) - {old(workers[r].phase.temp)}
                     && workers == old(workers)[r := old(workers[r]).(phase := InPlace)]
      ensures chunks == old(chunks) && session == old(session) && now == old(now)
    {
      var w := workers[r];
      var t := w.phase.temp;
      ok := t in temps;
      if ok {
        blob := Some(temps[t]);
        temps := temps - {t};
        workers := workers[r := w.(phase := InPlace)];
      } else {
        workers := workers[r := w.(phase := Stopped(TempLost))];
      }
    }

    /** The fenced update; false means the lease was lost. */
    method FinishAssembly(r: Replica) returns (finished: bool)
      requires r in workers && workers[r].phase == InPlace
      modifies this
      ensures View() == WorkerStep(content, old(View()), r, Finish)
      ensures finished <==> old(session.Some? && Fenced(session.value, r))
    {
      finished := session.Some? && session.value.state == Assembling && session.value.owner == Some(r);
      if finished {
        var s := session.value;
        var kept := if s.expiresAt < now + PENDING_TTL / 2 then now + PENDING_TTL / 2 else s.expiresAt;
        session := Some(s.(state := Assembled, owner := None, leaseUntil := None, expiresAt := kept));
        workers := workers[r := workers[r].(phase := Phase.Recorded)];
      } else {
        workers := workers - {r};
      }
    }

    method DeleteChunks(r: Replica)
      requires r in workers && workers[r].phase == Phase.Recorded
      modifies this
      ensures View() == WorkerStep(content, old(View()), r, WorkerEvent.DeleteChunks)
    {
      chunks := map[];
      workers := workers - {r};
    }

    /** Recording a failed assembly: released if interrupted, failed otherwise. */
    method RecordFailure(r: Replica)
      requires r in workers && workers[r].phase.Stopped?
      modifies this
      ensures View() == WorkerStep(content, old(View()), r, GiveUp)
    {
      if session.Some? && session.value.state == Assembling && session.value.owner == Some(r) {
        var s := session.value.(owner := None, leaseUntil := None);
        session := Some(if workers[r].cancelled then s else s.(state := Failed));
      }
      workers := workers - {r};
    }

    /** AssembleChunks: the blob is the join of the chunks in index order, or is
        left as it was; the chunks stay where they are. */
    method AssembleChunks(r: Replica) returns (ok: bool)
      requires r in workers && workers[r] == Worker(Starting, false)
      modifies this
      ensures ok <==> forall i: nat :: i < |content| ==> i in old(chunks)
      ensures ok ==>
                && blob == Some(Joined(old(chunks), |content|))
                && workers == old(workers)[r := Worker(InPlace, false)]
      ensures !ok ==> blob == old(blob) && workers == old(workers)[r := Worker(Stopped(MissingChunk), false)]
      ensures temps == if ok then old(temps) - {old(nextTemp)} else old(temps)
      ensures chunks == old(chunks) && session == old(session) && now == old(now)
    {
      hide WorkerStep;
      ghost var before := View();
      ok := CheckDir(r);
      if !ok { return; }
      ghost var t := before.nextTemp;
      var i := 0;
      while i < |content|
        invariant i <= |content| && Kept(before, View())
        invariant workers == before.workers[r := Worker(Copying(t, i), false)]
        invariant temps == before.temps[t := Joined(chunks, i)]
      {
        var copied := CopyChunk(r);
        i := i + 1;
      }
      ok := Rename(r);
    }

    /** The assembly goroutine, from claim to outcome. Only the lease holder
        finishes the session and deletes the chunks. */
    method Assemble(r: Replica)
      requires r in workers && workers[r] == Worker(Starting, false)
      modifies this
      ensures workers == old(workers) - {r}
      ensures old(Below(|content|) <= chunks.Keys) ==> blob == Some(Joined(old(chunks), |content|))
      ensures !old(Below(|content|) <= chunks.Keys) ==> blob == old(blob)
      ensures session == if old(session.None? || !Fenced(session.value, r)) then old(session)
                         else if old(Below(|content|) <= chunks.Keys) then Finished(old(session).value, now, r)
                         else FailedBy(old(session).value, r)
      ensures chunks == if old(session.Some? && Fenced(session.value, r) && Below(|content|) <= chunks.Keys)
                        then map[] else old(chunks)
    {
      var ok := AssembleChunks(r);
      if !ok {
        RecordFailure(r);
        return;
      }
      var finished := FinishAssembly(r);
      if finished {
        DeleteChunks(r);
      }
    }

    /** removeSessionFiles, after the row is gone. */
    method RemoveSessionFiles()
      modifies this
      ensures View() == old(View()).(chunks := map[], blob := if file == NoFile then None else old(blob))
    {
      chunks := map[];
      if blob.Some? && file == NoFile {
        blob := None;
      }
    }

    method CancelUpload()
      modifies this
      ensures View() == ClientStep(content, old(View()), Cancel)
    {
      if session.None? {
        chunks := map[];
      } else if !Live(session.value, now) {
        chunks, cancelledLate := map[], true;
      } else if session.value.state != Finalized {
        session := None;
        RemoveSessionFiles();
      }
    }

    method CleanupExpired()
      modifies this
      ensures View() == UpkeepStep(old(View()), TakeExpired)
    {
      if session.Some? && Expired(session.value, now) {
        session := None;
        RemoveSessionFiles();
      }
    }

    /** FinalizeUpload; `marked` is whether the last, unchecked update succeeds. */
    method FinalizeUpload(marked: bool) returns (ok: bool)
      modifies this
      ensures View() == ClientStep(content, old(View()), Finalize(marked))
      ensures ok <==> old(Finalizes(View(), Client(Finalize(marked))))
      ensures ok ==> file == if old(file) == NoFile then LiveFile else old(file)
      ensures ok && marked ==> session.Some? && session.value.state == Finalized
      ensures !ok ==> View() == old(View())
    {
      if session.None? || !Live(session.value, now) { return false; }
      var s := session.value;
      if file != NoFile {
        if s.state != Finalized && marked {
          session := Some(s.(state := Finalized));
        }
        return true;
      }
      if s.state != Assembled || blob.None? { return false; }
      file := LiveFile;
      if marked {
        session := Some(s.(state := Finalized));
      }
      return true;
    }
  }

  /** What an assembly leaves alone until it renames. */
  predicate Kept(u: Upload, v: Upload) {
    v.chunks == u.chunks && v.session == u.session && v.now == u.now && v.blob == u.blob
  }

  /** Chunks 0..n-1 joined in index order, straight from the files on disk. */
  function Joined(chunks: map<nat, Bytes>, n: nat): Bytes
    requires forall i: nat :: i < n ==> i in chunks
  {
    if n == 0 then [] else Joined(chunks, n - 1) + chunks[n - 1]
  }
}
