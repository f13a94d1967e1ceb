/** What a whole upload achieves: which chunks count as recorded, and that a client which
    uploads every chunk, completes and finalizes has its file. */
module UploadDelivery {
  import opened Prelude
  import opened UploadSessions
  import opened UploadProtocol
  import opened UploadGuarantees

  // --- Which chunks are recorded ------------------------------------------------------

  /** A record of this chunk is accepted: it is on disk, and the session, still uploading,
      has not expired. */
  predicate Accepts(u: Upload, e: Event, index: nat) {
    && e == Client(ClientEvent.RecordChunk(index)) && index in u.saved
    && u.session.Some? && u.session.value.state == Uploading && u.session.value.expiresAt > u.now
  }

  predicate AcceptedAt(content: seq<Bytes>, now: Time, events: seq<Event>, index: nat, k: nat) {
    k < |events| && Accepts(From(content, now, events[..k]), events[k], index)
  }

  /** An accepted record adds its chunk to those recorded before and gives the session an
      hour from now; any other leaves everything alone. */
  lemma RecordAddsItsChunk(content: seq<Bytes>, u: Upload, index: nat)
    ensures
      var e := Client(ClientEvent.RecordChunk(index));
      var v := Apply(content, u, e);
      if Accepts(u, e, index) then
        && v.session.Some? && v.session.value.recorded == u.session.value.recorded + {index}
        && v.session.value.expiresAt == u.now + 3600 && v.session.value.state == Uploading
        && v.(session := u.session) == u
      else v == u
  {
  }

  lemma RecordedStep(content: seq<Bytes>, u: Upload, e: Event, index: nat)
    requires Inv(content, u) && Apply(content, u, e).session.Some?
    ensures u.session.Some?
    ensures index in Apply(content, u, e).session.value.recorded <==>
              index in u.session.value.recorded || Accepts(u, e, index)
  {
    hide WorkerStep, ClientStep, Inv, Expired;
    match e
    case Client(RecordChunk(i)) => RecordAddsItsChunk(content, u, i);
    case Client(c) => ClientKeepsRecorded(content, u, c);
    case At(r, w) => WorkerKeepsRecorded(content, u, r, w);
    case Upkeep(_) =>
  }

  lemma ClientKeepsRecorded(content: seq<Bytes>, u: Upload, c: ClientEvent)
    requires !c.RecordChunk?
    ensures
      var v := ClientStep(content, u, c);
      v.session.Some? ==> u.session.Some? && v.session.value.recorded == u.session.value.recorded
  {
    hide UploadSessions.Recorded, Live;
  }

  lemma WorkerKeepsRecorded(content: seq<Bytes>, u: Upload, r: Replica, w: WorkerEvent)
    ensures
      var v := WorkerStep(content, u, r, w);
      && (v.session.Some? <==> u.session.Some?)
      && (v.session.Some? ==> v.session.value.recorded == u.session.value.recorded)
  {
    hide Below;
  }

  /** Over every run a chunk is recorded if and only if a record of it was accepted. */
  lemma {:induction false} RecordedIffAccepted(content: seq<Bytes>, now: Time, events: seq<Event>, index: nat)
    requires From(content, now, events).session.Some?
    ensures index in From(content, now, events).session.value.recorded <==>
              exists k: nat :: AcceptedAt(content, now, events, index, k)
  {
    hide Apply, Inv, Accepts;
    if events == [] {
    } else {
      var last := |events| - 1;
      var prior := events[..last];
      ReachableInv(content, now, prior);
      RecordedStep(content, From(content, now, prior), events[last], index);
      RecordedIffAccepted(content, now, prior, index);
      assert forall k | 0 <= k <= last :: events[..k] == prior[..k];
      if k: nat :| AcceptedAt(content, now, prior, index, k) {
        assert AcceptedAt(content, now, events, index, k);
      }
      if k: nat :| AcceptedAt(content, now, events, index, k) {
        assert k == last || AcceptedAt(content, now, prior, index, k);
      }
      if Accepts(From(content, now, prior), events[last], index) {
        assert AcceptedAt(content, now, events, index, last);
      }
    }
  }

  // --- A whole upload --------------------------------------------------------------------

  /** Uploading one chunk after a wait. */
  function UploadOne(index: nat, wait: nat): seq<Event> {
    [Upkeep(Tick(wait)), Client(AdmitChunk(index)), Client(ClientEvent.SaveChunk(index)),
     Client(ClientEvent.RecordChunk(index))]
  }

  function Uploads(order: seq<nat>, waits: seq<nat>): seq<Event>
    requires |order| == |waits|
  {
    if order == [] then []
    else
      var n := |order| - 1;
      Uploads(order[..n], waits[..n]) + UploadOne(order[n], waits[n])
  }

  function Elements(order: seq<nat>): set<nat> {
    set i | i in order
  }

  /** Every chunk at least once, in any order, none of them later than the session allows. */
  predicate UploadsAll(content: seq<Bytes>, order: seq<nat>, waits: seq<nat>) {
    && |order| == |waits| && (forall k | 0 <= k < |order| :: order[k] < |content| && waits[k] < 3600)
    && (forall i: nat | i < |content| :: i in order)
  }

  /** An upload in progress that nothing else has touched. */
  predicate Uploaded(u: Upload, indices: set<nat>) {
    && u.session == Some(Session(Uploading, None, None, u.now + 3600, indices))
    && u.workers == map[] && u.file == NoFile && !u.cancelledLate
  }

  lemma RunFour(content: seq<Bytes>, u: Upload, a: Event, b: Event, c: Event, d: Event)
    ensures Run(content, u, [a, b, c, d])
         == Apply(content, Apply(content, Apply(content, Apply(content, u, a), b), c), d)
  {
    hide Apply;
    RunTwo(content, u, a, b);
    RunTwo(content, Run(content, u, [a, b]), c, d);
    RunAppend(content, u, [a, b], [c, d]);
    assert [a, b] + [c, d] == [a, b, c, d];
  }

  lemma OneMoreChunk(content: seq<Bytes>, u: Upload, indices: set<nat>, index: nat, wait: nat)
    requires Uploaded(u, indices) && index < |content| && wait < 3600
    ensures Uploaded(Run(content, u, UploadOne(index, wait)), indices + {index})
  {
    RunFour(content, u, Upkeep(Tick(wait)), Client(AdmitChunk(index)), Client(ClientEvent.SaveChunk(index)),
            Client(ClientEvent.RecordChunk(index)));
    hide Run;
  }

  lemma {:induction false} UploadsRun(content: seq<Bytes>, now: Time, order: seq<nat>, waits: seq<nat>)
    requires |order| == |waits|
    requires forall k | 0 <= k < |order| :: order[k] < |content| && waits[k] < 3600
    ensures Uploaded(From(content, now, Uploads(order, waits)), Elements(order))
  {
    hide Apply, Uploaded, UploadOne, Run;
    if order == [] {
      NothingUploaded(content, now);
      assert Elements(order) == {};
    } else {
      var n := |order| - 1;
      UploadsRun(content, now, order[..n], waits[..n]);
      OneMoreChunk(content, From(content, now, Uploads(order[..n], waits[..n])), Elements(order[..n]), order[n],
                   waits[n]);
      RunAppend(content, Init(now), Uploads(order[..n], waits[..n]), UploadOne(order[n], waits[n]));
      assert Elements(order) == Elements(order[..n]) + {order[n]};
    }
  }

  lemma NothingUploaded(content: seq<Bytes>, now: Time)
    ensures Uploaded(From(content, now, []), {})
  {
  }

  /** Complete after the last chunk, in time. */
  function Completed(order: seq<nat>, waits: seq<nat>, wait: nat): seq<Event>
    requires |order| == |waits|
  {
    Uploads(order, waits) + [Upkeep(Tick(wait)), Client(Complete)]
  }

  /** A client that uploads every chunk, in any order and with repeats, and then completes,
      has started the assembly. */
  lemma CompletesInAnyOrder(content: seq<Bytes>, now: Time, order: seq<nat>, waits: seq<nat>, wait: nat)
    requires UploadsAll(content, order, waits) && wait < 3600
    ensures
      var u := From(content, now, Completed(order, waits, wait));
      && u.session == Some(Session(Assembling, None, None, u.now + 600, Elements(order)))
      && u.workers == map[] && u.file == NoFile && !u.cancelledLate
  {
    hide Run, Uploads, Apply, Uploaded;
    var before := From(content, now, Uploads(order, waits));
    UploadsRun(content, now, order, waits);
    RunAppend(content, Init(now), Uploads(order, waits), [Upkeep(Tick(wait)), Client(Complete)]);
    RunTwo(content, before, Upkeep(Tick(wait)), Client(Complete));
    RecordedIsEverything(content, Elements(order));
    StartsAssembly(content, before, Elements(order), wait);
  }

  lemma StartsAssembly(content: seq<Bytes>, u: Upload, indices: set<nat>, wait: nat)
    requires Uploaded(u, indices) && |indices| == |content| && wait < 3600
    ensures
      var v := Apply(content, Apply(content, u, Upkeep(Tick(wait))), Client(Complete));
      && v.session == Some(Session(Assembling, None, None, v.now + 600, indices))
      && v.workers == map[] && v.file == NoFile && !v.cancelledLate
  {
  }

  /** And left undisturbed, one replica's assembly and one finalize make it a file: the
      client's chunks joined in index order, whatever order they came in. */
  lemma UploadDelivers(content: seq<Bytes>, now: Time, order: seq<nat>, waits: seq<nat>, wait: nat, r: Replica,
                       marked: bool)
    requires UploadsAll(content, order, waits) && wait < 3600
    ensures
      var events := Completed(order, waits, wait) + Takeover(|content|, r) + [Client(Finalize(marked))];
      var u := From(content, now, events);
      u.file == LiveFile && u.blob == Some(Concat(content))
  {
    hide Apply, Inv, Takeover, Completed;
    var completed := Completed(order, waits, wait);
    var u := From(content, now, completed);
    CompletesInAnyOrder(content, now, order, waits, wait);
    ReachableInv(content, now, completed);
    TakeoverSucceeds(content, u, r);
    RunAppend(content, Init(now), completed, Takeover(|content|, r));
    var assembled := completed + Takeover(|content|, r);
    var longer := RunMore(content, now, assembled, Client(Finalize(marked)));
    hide Run, UploadsAll;
    FinalizesAssembled(content, From(content, now, assembled), marked);
  }

  lemma FinalizesAssembled(content: seq<Bytes>, u: Upload, marked: bool)
    requires u.session.Some? && u.session.value.state == Assembled && u.session.value.expiresAt > u.now
    requires u.file == NoFile && u.blob.Some?
    ensures
      var v := Apply(content, u, Client(Finalize(marked)));
      v.file == LiveFile && v.blob == u.blob
  {
  }
}
