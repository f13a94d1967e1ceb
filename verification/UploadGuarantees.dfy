/** What the upload protocol guarantees over every run, whatever the interleaving. */
module UploadGuarantees {
  import opened Prelude
  import opened UploadSessions
  import opened UploadProtocol

  const CANCEL: Event := Client(Cancel)

  function From(content: seq<Bytes>, now: Time, events: seq<Event>): Upload {
    Run(content, Init(now), events)
  }

  lemma {:induction false} RunInv(content: seq<Bytes>, u: Upload, events: seq<Event>)
    requires Inv(content, u)
    ensures Inv(content, Run(content, u, events))
  {
    hide Apply, Inv;
    if events != [] {
      var before := events[..|events| - 1];
      RunInv(content, u, before);
      StepInv(content, Run(content, u, before), events[|events| - 1]);
    }
  }

  lemma ReachableInv(content: seq<Bytes>, now: Time, events: seq<Event>)
    ensures Inv(content, From(content, now, events))
  {
    hide Apply;
    InitInv(content, now);
    RunInv(content, Init(now), events);
  }

  /** No final blob is ever partial, an assembled upload has its whole blob, and
      a live file keeps it. */
  lemma BlobIsWhole(content: seq<Bytes>, now: Time, events: seq<Event>)
    ensures
      var u := From(content, now, events);
      && (u.blob.Some? ==> u.blob.value == Concat(content))
      && (u.session.Some? && u.session.value.state in {Assembled, Finalized} && u.file != DeletedFile ==>
            u.blob == Some(Concat(content)))
      && (u.file == LiveFile ==> u.blob == Some(Concat(content)))
  {
    hide Apply;
    ReachableInv(content, now, events);
  }

  predicate Advances(a: State, b: State) {
    || a == b
    || (a == Uploading && b == Assembling)
    || (a == Assembling && (b == Assembled || b == Failed))
    || (a == Failed && b == Assembling)
    || (a == Assembled && b == Finalized)
  }

  /** What one step may do to the session row, seen from a sound state. */
  predicate RowChange(u: Upload, v: Upload, e: Event) {
    || v.session == u.session
    || (u.session.Some? && v.session.None? && (e == CANCEL || e == Upkeep(TakeExpired)))
    || (u.session.Some? && v.session.Some? && AllowedUpdate(u, u.session.value, v.session.value, e))
  }

  predicate AllowedUpdate(u: Upload, s: Session, after: Session, e: Event) {
    match s.state
    case Uploading =>
      || (after.state == Uploading && e.Client? && e.c.RecordChunk?)
      || (after.state == Assembling && e == Client(Complete) && after.owner.None? && after.leaseUntil.None?)
    case Failed => after.state == Assembling && e == Client(Complete) && after.owner.None? && after.leaseUntil.None?
    case Assembling =>
      && e.At?
      && (match e.w
          case Claim =>
            after.state == Assembling && after.owner == Some(e.r) && Claimable(s, u.now, e.r) && e.r !in u.workers
          case Renew => after.state == Assembling && after.owner == Some(e.r) == s.owner && e.r in u.workers
          case Finish => after.state == Assembled && s.owner == Some(e.r) && e.r in u.workers
          case GiveUp =>
            && s.owner == Some(e.r) && e.r in u.workers && u.workers[e.r].phase.Stopped?
            && after.owner.None?
            && after.state == (if u.workers[e.r].cancelled then Assembling else Failed)
          case _ => false)
    case Assembled => after.state == Finalized && e.Client? && e.c.Finalize?
    case Finalized => false
  }

  lemma ClientRowChange(content: seq<Bytes>, u: Upload, c: ClientEvent)
    requires Inv(content, u)
    ensures RowChange(u, ClientStep(content, u, c), Client(c))
  {
    hide WorkersSound, ChunksWhole;
  }

  lemma WorkerRowChange(content: seq<Bytes>, u: Upload, r: Replica, w: WorkerEvent)
    requires Inv(content, u)
    ensures RowChange(u, WorkerStep(content, u, r, w), At(r, w))
  {
    hide WorkersSound, ChunksWhole, Below, Concat;
  }

  /** Every change of the row, in one place. */
  lemma RowChanges(content: seq<Bytes>, u: Upload, e: Event)
    requires Inv(content, u)
    ensures RowChange(u, Apply(content, u, e), e)
  {
    hide Inv, ClientStep, WorkerStep, AllowedUpdate;
    match e
    case Client(c) => ClientRowChange(content, u, c);
    case At(r, w) => WorkerRowChange(content, u, r, w);
    case Upkeep(_) =>
  }

  /** Although MarkUploadFinalized has no guard on the state, a session only moves
      along the documented path, and a dropped session never comes back. */
  lemma StatesOnlyAdvance(content: seq<Bytes>, now: Time, events: seq<Event>, e: Event)
    ensures
      var u := From(content, now, events);
      var v := Apply(content, u, e);
      && (v.session.Some? ==> u.session.Some?)
      && (v.session.Some? ==> Advances(u.session.value.state, v.session.value.state))
  {
    hide Apply, Inv;
    ReachableInv(content, now, events);
    RowChanges(content, From(content, now, events), e);
  }

  // --- Fenced leases ---------------------------------------------------------

  /** The replica whose claim was granted last. */
  function LatestClaimer(content: seq<Bytes>, now: Time, events: seq<Event>): Option<Replica> {
    if events == [] then None
    else
      var before := events[..|events| - 1];
      var e := events[|events| - 1];
      var u := From(content, now, before);
      if e.At? && e.w == Claim && ClaimStep(u, e.r) != u then Some(e.r) else LatestClaimer(content, now, before)
  }

  lemma {:induction false} OwnerIsLatestClaimer(content: seq<Bytes>, now: Time, events: seq<Event>)
    ensures
      var u := From(content, now, events);
      u.session.Some? && u.session.value.owner.Some? ==>
        u.session.value.owner == LatestClaimer(content, now, events)
  {
    hide Apply, Inv, ClaimStep;
    if events != [] {
      var before := events[..|events| - 1];
      var u, e := From(content, now, before), events[|events| - 1];
      OwnerIsLatestClaimer(content, now, before);
      ReachableInv(content, now, before);
      RowChanges(content, u, e);
      OnlyAssemblingHasOwner(content, now, before);
      OnlyAssemblingHasOwner(content, now, events);
      if e.At? && e.w == Claim {
        ClaimIsStep(content, u, e.r);
      }
    }
  }

  lemma ClaimIsStep(content: seq<Bytes>, u: Upload, r: Replica)
    ensures Apply(content, u, At(r, Claim)) == ClaimStep(u, r)
    ensures ClaimStep(u, r) != u ==> ClaimStep(u, r).session.Some? && ClaimStep(u, r).session.value.owner == Some(r)
  {
  }

  lemma OnlyAssemblingHasOwner(content: seq<Bytes>, now: Time, events: seq<Event>)
    ensures
      var u := From(content, now, events);
      u.session.Some? && u.session.value.owner.Some? ==> u.session.value.state == Assembling
  {
    hide Apply;
    ReachableInv(content, now, events);
  }

  /** While a session is assembling, only three things touch its row: a new claim,
      the latest claimer itself (which owns the lease), or the session's end. So
      a displaced replica's renew, finish, fail and release change nothing. */
  lemma OnlyLatestClaimerActs(content: seq<Bytes>, now: Time, events: seq<Event>, e: Event)
    requires
      var u := From(content, now, events);
      && u.session.Some? && u.session.value.state == Assembling
      && Apply(content, u, e).session != u.session
    ensures
      var u := From(content, now, events);
      || e == CANCEL
      || e == Upkeep(TakeExpired)
      || (e.At? && e.w == Claim && Claimable(u.session.value, u.now, e.r) && e.r !in u.workers)
      || (e.At? && e.w in {Renew, Finish, GiveUp} && e.r in u.workers
          && u.session.value.owner == Some(e.r) == LatestClaimer(content, now, events))
  {
    hide Apply, Inv;
    ReachableInv(content, now, events);
    RowChanges(content, From(content, now, events), e);
    OwnerIsLatestClaimer(content, now, events);
  }

  /** How many times a finish took effect. */
  function Finishes(content: seq<Bytes>, now: Time, events: seq<Event>): nat {
    if events == [] then 0
    else
      var before := events[..|events| - 1];
      var u, v := From(content, now, before), From(content, now, events);
      Finishes(content, now, before)
      + if StillNeeded(u) && v.session.Some? && v.session.value.state == Assembled then 1 else 0
  }

  lemma {:induction false} FinishesAtMostOnce(content: seq<Bytes>, now: Time, events: seq<Event>)
    ensures Finishes(content, now, events) <= 1
    ensures StillNeeded(From(content, now, events)) ==> Finishes(content, now, events) == 0
  {
    hide Apply;
    if events != [] {
      var before := events[..|events| - 1];
      FinishesAtMostOnce(content, now, before);
      StatesOnlyAdvance(content, now, before, events[|events| - 1]);
    }
  }

  lemma TimeNeverGoesBack(content: seq<Bytes>, u: Upload, e: Event)
    ensures Apply(content, u, e).now >= u.now
  {
    hide ClaimStep, RenewStep, CheckDirStep, CopyStep, FailIOStep, RenameStep, FinishStep, GiveUpStep;
    if e.At? {
      WorkerKeepsTime(content, u, e.r, e.w);
    }
  }

  lemma WorkerKeepsTime(content: seq<Bytes>, u: Upload, r: Replica, w: WorkerEvent)
    ensures WorkerStep(content, u, r, w).now == u.now
    ensures WorkerStep(content, u, r, w).cancelledLate == u.cancelledLate
  {
    hide Below, Concat;
  }

  predicate By(e: Event, r: Replica) {
    e.At? && e.r == r
  }

  /** Until r's lease lapses, nothing but r's own steps or a cancel touches the row. */
  lemma {:induction false} LeaseExcludesOthers(content: seq<Bytes>, u: Upload, events: seq<Event>, r: Replica)
    requires Inv(content, u) && u.session.Some? && u.session.value.owner == Some(r)
    requires forall e :: e in events ==> !By(e, r) && e != CANCEL
    requires Run(content, u, events).now < u.session.value.leaseUntil.value
    ensures Run(content, u, events).session == u.session
  {
    hide Apply, ChunksWhole, WorkersSound, BlobWhole;
    if events != [] {
      var before, e := events[..|events| - 1], events[|events| - 1];
      var v := Run(content, u, before);
      TimeNeverGoesBack(content, v, e);
      assert forall d :: d in before ==> d in events;
      assert e in events;
      LeaseExcludesOthers(content, u, before, r);
      RunInv(content, u, before);
      RowChanges(content, v, e);
      if e == Upkeep(TakeExpired) {
        UnexpiredStays(content, v);
      }
    }
  }

  lemma UnexpiredStays(content: seq<Bytes>, u: Upload)
    requires u.session.Some? && !Expired(u.session.value, u.now)
    ensures Apply(content, u, Upkeep(TakeExpired)) == u
  {
  }

  /** A started session nobody leases has a NULL lease, and the expiry condition
      is then unknown rather than true: only a claim or a cancel touches it. */
  lemma {:induction false} UnleasedAssemblyOutlivesExpiry(content: seq<Bytes>, u: Upload, events: seq<Event>)
    requires Inv(content, u)
    requires u.session.Some? && u.session.value.state == Assembling && u.session.value.leaseUntil.None?
    requires forall e :: e in events ==> !(e.At? && e.w == Claim) && e != CANCEL
    ensures Run(content, u, events).session == u.session
  {
    hide Apply, ChunksWhole, WorkersSound, BlobWhole;
    if events != [] {
      var before, e := events[..|events| - 1], events[|events| - 1];
      var v := Run(content, u, before);
      assert forall d :: d in before ==> d in events;
      assert e in events;
      UnleasedAssemblyOutlivesExpiry(content, u, before);
      RunInv(content, u, before);
      RowChanges(content, v, e);
      if e == Upkeep(TakeExpired) {
        UnexpiredStays(content, v);
      }
    }
  }

  /** When cleanup takes a session: once it has expired, unless it is assembling under a
      lease that has not lapsed or under none at all. */
  lemma CleanupTakesExactly(content: seq<Bytes>, now: Time, events: seq<Event>)
    requires From(content, now, events).session.Some?
    ensures
      var u := From(content, now, events);
      var s, v := u.session.value, From(content, now, events + [Upkeep(TakeExpired)]);
      && (v.session.None? <==>
            s.expiresAt < u.now && !(s.state == Assembling && (s.leaseUntil.None? || s.leaseUntil.value > u.now)))
      && (v.session.Some? ==> v == u)
  {
    assert (events + [Upkeep(TakeExpired)])[..|events|] == events;
    hide Run;
  }

  /** Only claims or a cancel could still end the session. */
  predicate Undisturbed(events: seq<Event>) {
    forall e | e in events :: !(e.At? && e.w == Claim) && e != CANCEL
  }

  /** A session outlives every wait and every cleanup, as long as nobody claims or cancels
      it, if and only if it is assembling and no replica leases it. */
  lemma OutlivesCleanupExactly(content: seq<Bytes>, now: Time, events: seq<Event>)
    requires From(content, now, events).session.Some?
    ensures
      var u := From(content, now, events);
      (forall more: seq<Event> | Undisturbed(more) :: Run(content, u, more).session.Some?)
      <==> u.session.value.state == Assembling && u.session.value.leaseUntil.None?
  {
    var u := From(content, now, events);
    var s := u.session.value;
    ReachableInv(content, now, events);
    hide Apply, From, Inv;
    if s.state == Assembling && s.leaseUntil.None? {
      forall more: seq<Event> | Undisturbed(more)
        ensures Run(content, u, more).session.Some?
      {
        UnleasedAssemblyOutlivesExpiry(content, u, more);
      }
    } else {
      var wait := Max(Max(s.expiresAt - u.now, if s.leaseUntil.Some? then s.leaseUntil.value - u.now else 0), 0) + 1;
      var end := [Upkeep(Tick(wait)), Upkeep(TakeExpired)];
      RunTwo(content, u, Upkeep(Tick(wait)), Upkeep(TakeExpired));
      TickOnly(content, u, wait);
      TakesLapsed(content, u.(now := u.now + wait));
      assert Undisturbed(end);
    }
  }

  lemma TakesLapsed(content: seq<Bytes>, u: Upload)
    requires u.session.Some? && u.session.value.expiresAt < u.now
    requires u.session.value.state != Assembling || u.session.value.leaseUntil.Some?
    requires u.session.value.leaseUntil.Some? ==> u.session.value.leaseUntil.value <= u.now
    ensures Apply(content, u, Upkeep(TakeExpired)).session.None?
  {
  }

  lemma RunMore(content: seq<Bytes>, now: Time, events: seq<Event>, e: Event) returns (longer: seq<Event>)
    ensures longer == events + [e] && From(content, now, longer) == Apply(content, From(content, now, events), e)
  {
    longer := events + [e];
    assert longer[..|events|] == events;
  }

  /** Such a session is reached: one chunk uploaded, completed, and never claimed. No
      request sees it any more, and cleanup leaves it there. */
  lemma HiddenSessionRemains(content: seq<Bytes>, now: Time) returns (events: seq<Event>)
    requires |content| == 1
    ensures
      var u := From(content, now, events);
      && events != [] && events[|events| - 1] == Upkeep(TakeExpired)
      && u.session.Some? && u.session.value.expiresAt < u.now && !Live(u.session.value, u.now)
      && u.session.value.state == Assembling && u.session.value.leaseUntil.None?
  {
    hide Run, Concat, Below;
    events := [];
    assert From(content, now, []) == Init(now) by { OneStep(content, now); }
    events := RunMore(content, now, events, Client(AdmitChunk(0)));
    events := RunMore(content, now, events, Client(ClientEvent.SaveChunk(0)));
    events := RunMore(content, now, events, Client(ClientEvent.RecordChunk(0)));
    assert From(content, now, events).session.value.recorded == {0};
    events := RunMore(content, now, events, Client(Complete));
    events := RunMore(content, now, events, Upkeep(Tick(PENDING_TTL + 1)));
    events := RunMore(content, now, events, Upkeep(TakeExpired));
  }

  lemma OneStep(content: seq<Bytes>, now: Time)
    ensures From(content, now, []) == Init(now)
  {
  }

  // --- No stuck upload ---------------------------------------------------------

  lemma RecordedIsEverything(content: seq<Bytes>, recorded: set<nat>)
    requires forall i :: i in recorded ==> i < |content|
    ensures |recorded| == |content| <==> forall i: nat :: i < |content| ==> i in recorded
  {
    SubsetSize(recorded, Below(|content|));
    if forall i: nat :: i < |content| ==> i in recorded {
      assert recorded == Below(|content|);
    }
  }

  /** Complete starts the assembly exactly when every chunk index is recorded. */
  lemma CompleteNeedsEveryChunk(content: seq<Bytes>, now: Time, events: seq<Event>)
    requires
      var u := From(content, now, events);
      u.session.Some? && u.session.value.state == Uploading && Live(u.session.value, u.now)
    ensures
      var u := From(content, now, events);
      var v := ClientStep(content, u, Complete);
      && v.session.Some?
      && (v.session.value.state == Assembling <==>
            forall i: nat :: i < |content| ==> i in u.session.value.recorded)
  {
    hide Apply, Run, WorkersSound, BlobWhole;
    ReachableInv(content, now, events);
    var u := From(content, now, events);
    RecordedIsEverything(content, u.session.value.recorded);
  }

  lemma OnlyCancelIsLate(content: seq<Bytes>, u: Upload, e: Event)
    requires e != CANCEL
    ensures Apply(content, u, e).cancelledLate == u.cancelledLate
  {
    hide ClaimStep, RenewStep, CheckDirStep, CopyStep, FailIOStep, RenameStep, FinishStep, GiveUpStep;
    if e.At? {
      WorkerKeepsTime(content, u, e.r, e.w);
    }
  }

  lemma {:induction false} NoLateCancel(content: seq<Bytes>, now: Time, events: seq<Event>)
    requires CANCEL !in events
    ensures !From(content, now, events).cancelledLate
  {
    hide Apply;
    if events != [] {
      var before := events[..|events| - 1];
      NoLateCancel(content, now, before);
      OnlyCancelIsLate(content, From(content, now, before), events[|events| - 1]);
    }
  }

  /** Until an upload that nobody cancels is assembled, every chunk it recorded
      stays on disk, whole; and once started that is every chunk there is. */
  lemma ChunksKeptUntilAssembled(content: seq<Bytes>, now: Time, events: seq<Event>)
    requires CANCEL !in events && StillNeeded(From(content, now, events))
    ensures
      var u := From(content, now, events);
      && (forall i :: i in u.session.value.recorded ==>
            i < |content| && i in u.chunks && u.chunks[i] == content[i])
      && (u.session.value.state != Uploading ==>
            forall i: nat :: i < |content| ==> i in u.chunks && u.chunks[i] == content[i])
  {
    hide Apply, WorkersSound, BlobWhole;
    ReachableInv(content, now, events);
    NoLateCancel(content, now, events);
  }

  /** An upload nobody cancels only ever fails through an I/O error or a temporary
      blob swept as stale; a missing chunk or a lost lease never fails it. */
  lemma OnlyIOFailsAnUpload(content: seq<Bytes>, now: Time, events: seq<Event>, e: Event)
    requires CANCEL !in events
    requires
      var u := From(content, now, events);
      var v := Apply(content, u, e);
      && u.session.Some? && u.session.value.state != Failed
      && v.session.Some? && v.session.value.state == Failed
    ensures
      var u := From(content, now, events);
      && e.At? && e.w == GiveUp && e.r in u.workers
      && u.workers[e.r].phase in {Stopped(IOError), Stopped(TempLost)}
  {
    hide Apply, ChunksWhole, BlobWhole, SessionSound;
    var u := From(content, now, events);
    ReachableInv(content, now, events);
    NoLateCancel(content, now, events);
    RowChanges(content, u, e);
    assert WorkerSound(content, u, u.workers[e.r]);
  }

  function Copies(n: nat, r: Replica): (script: seq<Event>)
    ensures |script| == n
  {
    if n == 0 then [] else Copies(n - 1, r) + [At(r, CopyChunk)]
  }

  /** What a replica that takes over does when nothing disturbs it. */
  function Takeover(n: nat, r: Replica): seq<Event> {
    [At(r, Claim), At(r, CheckDir)] + Copies(n, r) + [At(r, Rename), At(r, Finish)]
  }

  lemma CopyOne(content: seq<Bytes>, u: Upload, r: Replica, t: nat, k: nat)
    requires r in u.workers && u.workers[r] == Worker(Copying(t, k), false)
    requires k < |content| && k in u.chunks && t in u.temps
    ensures
      var v := Apply(content, u, At(r, CopyChunk));
      && v.session == u.session && v.now == u.now && v.chunks == u.chunks && v.file == u.file && t in v.temps
      && r in v.workers && v.workers[r] == Worker(Copying(t, k + 1), false)
  {
  }

  lemma RunNothing(content: seq<Bytes>, u: Upload)
    ensures Run(content, u, []) == u
  {
  }

  lemma RunSnoc(content: seq<Bytes>, u: Upload, events: seq<Event>, e: Event)
    ensures Run(content, u, events + [e]) == Apply(content, Run(content, u, events), e)
  {
    hide Apply;
    assert (events + [e])[..|events|] == events;
  }

  lemma {:induction false} CopiesRun(content: seq<Bytes>, u: Upload, r: Replica, t: nat, k: nat)
    requires k <= |content| && Below(|content|) <= u.chunks.Keys && t in u.temps
    requires r in u.workers && u.workers[r] == Worker(Copying(t, 0), false)
    ensures
      var v := Run(content, u, Copies(k, r));
      && v.session == u.session && v.now == u.now && v.chunks == u.chunks && v.file == u.file && t in v.temps
      && r in v.workers && v.workers[r] == Worker(Copying(t, k), false)
  {
    hide Apply, Run;
    if k == 0 {
      RunNothing(content, u);
    } else {
      CopiesRun(content, u, r, t, k - 1);
      RunSnoc(content, u, Copies(k - 1, r), At(r, CopyChunk));
      CopyOne(content, Run(content, u, Copies(k - 1, r)), r, t, k - 1);
    }
  }

  lemma RunTwo(content: seq<Bytes>, u: Upload, a: Event, b: Event)
    ensures Run(content, u, [a, b]) == Apply(content, Apply(content, u, a), b)
  {
    hide Apply;
    assert [a, b][..1] == [a];
    assert [a][..0] == [];
    assert Run(content, u, [a]) == Apply(content, u, a);
  }

  lemma OpeningRuns(content: seq<Bytes>, u: Upload, r: Replica)
    requires u.session.Some? && Claimable(u.session.value, u.now, r) && r !in u.workers
    requires Below(|content|) <= u.chunks.Keys
    ensures
      var v := Apply(content, Apply(content, u, At(r, Claim)), At(r, CheckDir));
      && v.session == Claimed(u.session.value, u.now, r) && v.now == u.now && v.chunks == u.chunks && v.file == u.file
      && u.nextTemp in v.temps
      && r in v.workers && v.workers[r] == Worker(Copying(u.nextTemp, 0), false)
  {
    var u1 := ClaimStep(u, r);
    assert Apply(content, u, At(r, Claim)) == u1;
    assert Apply(content, u1, At(r, CheckDir)) == CheckDirStep(content, u1, r);
  }

  lemma ClosingRuns(content: seq<Bytes>, u: Upload, r: Replica, t: nat)
    requires u.session.Some? && Fenced(u.session.value, r)
    requires r in u.workers && u.workers[r] == Worker(Copying(t, |content|), false) && t in u.temps
    ensures
      var v := Apply(content, Apply(content, u, At(r, Rename)), At(r, Finish));
      && v.session.Some? && v.session.value.state == Assembled && v.blob == Some(u.temps[t])
      && v.now == u.now && v.session.value.expiresAt >= v.now + 300 && v.file == u.file
  {
    var u1 := RenameStep(content, u, r);
    assert Apply(content, u, At(r, Rename)) == u1;
    assert Apply(content, u1, At(r, Finish)) == FinishStep(u1, r);
  }

  /** A replica that finds the session claimable assembles it, with five minutes left to
      finalize it. */
  lemma TakeoverSucceeds(content: seq<Bytes>, u: Upload, r: Replica)
    requires Inv(content, u) && !u.cancelledLate
    requires u.session.Some? && Claimable(u.session.value, u.now, r) && r !in u.workers
    ensures
      var v := Run(content, u, Takeover(|content|, r));
      && v.session.Some? && v.session.value.state == Assembled && v.blob == Some(Concat(content))
      && v.session.value.expiresAt >= v.now + 300 && v.file == u.file
  {
    hide Apply, ChunksWhole, WorkersSound;
    var n := |content|;
    var opening, copies, closing := [At(r, Claim), At(r, CheckDir)], Copies(n, r), [At(r, Rename), At(r, Finish)];
    RunTwo(content, u, At(r, Claim), At(r, CheckDir));
    OpeningRuns(content, u, r);
    var u1 := Run(content, u, opening);
    CopiesRun(content, u1, r, u.nextTemp, n);
    var u2 := Run(content, u1, copies);
    RunTwo(content, u2, At(r, Rename), At(r, Finish));
    ClosingRuns(content, u2, r, u.nextTemp);
    RunAppend(content, u, opening, copies);
    RunAppend(content, u, opening + copies, closing);
    RunInv(content, u, Takeover(n, r));
  }

  /** No stuck upload: however a run without cancels got here, once the session is
      assembling there is a wait after which any replica that is not at work on
      it can claim it, and its assembly then succeeds. */
  lemma NeverStuck(content: seq<Bytes>, now: Time, events: seq<Event>, r: Replica)
    requires CANCEL !in events
    requires
      var u := From(content, now, events);
      u.session.Some? && u.session.value.state == Assembling && r !in u.workers
    ensures exists wait: nat ::
              var v := Run(content, From(content, now, events + [Upkeep(Tick(wait))]), Takeover(|content|, r));
              v.session.Some? && v.session.value.state == Assembled && v.blob == Some(Concat(content))
  {
    hide Apply, Inv, Takeover;
    var u := From(content, now, events);
    var s := u.session.value;
    var wait: nat := if s.leaseUntil.Some? && s.leaseUntil.value >= u.now then s.leaseUntil.value - u.now + 1 else 0;
    var longer := events + [Upkeep(Tick(wait))];
    assert longer[..|longer| - 1] == events;
    TickOnly(content, u, wait);
    ReachableInv(content, now, longer);
    NoLateCancel(content, now, longer);
    TakeoverSucceeds(content, From(content, now, longer), r);
  }

  lemma TickOnly(content: seq<Bytes>, u: Upload, wait: nat)
    ensures Apply(content, u, Upkeep(Tick(wait))) == u.(now := u.now + wait)
  {
  }
}
