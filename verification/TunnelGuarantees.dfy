/** What tunnel membership guarantees over whole runs. */
module TunnelGuarantees {
  import opened Prelude
  import opened Tunnels

  /** A tunnel just started, with the host's device as the database shows it. */
  ghost predicate Started(t: Tunnel) {
    && t.db.Sound()
    && exists hostUser, hostDevice: Option<Id>, now, seconds ::
        && 600 <= seconds <= DAY && t.db.Shown(hostDevice)
        && t == Start(t.db, hostUser, hostDevice, now, seconds)
  }

  lemma StartedInv(t: Tunnel)
    requires Started(t)
    ensures Inv(t) && Orderly(t) && t.db.Sound()
  {
    var hostUser, hostDevice: Option<Id>, now, seconds :|
        && 600 <= seconds <= DAY && t.db.Shown(hostDevice)
        && t == Start(t.db, hostUser, hostDevice, now, seconds);
    StartInv(t.db, hostUser, hostDevice, now, seconds);
  }

  lemma {:induction false} RunInv(start: Tunnel, events: seq<Event>)
    requires Started(start)
    ensures Inv(Run(start, events)) && Run(start, events).db == start.db && start.db.Sound()
  {
    hide Apply, Inv, Started;
    StartedInv(start);
    if events != [] {
      var prior := events[..|events| - 1];
      RunInv(start, prior);
      StepInv(Run(start, prior), events[|events| - 1]);
    }
  }

  /** Every join of the run that names a device spells it like this. */
  predicate Spells(spelled: Id -> bool, events: seq<Event>) {
    forall e | e in events && e.JoinCall? && e.device.Some? :: spelled(e.device.value)
  }

  ghost predicate AllCanonical(db: Reads, spelled: Id -> bool) {
    forall id | spelled(id) :: db.Canonical(id)
  }

  lemma SpellsBefore(spelled: Id -> bool, events: seq<Event>, k: nat)
    requires Spells(spelled, events) && k <= |events|
    ensures Spells(spelled, events[..k])
  {
  }

  lemma SpellsAt(db: Reads, spelled: Id -> bool, events: seq<Event>, k: nat)
    requires Spells(spelled, events) && AllCanonical(db, spelled) && k < |events|
    ensures WellSpelled(db, events[k])
  {
    assert events[k] in events;
  }

  lemma {:induction false} RunOrderly(start: Tunnel, events: seq<Event>, spelled: Id -> bool)
    requires Started(start) && AllCanonical(start.db, spelled) && Spells(spelled, events)
    ensures Orderly(Run(start, events))
  {
    hide Apply, Inv, Started, Orderly, AllCanonical, Spells;
    if events == [] {
      StartedInv(start);
    } else {
      var k := |events| - 1;
      SpellsBefore(spelled, events, k);
      SpellsAt(start.db, spelled, events, k);
      RunInv(start, events[..k]);
      RunOrderly(start, events[..k], spelled);
      StepOrderly(Run(start, events[..k]), events[k]);
    }
  }

  // --- Declined joiners stay out ----------------------------------------------------

  predicate CanJoin(t: Tunnel) {
    Available(t) && t.status != Active
  }

  predicate Matches(r: Rejection, user: Option<int>, device: Option<Id>) {
    (user.Some? && r.user == user) || (device.Some? && r.device == device)
  }

  /** A rejection of this user, or of the device with this text, that no purge can reach while joining is
      still possible: it is younger than a day when the tunnel expires. */
  predicate KeptOut(t: Tunnel, user: Option<int>, device: Option<Id>) {
    CanJoin(t) ==> exists r | r in t.rejections :: Matches(r, user, device) && r.at + DAY >= t.expiresAt
  }

  predicate NoTrace(t: Tunnel, device: Id) {
    && (forall p | p in t.rows :: t.rows[p].device != Some(device))
    && device !in t.envelopes
  }

  lemma JoiningEnds(t: Tunnel, e: Event)
    ensures !CanJoin(t) ==> !CanJoin(Apply(t, e))
  {
  }

  lemma KeptOutStays(t: Tunnel, e: Event, user: Option<int>, device: Option<Id>)
    requires Inv(t) && KeptOut(t, user, device)
    ensures KeptOut(Apply(t, e), user, device)
  {
    JoiningEnds(t, e);
    if CanJoin(Apply(t, e)) {
      var r :| r in t.rejections && Matches(r, user, device) && r.at + DAY >= t.expiresAt;
      assert r in Apply(t, e).rejections;
    }
  }

  lemma NoTraceStays(t: Tunnel, e: Event, device: Id)
    requires Inv(t) && KeptOut(t, None, Some(device)) && NoTrace(t, device) && WellSpelled(t.db, e)
    ensures NoTrace(Apply(t, e), device)
  {
  }

  lemma RejectingShutsOut(t: Tunnel, c: Caller, p: nat)
    requires Inv(t) && Reject(t, c, p).reply == Done
    ensures
      var after, row := Reject(t, c, p).tunnel, t.rows[p];
      && (row.user.Some? ==> KeptOut(after, row.user, None))
      && (row.device.Some? ==> KeptOut(after, None, row.device))
      && (row.device.Some? && Orderly(t) ==> NoTrace(after, row.device.value))
  {
    var row := t.rows[p];
    assert Rejection(row.user, row.device, t.now) in Reject(t, c, p).tunnel.rejections;
  }

  lemma NoNewRowsStay(t: Tunnel, e: Event, user: int)
    requires Inv(t) && KeptOut(t, Some(user), None)
    ensures forall q :: q in Apply(t, e).rows && Apply(t, e).rows[q].user == Some(user) ==>
              q in t.rows && t.rows[q].user == Some(user)
  {
  }

  /** The tunnel before event i of a run. */
  ghost function Before(start: Tunnel, events: seq<Event>, i: nat): Tunnel
    requires i <= |events|
  {
    Run(start, events[..i])
  }

  lemma BeforeNext(start: Tunnel, events: seq<Event>, i: nat)
    requires i < |events|
    ensures Before(start, events, i + 1) == Apply(Before(start, events, i), events[i])
  {
    assert events[..i + 1][..i] == events[..i];
  }

  predicate Declines(t: Tunnel, e: Event) {
    e.RejectCall? && Reject(t, e.caller, e.p).reply == Done
  }

  lemma DeclinedKeptOut(start: Tunnel, events: seq<Event>, i: nat, j: nat)
    requires Started(start) && i < j <= |events| && Declines(Before(start, events, i), events[i])
    ensures
      var row := Before(start, events, i).rows[events[i].p];
      && (row.user.Some? ==> KeptOut(Before(start, events, j), row.user, None))
      && (row.device.Some? ==> KeptOut(Before(start, events, j), None, row.device))
    decreases j
  {
    hide Run, Apply, Started, Inv, KeptOut, Orderly;
    BeforeNext(start, events, j - 1);
    RunInv(start, events[..j - 1]);
    var row := Before(start, events, i).rows[events[i].p];
    if j == i + 1 {
      RejectingShutsOut(Before(start, events, i), events[i].caller, events[i].p);
      RejectIsStep(Before(start, events, i), events[i]);
    } else {
      DeclinedKeptOut(start, events, i, j - 1);
      if row.user.Some? { KeptOutStays(Before(start, events, j - 1), events[j - 1], row.user, None); }
      if row.device.Some? { KeptOutStays(Before(start, events, j - 1), events[j - 1], None, row.device); }
    }
  }

  lemma RejectIsStep(t: Tunnel, e: Event)
    requires e.RejectCall?
    ensures Apply(t, e) == Reject(t, e.caller, e.p).tunnel
  {
  }

  /** Event i of the run declines this device. */
  ghost predicate DeclinesDevice(start: Tunnel, events: seq<Event>, i: nat, device: Id)
    requires i < |events|
  {
    Declines(Before(start, events, i), events[i]) && Before(start, events, i).rows[events[i].p].device == Some(device)
  }

  lemma {:induction false} NoTraceOfDeclined(start: Tunnel, events: seq<Event>, i: nat, j: nat, device: Id,
                                             spelled: Id -> bool)
    requires Started(start) && AllCanonical(start.db, spelled) && Spells(spelled, events)
    requires i < j <= |events| && DeclinesDevice(start, events, i, device)
    ensures NoTrace(Before(start, events, j), device)
    decreases j
  {
    hide Run, Apply, Started, Inv, KeptOut, NoTrace, Orderly, AllCanonical, Spells, WellSpelled;
    BeforeNext(start, events, j - 1);
    RunInv(start, events[..j - 1]);
    if j == i + 1 {
      SpellsBefore(spelled, events, i);
      RunOrderly(start, events[..i], spelled);
      RejectingShutsOut(Before(start, events, i), events[i].caller, events[i].p);
      RejectIsStep(Before(start, events, i), events[i]);
    } else {
      NoTraceOfDeclined(start, events, i, j - 1, device, spelled);
      DeclinedKeptOut(start, events, i, j - 1);
      SpellsAt(start.db, spelled, events, j - 1);
      NoTraceStays(Before(start, events, j - 1), events[j - 1], device);
    }
  }

  /** No join that names this device, however spelled, is let in. */
  ghost predicate Refuses(t: Tunnel, device: Id, spelled: Id -> bool) {
    forall c, spelling, p, newToken, key | spelled(spelling) && t.db.canon(spelling) == Some(device) ::
      Join(t, c, Some(spelling), p, newToken, key).reply.Refused?
  }

  lemma KeptOutRefuses(t: Tunnel, device: Id, spelled: Id -> bool)
    requires KeptOut(t, None, Some(device)) && AllCanonical(t.db, spelled)
    ensures Refuses(t, device, spelled)
  {
    forall c, spelling, p, newToken, key | spelled(spelling) && t.db.canon(spelling) == Some(device)
      ensures Join(t, c, Some(spelling), p, newToken, key).reply.Refused?
    {
      assert t.db.Canonical(spelling);
    }
  }

  /** A declined user may still have a row of another device, but gains none. */
  lemma {:induction false} DeclinedUserGainsNoRow(start: Tunnel, events: seq<Event>, i: nat, j: nat, q: nat)
    requires Started(start) && i < j <= |events| && Declines(Before(start, events, i), events[i])
    requires
      var user := Before(start, events, i).rows[events[i].p].user;
      user.Some? && q in Before(start, events, j).rows && Before(start, events, j).rows[q].user == user
    ensures
      var after := Before(start, events, i + 1);
      q in after.rows && after.rows[q].user == Before(start, events, i).rows[events[i].p].user
    decreases j
  {
    hide Run, Apply, Started, Inv, KeptOut;
    if j > i + 1 {
      BeforeNext(start, events, j - 1);
      RunInv(start, events[..j - 1]);
      DeclinedKeptOut(start, events, i, j - 1);
      NoNewRowsStay(Before(start, events, j - 1), events[j - 1], Before(start, events, i).rows[events[i].p].user.value);
      DeclinedUserGainsNoRow(start, events, i, j - 1, q);
    }
  }

  // --- Keys and approvals ------------------------------------------------------------------

  /** A row's key changes only by a join of its owner; who owns it, and for which
      device, never changes; and only the host's approval admits it. */
  lemma RowsChangeOnlyByRight(t: Tunnel, e: Event, p: nat)
    requires Inv(t) && p in t.rows && p in Apply(t, e).rows
    ensures
      var row, next := t.rows[p], Apply(t, e).rows[p];
      && next.user == row.user && next.device == row.device && next.tokenHash == row.tokenHash
      && (next.key != row.key ==>
            e.JoinCall? && OwnedBy(row, e.caller.user, e.caller.tokenHash) && row.device == e.device
            && e.key.Some? && next.key == Some(t.db.jsonb(e.key.value)) && row.device.value !in Apply(t, e).envelopes)
      && (next.approved != row.approved ==> e == ApproveCall(e.caller, p) && IsHost(t, e.caller))
  {
  }

  /** A participant that joins again with a key changes its row exactly if the key is another
      one as the database writes it, however the request formats it; an envelope it would lose
      does not exist yet. */
  lemma RejoinChangesExactly(t: Tunnel, c: Caller, spelling: Id, p: nat, newToken: string, key: Key)
    requires Inv(t) && RowFor(t.rows, c.user, Some(spelling)).Some?
    requires Join(t, c, Some(spelling), p, newToken, Some(key)).reply == Done
    ensures
      var row := t.rows[RowFor(t.rows, c.user, Some(spelling)).value];
      var u := Join(t, c, Some(spelling), p, newToken, Some(key)).tunnel;
      && u.envelopes == t.envelopes
      && (u.rows == t.rows <==> row.key == Some(t.db.jsonb(key)) || KeyText(row) == key || key == "")
  {
    var found := RowFor(t.rows, c.user, Some(spelling)).value;
    var row := t.rows[found];
    hide RowFor;
    assert t.envelopes == map[];
    if row.key == Some(t.db.jsonb(key)) {
      assert t.rows[found := row.(key := Some(t.db.jsonb(key)))] == t.rows;
    } else {
      assert t.rows[found := row.(key := Some(t.db.jsonb(key)))][found] != row;
    }
  }

  /** Whoever is served an envelope is the host or a participant the host approved,
      and a participant's envelope is for its own present key. */
  predicate RightlyServed(t: Tunnel, c: Caller, own: Option<nat>, device: Id) {
    && Approved(t, c, own)
    && (!IsHost(t, c) ==> own.Some? && own.value in t.rows && Some(t.rows[own.value].key) == Fetch(t, c, own, device))
  }

  lemma ServedRightly(t: Tunnel, c: Caller, own: Option<nat>, device: Id)
    requires Inv(t) && Orderly(t) && t.db.Sound() && Finds(t, c, own) && Fetch(t, c, own, device).Some?
    ensures RightlyServed(t, c, own, device)
  {
  }

  /** Who starts a session: its host's user, or for a guest's tunnel a guest that names the
      initiator's device and owns it here, by the host token or by a row of its own. */
  lemma StartsExactly(t: Tunnel, c: Caller, own: Option<nat>, named: Id)
    ensures Confirm(t, c, own, named).reply == Done <==>
              && Available(t) && c.user == t.hostUser
              && (t.hostUser.None? ==> t.hostDevice == Some(named) && OwnsDevice(t, c, own, named))
  {
  }

  /** A host starts its tunnel exactly by naming its own initiator device, if it is a guest. */
  predicate HostMayStart(t: Tunnel, host: Caller, named: Id) {
    host.user == t.hostUser && (t.hostUser.None? ==> t.hostDevice == Some(named))
  }

  /** A joiner the host admits gets the session key, if its row is the earliest of its
      device, as the only one always is: the host's approval is followed by the start if and
      only if the host may start, and then its push has the owner of the row served the key
      wrapped for it. This is so for hosts with an account and for guests. */
  lemma AdmittedGetsKey(t: Tunnel, host: Caller, own: Option<nat>, named: Id, c: Caller, p: nat, device: Id)
    requires Inv(t) && CanJoin(t) && IsHost(t, host)
    requires p in t.rows && t.rows[p].device == Some(device)
    requires RowFor(t.rows, None, Some(device)) == Some(p)
    requires OwnedBy(t.rows[p], c.user, c.tokenHash) && c.device == Some(device)
    ensures
      var approved := Apply(t, ApproveCall(host, p));
      var started := Confirm(approved, host, own, named);
      var pushed := Apply(started.tunnel, PushCall(host, device));
      && (started.reply == Done <==> HostMayStart(t, host, named))
      && (started.reply == Done ==>
            && Finds(pushed, c, Some(p)) && Fetch(pushed, c, Some(p), device) == Some(t.rows[p].key)
            && Push(pushed, host, device).reply == Refused(EnvelopeExists))
  {
    var approved := Approve(t, host, p).tunnel;
    assert approved.rows[p] == t.rows[p].(approved := true);
    var active := Confirm(approved, host, own, named).tunnel;
    assert IsRowFor(active.rows[p], None, Some(device));
    assert RowFor(active.rows, None, Some(device)) == Some(p);
  }

  lemma NeverActiveStep(t: Tunnel, e: Event)
    requires t.hostUser.None? && t.hostDevice.None? && t.status != Active && t.envelopes == map[]
    ensures
      var u := Apply(t, e);
      u.hostUser.None? && u.hostDevice.None? && u.status != Active && u.envelopes == map[]
  {
  }

  /** A guest's tunnel that was started without a device id never becomes active: nobody in
      it is ever given a key. */
  lemma {:induction false} NamelessGuestNeverStarts(db: Reads, now: int, seconds: int, events: seq<Event>)
    ensures
      var t := Run(Start(db, None, None, now, seconds), events);
      t.hostUser.None? && t.hostDevice.None? && t.status != Active && t.envelopes == map[]
  {
    hide Apply;
    if events != [] {
      NamelessGuestNeverStarts(db, now, seconds, events[..|events| - 1]);
      NeverActiveStep(Run(Start(db, None, None, now, seconds), events[..|events| - 1]), events[|events| - 1]);
    }
  }

  // --- Another spelling --------------------------------------------------------------------

  /** A guest with the token it was issued. */
  function Guest(token: string): Caller {
    Caller(None, None, Some(token), false)
  }

  const HOST: Caller := Caller(Some(1), None, None, false)

  function Fresh(db: Reads): Tunnel {
    Start(db, Some(1), None, 0, 600)
  }

  function GuestRow(device: Id, token: string, joined: int): Row {
    Row(None, Some(device), Some(token), None, false, joined)
  }

  function Joining(spelling: Id, p: nat, token: string): Event {
    JoinCall(Guest(token), Some(spelling), p, token, None)
  }

  /** Declined, and back again. */
  function BackAgain(spelling: Id): seq<Event> {
    [Joining(spelling, 1, "a"), RejectCall(HOST, 1), Joining(spelling, 2, "b")]
  }

  /** Another guest joins beside the device, which is then approved and sent the key. */
  function Beside(spelling: Id, device: Id): seq<Event> {
    [Joining(spelling, 1, "a"), Tick(1), Joining(spelling, 2, "b"), ApproveCall(HOST, 1),
     ConfirmCall(HOST, Some(0), ""), PushCall(HOST, device)]
  }

  /** Neither a rejection nor a row of the device is found under another spelling. */
  lemma JoinsAnew(t: Tunnel, spelling: Id, p: nat, token: string)
    requires Inv(t) && CanJoin(t) && p !in t.rows && !t.db.Canonical(spelling)
    requires forall r | r in t.rejections :: t.db.Shown(r.device)
    ensures
      var row := GuestRow(t.db.canon(spelling).value, token, t.now);
      Join(t, Guest(token), Some(spelling), p, token, None)
      == Outcome(t.(rows := t.rows[p := row], status := Joined), Done)
  {
    assert forall q | q in t.rows :: t.rows[q].device != Some(spelling);
  }

  /** The tunnel once the device has joined. */
  function OneIn(db: Reads, device: Id): Tunnel {
    Fresh(db).(rows := map[0 := Row(Some(1), None, None, None, true, 0), 1 := GuestRow(device, "a", 0)],
               status := Joined)
  }

  lemma FirstJoin(db: Reads, spelling: Id)
    requires db.Sound() && !db.Canonical(spelling)
    ensures Started(Fresh(db))
    ensures
      Inv(OneIn(db, db.canon(spelling).value))
      && Apply(Fresh(db), Joining(spelling, 1, "a")) == OneIn(db, db.canon(spelling).value)
  {
    assert Fresh(db) == Start(db, Some(1), None, 0, 600);
    StartedInv(Fresh(db));
    JoinsAnew(Fresh(db), spelling, 1, "a");
    assert Fresh(db).rows[1 := GuestRow(db.canon(spelling).value, "a", 0)]
        == OneIn(db, db.canon(spelling).value).rows;
  }

  lemma Declined(t: Tunnel, device: Id)
    requires t == OneIn(t.db, device) && Inv(t)
    ensures
      var u := Apply(t, RejectCall(HOST, 1));
      && Reject(t, HOST, 1).reply == Done && Inv(u) && CanJoin(u) && u.rows.Keys == {0} && u.db == t.db
      && u.rejections == {Rejection(None, Some(device), 0)}
  {
  }

  lemma RunsFrom(start: Tunnel, events: seq<Event>)
    ensures Before(start, events, 0) == start
  {
  }

  /** The host declines the device; the same guest joins again, and its device has a row. */
  lemma DeclinedReturns(db: Reads, spelling: Id)
    requires db.Sound() && !db.Canonical(spelling)
    ensures
      var start, events, device := Fresh(db), BackAgain(spelling), db.canon(spelling).value;
      && Started(start) && DeclinesDevice(start, events, 1, device)
      && Join(Before(start, events, 2), Guest("b"), Some(spelling), 2, "b", None).reply == Done
      && !NoTrace(Before(start, events, 3), device)
  {
    var start, events, device := Fresh(db), BackAgain(spelling), db.canon(spelling).value;
    FirstJoin(db, spelling);
    var one := OneIn(db, device);
    Declined(one, device);
    var two := Apply(one, RejectCall(HOST, 1));
    JoinsAnew(two, spelling, 2, "b");
    var three := Join(two, Guest("b"), Some(spelling), 2, "b", None).tunnel;
    assert three.rows[2].device == Some(device);
    assert Apply(two, Joining(spelling, 2, "b")) == three;
    hide Apply, Join, Run, Reject, Inv;
    RunsFrom(start, events);
    BeforeNext(start, events, 0);
    BeforeNext(start, events, 1);
    BeforeNext(start, events, 2);
  }

  /** Two guests hold rows of one device, the first of them approved and sent the key. */
  function BothIn(db: Reads, device: Id): Tunnel {
    OneIn(db, device).(
      rows := map[0 := Row(Some(1), None, None, None, true, 0), 1 := GuestRow(device, "a", 0),
                  2 := GuestRow(device, "b", 1)],
      now := 1)
  }

  function KeySent(db: Reads, device: Id): Tunnel {
    BothIn(db, device).(
      rows := BothIn(db, device).rows[1 := GuestRow(device, "a", 0).(approved := true)],
      status := Active, envelopes := map[device := None])
  }

  lemma SecondJoin(db: Reads, spelling: Id)
    requires db.Sound() && !db.Canonical(spelling)
    ensures
      var device := db.canon(spelling).value;
      Apply(Apply(OneIn(db, device), Tick(1)), Joining(spelling, 2, "b")) == BothIn(db, device)
  {
    var device := db.canon(spelling).value;
    FirstJoin(db, spelling);
    var waited := OneIn(db, device).(now := 1);
    JoinsAnew(waited, spelling, 2, "b");
    assert waited.rows[2 := GuestRow(device, "b", 1)] == BothIn(db, device).rows;
  }

  lemma KeyIsSent(db: Reads, device: Id)
    ensures
      Apply(Apply(Apply(BothIn(db, device), ApproveCall(HOST, 1)), ConfirmCall(HOST, Some(0), "")),
            PushCall(HOST, device))
      == KeySent(db, device)
  {
    var t := BothIn(db, device);
    var approved := Apply(t, ApproveCall(HOST, 1));
    assert approved == t.(rows := t.rows[1 := GuestRow(device, "a", 0).(approved := true)]);
    assert Finds(approved, HOST, Some(0));
    var active := Apply(approved, ConfirmCall(HOST, Some(0), ""));
    assert active == approved.(status := Active);
    var target := RowFor(active.rows, None, Some(device));
    assert IsRowFor(active.rows[1], None, Some(device));
    assert target == Some(1) by { hide Apply; assert !Earlier(active.rows, 2, 1); }
    assert Apply(active, PushCall(HOST, device)).envelopes == map[device := None];
  }

  lemma SixSteps(start: Tunnel, events: seq<Event>)
    requires |events| == 6
    ensures
      Run(start, events)
      == Apply(Apply(Apply(Apply(Apply(Apply(start, events[0]), events[1]), events[2]), events[3]), events[4]),
               events[5])
  {
    hide Apply, Run;
    RunsFrom(start, events);
    BeforeNext(start, events, 0);
    BeforeNext(start, events, 1);
    BeforeNext(start, events, 2);
    BeforeNext(start, events, 3);
    BeforeNext(start, events, 4);
    BeforeNext(start, events, 5);
    assert events[..6] == events;
  }

  lemma BesideRun(db: Reads, spelling: Id)
    requires db.Sound() && !db.Canonical(spelling)
    ensures
      var device := db.canon(spelling).value;
      Run(Fresh(db), Beside(spelling, device)) == KeySent(db, device)
  {
    var start, device := Fresh(db), db.canon(spelling).value;
    var events := Beside(spelling, device);
    FirstJoin(db, spelling);
    SecondJoin(db, spelling);
    KeyIsSent(db, device);
    SixSteps(start, events);
    hide Apply, KeySent, BothIn, Run, OneIn, Inv, Fresh, Started;
  }

  /** The second guest, whom nobody approved, is served the first one's envelope. */
  lemma UnapprovedServed(db: Reads, spelling: Id)
    requires db.Sound() && !db.Canonical(spelling)
    ensures
      var device := db.canon(spelling).value;
      var events, c := Beside(spelling, device), Guest("b").(device := Some(device));
      var t := Run(Fresh(db), events);
      && Started(Fresh(db)) && !OneRowPerDevice(t.rows)
      && Finds(t, c, Some(2)) && Fetch(t, c, Some(2), device).Some? && !Approved(t, c, Some(2))
  {
    BesideRun(db, spelling);
    FirstJoin(db, spelling);
    var t := KeySent(db, db.canon(spelling).value);
    hide Run, Started;
    assert t.rows[1].device == t.rows[2].device && 1 in t.rows && 2 in t.rows;
  }

  // --- Exactly when membership holds ------------------------------------------------------------

  /** A run of this database in which every join that names a device spells it like this. */
  ghost predicate RunOf(db: Reads, spelled: Id -> bool, start: Tunnel, events: seq<Event>) {
    Started(start) && start.db == db && Spells(spelled, events)
  }

  lemma SpellingsOf(spelled: Id -> bool, spelling: Id, device: Id)
    requires spelled(spelling)
    ensures Spells(spelled, BackAgain(spelling)) && Spells(spelled, Beside(spelling, device))
  {
  }

  /** After any run: one row per device, and a key envelope never beside a present
      participant of that device whom the host has not approved or for another key. This
      holds for joins of these spellings if and only if each is a device id as its row
      shows it. */
  lemma MembershipHolds(db: Reads, spelled: Id -> bool)
    requires db.Sound()
    ensures (forall start, events | RunOf(db, spelled, start, events) :: Orderly(Run(start, events)))
            <==> AllCanonical(db, spelled)
  {
    hide Run, Spells, Started;
    if AllCanonical(db, spelled) {
      hide Orderly;
      forall start, events | RunOf(db, spelled, start, events)
        ensures Orderly(Run(start, events))
      {
        RunOrderly(start, events, spelled);
      }
    } else {
      var spelling :| spelled(spelling) && !db.Canonical(spelling);
      var events := Beside(spelling, db.canon(spelling).value);
      SpellingsOf(spelled, spelling, db.canon(spelling).value);
      UnapprovedServed(db, spelling);
    }
  }

  ghost predicate ServesRightly(t: Tunnel) {
    forall c, own, device | Finds(t, c, own) && Fetch(t, c, own, device).Some? :: RightlyServed(t, c, own, device)
  }

  /** Under the same condition, and no other, only the host and approved participants are
      ever served an envelope, and a participant the one for its own key. */
  lemma OnlyApprovedAreServed(db: Reads, spelled: Id -> bool)
    requires db.Sound()
    ensures (forall start, events | RunOf(db, spelled, start, events) :: ServesRightly(Run(start, events)))
            <==> AllCanonical(db, spelled)
  {
    hide Run, Spells, Started;
    if AllCanonical(db, spelled) {
      hide Orderly, Inv, Finds, Fetch, RightlyServed;
      forall start, events | RunOf(db, spelled, start, events)
        ensures ServesRightly(Run(start, events))
      {
        RunInv(start, events);
        RunOrderly(start, events, spelled);
        var t := Run(start, events);
        forall c, own, device | Finds(t, c, own) && Fetch(t, c, own, device).Some?
          ensures RightlyServed(t, c, own, device)
        {
          ServedRightly(t, c, own, device);
        }
      }
    } else {
      hide Finds, Fetch, Approved, OneRowPerDevice;
      var spelling :| spelled(spelling) && !db.Canonical(spelling);
      var device := db.canon(spelling).value;
      SpellingsOf(spelled, spelling, device);
      UnapprovedServed(db, spelling);
      assert RunOf(db, spelled, Fresh(db), Beside(spelling, device));
    }
  }

  /** A device the host declined never has a participant row or a key envelope in the
      tunnel again, whatever is purged, expires or joins later. */
  ghost predicate StaysOut(start: Tunnel, events: seq<Event>) {
    forall i, j, device | 0 <= i < j <= |events| && DeclinesDevice(start, events, i, device) ::
      NoTrace(Before(start, events, j), device)
  }

  /** And every later join that names it is refused. */
  ghost predicate StaysRefused(start: Tunnel, events: seq<Event>, spelled: Id -> bool) {
    forall i, j, device | 0 <= i < j <= |events| && DeclinesDevice(start, events, i, device) ::
      Refuses(Before(start, events, j), device, spelled)
  }

  lemma DeclinedDeviceStaysOut(db: Reads, spelled: Id -> bool)
    requires db.Sound()
    ensures (forall start, events | RunOf(db, spelled, start, events) :: StaysOut(start, events))
            <==> AllCanonical(db, spelled)
  {
    hide Run, Spells, Started, Before, NoTrace, DeclinesDevice;
    if AllCanonical(db, spelled) {
      forall start, events | RunOf(db, spelled, start, events)
        ensures StaysOut(start, events)
      {
        forall i, j, device | 0 <= i < j <= |events| && DeclinesDevice(start, events, i, device)
          ensures NoTrace(Before(start, events, j), device)
        {
          NoTraceOfDeclined(start, events, i, j, device, spelled);
        }
      }
    } else {
      var spelling :| spelled(spelling) && !db.Canonical(spelling);
      SpellingsOf(spelled, spelling, "");
      DeclinedReturns(db, spelling);
      assert RunOf(db, spelled, Fresh(db), BackAgain(spelling));
    }
  }

  lemma DeclinedIsRefused(db: Reads, spelled: Id -> bool)
    requires db.Sound()
    ensures (forall start, events | RunOf(db, spelled, start, events) :: StaysRefused(start, events, spelled))
            <==> AllCanonical(db, spelled)
  {
    hide Run, Spells, Started, NoTrace, KeptOut, Join;
    if AllCanonical(db, spelled) {
      forall start, events | RunOf(db, spelled, start, events)
        ensures StaysRefused(start, events, spelled)
      {
        forall i, j, device | 0 <= i < j <= |events| && DeclinesDevice(start, events, i, device)
          ensures Refuses(Before(start, events, j), device, spelled)
        {
          hide Refuses;
          DeclinedKeptOut(start, events, i, j);
          RunInv(start, events[..j]);
          KeptOutRefuses(Before(start, events, j), device, spelled);
        }
      }
    } else {
      var spelling :| spelled(spelling) && !db.Canonical(spelling);
      var start, events, device := Fresh(db), BackAgain(spelling), db.canon(spelling).value;
      SpellingsOf(spelled, spelling, "");
      DeclinedReturns(db, spelling);
      assert RunOf(db, spelled, start, events);
      RunInv(start, events[..2]);
      assert !Refuses(Before(start, events, 2), device, spelled);
    }
  }
}
