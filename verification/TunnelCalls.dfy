/** What each tunnel call changes, and when, in terms of the rows it finds. */
module TunnelCalls {
  import opened Prelude
  import opened Tunnels
  import opened TunnelGuarantees

  // --- Who asks, and whether the tunnel still answers -------------------------------------

  /** A tunnel answers until it is left by all, ended, or past its time. */
  predicate Answers(t: Tunnel) {
    && !t.deleted && (t.status == Pending || t.status == Joined || t.status == Active)
    && !(t.now > t.expiresAt)
  }

  /** The host proves itself by its account, or without one by the host token. */
  predicate Hosts(t: Tunnel, c: Caller) {
    match t.hostUser
    case Some(user) => c.user == Some(user)
    case None => c.hostToken
  }

  /** A row belongs to its account, or without one to whoever presents its token. */
  predicate Owns(row: Row, c: Caller) {
    match (c.user, row.user)
    case (Some(u), Some(v)) => u == v
    case (None, None) => row.tokenHash.Some? && c.tokenHash == row.tokenHash
    case _ => false
  }

  /** The row a request with this device means, or without one the user's own. */
  predicate Means(row: Row, c: Caller, device: Option<Id>) {
    match device
    case Some(d) => row.device == Some(d)
    case None => row.user == c.user && row.device == None
  }

  /** The earliest such row; ids decide between rows of one moment. */
  predicate IsFirst(t: Tunnel, c: Caller, device: Option<Id>, p: nat) {
    && p in t.rows && Means(t.rows[p], c, device)
    && forall q | q in t.rows && Means(t.rows[q], c, device) && q != p ::
         t.rows[p].joined < t.rows[q].joined || (t.rows[p].joined == t.rows[q].joined && p < q)
  }

  predicate IsDeclined(t: Tunnel, user: Option<int>, device: Option<Id>) {
    exists r | r in t.rejections :: (r.user.Some? && r.user == user) || (r.device.Some? && r.device == device)
  }

  lemma FirstIsFound(t: Tunnel, c: Caller, device: Option<Id>)
    ensures RowFor(t.rows, c.user, device).Some? ==> IsFirst(t, c, device, RowFor(t.rows, c.user, device).value)
    ensures RowFor(t.rows, c.user, device).None? ==> forall p | p in t.rows :: !Means(t.rows[p], c, device)
  {
  }

  // --- Joining -----------------------------------------------------------------------------

  /** The device a new row gets; an account has at most one row of a device. */
  predicate MayEnter(t: Tunnel, c: Caller, device: Option<Id>, p: nat) {
    && p !in t.rows && (device.Some? ==> t.db.canon(device.value).Some?)
    && forall q | q in t.rows && c.user.Some? && device.Some? ::
         t.rows[q].user != c.user || t.rows[q].device != t.db.canon(device.value)
  }

  /** Nobody turns a join away: the tunnel still waits for its start, the caller was not
      declined, and a guest names its device. */
  predicate Waits(t: Tunnel, c: Caller, device: Option<Id>) {
    Answers(t) && !IsDeclined(t, c.user, device) && t.status != Active && (c.user.Some? || device.Some?)
  }

  /** Who may join: the owner of the first row it means, or anybody if there is none. */
  lemma JoinsExactly(t: Tunnel, c: Caller, device: Option<Id>, p: nat, newToken: string, key: Option<Key>)
    ensures
      var reply := Join(t, c, device, p, newToken, key).reply;
      var known := exists q | q in t.rows :: Means(t.rows[q], c, device);
      && (reply == Done <==>
            && Waits(t, c, device)
            && if known then exists q :: IsFirst(t, c, device, q) && Owns(t.rows[q], c) else MayEnter(t, c, device, p))
      && (reply == Refused(NotAvailable) <==> !Answers(t))
      && (reply == Refused(Declined) <==> Answers(t) && IsDeclined(t, c.user, device))
      && (reply == Refused(AlreadyActive) <==>
            Answers(t) && !IsDeclined(t, c.user, device) && t.status == Active)
      && (reply == Refused(Conflict) <==>
            Waits(t, c, device) && exists q :: IsFirst(t, c, device, q) && !Owns(t.rows[q], c))
  {
    FirstIsFound(t, c, device);
    var found := RowFor(t.rows, c.user, device);
    hide RowFor, WithNewKey;
    if found.Some? {
      assert forall q | IsFirst(t, c, device, q) :: q == found.value;
    }
  }

  /** The call adds a row. */
  predicate Enters(t: Tunnel, e: Event) {
    && e.JoinCall? && Waits(t, e.caller, e.device) && MayEnter(t, e.caller, e.device, e.p)
    && forall q | q in t.rows :: !Means(t.rows[q], e.caller, e.device)
  }

  /** Its row: the caller's account, or a token for a guest, the device as the database
      writes it, and not approved. */
  function NewRow(t: Tunnel, c: Caller, device: Option<Id>, newToken: string, key: Option<Key>): Row {
    var token := if c.user == None then Some(newToken) else None;
    var shown := if device.Some? then t.db.canon(device.value) else None;
    var text := if key.Some? && device.Some? && key != Some("") then Some(t.db.jsonb(key.value)) else None;
    Row(c.user, shown, token, text, false, t.now)
  }

  /** The owner of the row joins again with a key whose text is another. */
  predicate Rekeys(t: Tunnel, e: Event, p: nat) {
    && e.JoinCall? && e.key.Some? && e.key != Some("") && e.device.Some? && Waits(t, e.caller, e.device)
    && IsFirst(t, e.caller, e.device, p) && Owns(t.rows[p], e.caller)
    && e.key.value != (if t.rows[p].key == None then "null" else t.rows[p].key.value)
  }

  lemma JoinChangesExactly(t: Tunnel, e: Event, p: nat)
    requires e.JoinCall?
    ensures
      var u := Apply(t, e);
      && (p in u.rows <==> p in t.rows || (Enters(t, e) && p == e.p))
      && (p in u.rows && p !in t.rows ==> u.rows[p] == NewRow(t, e.caller, e.device, e.newToken, e.key))
      && (p in t.rows ==>
            u.rows[p] == if Rekeys(t, e, p) then t.rows[p].(key := Some(t.db.jsonb(e.key.value))) else t.rows[p])
  {
    FirstIsFound(t, e.caller, e.device);
    var found := RowFor(t.rows, e.caller.user, e.device);
    hide RowFor;
    if found.Some? {
      assert forall q | IsFirst(t, e.caller, e.device, q) :: q == found.value;
    }
  }

  // --- The other calls ----------------------------------------------------------------------

  /** The host's own row, by its account or its device. */
  predicate IsHostRow(t: Tunnel, row: Row) {
    || (t.hostUser.Some? && row.user == t.hostUser)
    || (t.hostDevice.Some? && row.device.Some? && t.db.fold(row.device.value) == t.db.fold(t.hostDevice.value))
  }

  predicate Approves(t: Tunnel, e: Event, p: nat) {
    e.ApproveCall? && e.p == p && p in t.rows && Answers(t) && Hosts(t, e.caller)
  }

  predicate Rejects(t: Tunnel, e: Event, p: nat) {
    e.RejectCall? && e.p == p && p in t.rows && Answers(t) && Hosts(t, e.caller) && !IsHostRow(t, t.rows[p])
  }

  /** A guest leaves with all rows of the device its own row has, or as the host with those
      of the initiator's. */
  function GuestsDevice(t: Tunnel, c: Caller, own: Option<nat>): Option<Id> {
    if own.Some? && own.value in t.rows && t.rows[own.value].device != None then t.rows[own.value].device
    else if Hosts(t, c) then t.hostDevice else None
  }

  /** Leaving takes this row along. */
  ghost predicate Leaves(t: Tunnel, e: Event, row: Row) {
    && e.LeaveCall? && Finds(t, e.caller, e.own) && !t.deleted && (Hosts(t, e.caller) || e.own.Some?)
    && if e.caller.user.Some? then row.user == e.caller.user
       else row.device.Some? && row.device == GuestsDevice(t, e.caller, e.own)
  }

  /** All that any call may do to a participant's row, and when it does it. */
  lemma RowsChangeExactly(t: Tunnel, e: Event, p: nat)
    ensures
      var u := Apply(t, e);
      && (p in u.rows <==>
            (Enters(t, e) && p == e.p) || (p in t.rows && !Rejects(t, e, p) && !Leaves(t, e, t.rows[p])))
      && (p in u.rows && p !in t.rows ==> u.rows[p] == NewRow(t, e.caller, e.device, e.newToken, e.key))
      && (p in u.rows && p in t.rows ==>
            u.rows[p] == if Approves(t, e, p) then t.rows[p].(approved := true)
                         else if Rekeys(t, e, p) then t.rows[p].(key := Some(t.db.jsonb(e.key.value)))
                         else t.rows[p])
  {
    hide Finds, Waits, MayEnter, Means, IsFirst, Join;
    match e
    case JoinCall(c, device, q, newToken, key) => JoinChangesExactly(t, e, p);
    case LeaveCall(c, own) => hide Reject, Approve, Confirm, Push;
    case _ => hide Leave;
  }

  /** The host sends a device's key: the first row of the device is approved, and none was
      sent before. */
  predicate Sends(t: Tunnel, e: Event, device: Id, p: nat) {
    && e.PushCall? && e.target == device && Answers(t) && t.status == Active && Hosts(t, e.caller)
    && IsFirst(t, Caller(None, None, None, false), Some(device), p) && t.rows[p].approved && device !in t.envelopes
  }

  /** The last row goes, and everything with it. */
  ghost predicate Empties(t: Tunnel, e: Event) {
    && e.LeaveCall? && Finds(t, e.caller, e.own) && !t.deleted && (Hosts(t, e.caller) || e.own.Some?)
    && (e.caller.user.None? ==> GuestsDevice(t, e.caller, e.own) != None)
    && forall p | p in t.rows :: Leaves(t, e, t.rows[p])
  }

  lemma PushSends(t: Tunnel, e: Event)
    requires e.PushCall?
    ensures forall p | Sends(t, e, e.target, p) ::
              Apply(t, e) == t.(envelopes := t.envelopes[e.target := t.rows[p].key])
    ensures (forall p :: !Sends(t, e, e.target, p)) ==> Apply(t, e) == t
  {
    FirstIsFound(t, Caller(None, None, None, false), Some(e.target));
    var found := RowFor(t.rows, None, Some(e.target));
    hide RowFor, Means;
    if found.Some? {
      assert forall p | Sends(t, e, e.target, p) :: p == found.value;
      assert Apply(t, e) != t ==> Sends(t, e, e.target, found.value);
    }
  }

  lemma LeaveEmpties(t: Tunnel, e: Event)
    requires e.LeaveCall?
    ensures Apply(t, e) == if Empties(t, e)
                           then t.(rows := map[], rejections := {}, envelopes := map[], deleted := true)
                           else t.(rows := Apply(t, e).rows)
  {
    hide Finds;
    var device := GuestsDevice(t, e.caller, e.own);
    var rows := if e.caller.user.Some? then Without(t.rows, e.caller.user, None) else Without(t.rows, None, device);
    assert forall p | p in t.rows && p !in rows ::
        if e.caller.user.Some? then t.rows[p].user == e.caller.user else t.rows[p].device == device;
    if Empties(t, e) {
      assert rows.Keys == {};
      assert rows == map[];
    }
  }

  /** Envelopes come by the host's push for the key of an approved row, and go when their
      device is declined or the tunnel is left by all. */
  lemma EnvelopesChangeExactly(t: Tunnel, e: Event, device: Id)
    requires Inv(t)
    ensures
      var u := Apply(t, e);
      var declined := e.RejectCall? && Rejects(t, e, e.p) && t.rows[e.p].device == Some(device);
      && (device in u.envelopes <==>
            (exists p :: Sends(t, e, device, p)) || (device in t.envelopes && !declined && !Empties(t, e)))
      && (forall p | Sends(t, e, device, p) :: u.envelopes[device] == t.rows[p].key)
      && (device in t.envelopes && device in u.envelopes ==> u.envelopes[device] == t.envelopes[device])
  {
    hide Finds, Waits, MayEnter, Means;
    match e
    case JoinCall(_, _, _, _, _) => hide RowFor, IsFirst, Leave;
    case PushCall(c, target) => PushSends(t, e); hide Apply, IsFirst, Leaves;
    case LeaveCall(c, own) => LeaveEmpties(t, e); hide Apply, Leaves, IsFirst;
    case _ => hide Leave, Join, Push, IsFirst;
  }

  /** The named device is the caller's row's, or to the host the initiator's. */
  predicate OwnsNamed(t: Tunnel, c: Caller, own: Option<nat>, named: Id) {
    || (own.Some? && own.value in t.rows && t.rows[own.value].device.Some?
        && t.db.fold(t.rows[own.value].device.value) == t.db.fold(named))
    || (Hosts(t, c) && t.hostDevice.Some? && t.db.fold(t.hostDevice.value) == t.db.fold(named))
  }

  /** Who starts the session. */
  ghost predicate Starts(t: Tunnel, e: Event) {
    && e.ConfirmCall? && Finds(t, e.caller, e.own) && Answers(t) && e.caller.user == t.hostUser
    && (t.hostUser.None? ==> t.hostDevice == Some(e.hostDevice) && OwnsNamed(t, e.caller, e.own, e.hostDevice))
  }

  /** A join that is let in. */
  ghost predicate Lets(t: Tunnel, e: Event) {
    && e.JoinCall? && Waits(t, e.caller, e.device)
    && (Enters(t, e) || exists p :: IsFirst(t, e.caller, e.device, p) && Owns(t.rows[p], e.caller))
  }

  /** The host's account is locked or gone. */
  predicate Ends(t: Tunnel, e: Event) {
    e.EndHostedByCall? && t.hostUser == Some(e.user) && !t.deleted && t.status != Ended && t.now < t.expiresAt
  }

  lemma JoinStatus(t: Tunnel, e: Event)
    requires e.JoinCall?
    ensures
      var u := Apply(t, e);
      && u == t.(rows := u.rows, envelopes := u.envelopes, status := u.status)
      && u.status == if Lets(t, e) && t.status == Pending then Joined else t.status
  {
    JoinsExactly(t, e.caller, e.device, e.p, e.newToken, e.key);
    FirstIsFound(t, e.caller, e.device);
    hide RowFor, Waits, Means, MayEnter, IsFirst;
  }

  /** The tunnel itself: waiting, joined, started and ended, and in the end deleted. */
  lemma TunnelChangesExactly(t: Tunnel, e: Event)
    ensures
      var u := Apply(t, e);
      && u.status == (if Lets(t, e) && t.status == Pending then Joined
                      else if Starts(t, e) then Active else if Ends(t, e) then Ended else t.status)
      && (u.deleted <==> t.deleted || Empties(t, e))
      && u.now == t.now + (if e.Tick? then e.passed else 0)
      && u.db == t.db && u.hostUser == t.hostUser && u.hostDevice == t.hostDevice
      && u.startedAt == t.startedAt && u.expiresAt == t.expiresAt
  {
    hide Finds, MayEnter, Means;
    match e
    case JoinCall(c, device, p, newToken, key) => JoinStatus(t, e); hide Join, Waits, IsFirst, Leave;
    case LeaveCall(c, own) => LeaveEmpties(t, e); hide Apply, Leaves, IsFirst, Waits;
    case _ => hide Leave, Join, Push, IsFirst, Waits;
  }

  /** Rejections are made by declining and go by a purge, once they are old enough and the
      tunnel is over, or with the tunnel. */
  lemma RejectionsChangeExactly(t: Tunnel, e: Event, r: Rejection)
    ensures
      var declined := e.RejectCall? && Rejects(t, e, e.p)
                      && r == Rejection(t.rows[e.p].user, t.rows[e.p].device, t.now);
      var purged := e.PurgeCall? && r in e.batch && 0 < e.days && r.at < t.now - 86400 * e.days
                    && (t.now >= t.expiresAt || t.status == Ended);
      r in Apply(t, e).rejections <==> declined || (r in t.rejections && !purged && !Empties(t, e))
  {
    hide Finds, Waits, MayEnter, Means, IsFirst;
    match e
    case LeaveCall(c, own) => LeaveEmpties(t, e); hide Apply, Leaves;
    case JoinCall(_, _, _, _, _) => hide RowFor;
    case _ => hide Leave, Join, Push;
  }

  // --- Answers --------------------------------------------------------------------------------

  /** What the host is told. */
  lemma HostIsTold(t: Tunnel, c: Caller, p: nat)
    ensures
      var approve, reject := Approve(t, c, p).reply, Reject(t, c, p).reply;
      && (approve == Done <==> Approves(t, ApproveCall(c, p), p))
      && (reject == Done <==> Rejects(t, RejectCall(c, p), p))
      && (approve == Refused(NotAvailable) <==> !Answers(t)) && (reject == Refused(NotAvailable) <==> !Answers(t))
      && (approve == Refused(NotHost) <==> Answers(t) && !Hosts(t, c))
      && (reject == Refused(NotHost) <==> Answers(t) && !Hosts(t, c))
      && (approve == Refused(NotFound) <==> Answers(t) && Hosts(t, c) && p !in t.rows)
      && (reject == Refused(NotFound) <==> Answers(t) && Hosts(t, c) && p !in t.rows)
      && (reject == Refused(HostRow) <==> Answers(t) && Hosts(t, c) && p in t.rows && IsHostRow(t, t.rows[p]))
  {
  }

  /** What a pushing host is told. */
  lemma PusherIsTold(t: Tunnel, c: Caller, device: Id)
    ensures
      var reply := Push(t, c, device).reply;
      var may := Answers(t) && t.status == Active && Hosts(t, c);
      var approved := exists p :: IsFirst(t, Caller(None, None, None, false), Some(device), p) && t.rows[p].approved;
      && (reply == Done <==> may && approved && device !in t.envelopes)
      && (reply == Refused(NotAvailable) <==> !Answers(t))
      && (reply == Refused(NotActive) <==> Answers(t) && t.status != Active)
      && (reply == Refused(NotHost) <==> Answers(t) && t.status == Active && !Hosts(t, c))
      && (reply == Refused(NotApproved) <==> may && !approved)
      && (reply == Refused(EnvelopeExists) <==> may && approved && device in t.envelopes)
  {
    var any := Caller(None, None, None, false);
    FirstIsFound(t, any, Some(device));
    var found := RowFor(t.rows, None, Some(device));
    hide RowFor, Means;
    if found.Some? {
      assert forall p | IsFirst(t, any, Some(device), p) :: p == found.value;
    }
  }

  /** What the one who starts or leaves is told. */
  lemma CallerIsTold(t: Tunnel, c: Caller, own: Option<nat>, named: Id)
    requires Finds(t, c, own)
    ensures
      var start, leave := Confirm(t, c, own, named).reply, Leave(t, c, own).reply;
      var emptied := Empties(t, LeaveCall(c, own));
      var may := !t.deleted && (Hosts(t, c) || own.Some?) && (c.user.None? ==> GuestsDevice(t, c, own) != None);
      && (start == Done <==> Starts(t, ConfirmCall(c, own, named)))
      && (start == Refused(NotAvailable) <==> !Answers(t))
      && (start == Refused(NotParticipant) <==> Answers(t) && c.user.None? && !OwnsNamed(t, c, own, named))
      && (start == Refused(NotFound) <==>
            && Answers(t) && (c.user.None? ==> OwnsNamed(t, c, own, named))
            && !Starts(t, ConfirmCall(c, own, named)))
      && (leave == Removed(true) <==> emptied) && (leave == Removed(false) <==> may && !emptied)
      && (leave == Refused(NotFound) <==> t.deleted) && (leave == Refused(NotParticipant) <==> !t.deleted && !may)
  {
    LeaveEmpties(t, LeaveCall(c, own));
    hide Finds, Leaves;
  }

  /** Who is served which envelope: one that is there, for the caller's own device or, to
      the host, the initiator's. */
  lemma ServesExactly(t: Tunnel, c: Caller, own: Option<nat>, device: Id)
    ensures
      Fetch(t, c, own, device)
      == if Answers(t) && OwnsNamed(t, c, own, device) && device in t.envelopes then Some(t.envelopes[device])
         else None
  {
  }

  /** The row a caller acts through: a user's own, preferably of this device, or a guest's of
      this device by its token; and none only if there is none. */
  lemma FindsExactly(t: Tunnel, c: Caller, own: Option<nat>)
    requires Finds(t, c, own)
    ensures own.Some? ==> own.value in t.rows && Owns(t.rows[own.value], c)
    ensures own.Some? && c.user == None ==> c.device != None && t.rows[own.value].device == c.device
    ensures forall p | p in t.rows && Owns(t.rows[p], c) && c.device != None ::
              t.rows[p].device == c.device ==> own.Some? && t.rows[own.value].device == c.device
    ensures c.user != None ==> (own.Some? <==> exists p | p in t.rows :: Owns(t.rows[p], c))
  {
  }

  /** Every caller has such a row or none. */
  lemma SomethingIsFound(t: Tunnel, c: Caller)
    ensures exists own :: Finds(t, c, own)
  {
    if p :| p in t.rows && OwnedBy(t.rows[p], c.user, c.tokenHash) && c.device.Some? && t.rows[p].device == c.device {
      assert Finds(t, c, Some(p));
    } else if p :| p in t.rows && OwnedBy(t.rows[p], c.user, c.tokenHash) && c.user.Some? {
      assert Finds(t, c, Some(p));
    } else {
      assert Finds(t, c, None);
    }
  }

  // --- Approval over whole runs ---------------------------------------------------------------

  /** The row that started the tunnel, never gone since. */
  ghost predicate IsStartersRow(start: Tunnel, events: seq<Event>, p: nat) {
    p == 0 && forall k | 0 <= k <= |events| :: p in Run(start, events[..k]).rows
  }

  /** The host approves the row at i, and it is there ever since. */
  ghost predicate ApprovedAt(start: Tunnel, events: seq<Event>, p: nat, i: nat) {
    && i < |events| && Approves(Run(start, events[..i]), events[i], p)
    && forall k | i <= k <= |events| :: p in Run(start, events[..k]).rows
  }

  /** Over every run, a participant is approved if and only if the host approved it since its
      row was added, or it is the row the tunnel was started with. */
  lemma {:induction false} ApprovedByHost(start: Tunnel, events: seq<Event>, p: nat)
    requires Started(start) && p in Run(start, events).rows
    ensures Run(start, events).rows[p].approved <==>
              IsStartersRow(start, events, p) || exists i: nat :: ApprovedAt(start, events, p, i)
  {
    hide Apply, Approves, NewRow, Enters, Rejects, Leaves, Rekeys, Started;
    if events == [] {
      StartersRow(start);
      assert forall k | 0 <= k <= 0 :: events[..k] == events;
    } else {
      var last := |events| - 1;
      var prior := events[..last];
      var t := Run(start, prior);
      assert Run(start, events) == Apply(t, events[last]);
      assert forall k | 0 <= k <= last :: events[..k] == prior[..k];
      assert prior[..last] == prior && events[..|events|] == events;
      RowsChangeExactly(t, events[last], p);
      NewRowsWait(t, events[last]);
      hide Run;
      if p in t.rows {
        ApprovedByHost(start, prior, p);
        assert IsStartersRow(start, events, p) <==> IsStartersRow(start, prior, p);
        if i: nat :| ApprovedAt(start, prior, p, i) {
          assert ApprovedAt(start, events, p, i);
        }
        if i: nat :| ApprovedAt(start, events, p, i) {
          assert i == last || ApprovedAt(start, prior, p, i);
        }
      } else {
        assert p !in Run(start, events[..last]).rows;
        assert forall i: nat :: !ApprovedAt(start, events, p, i);
      }
      if Approves(t, events[last], p) {
        assert ApprovedAt(start, events, p, last);
      }
    }
  }

  lemma StartersRow(start: Tunnel)
    requires Started(start)
    ensures start.rows.Keys == {0} && start.rows[0].approved
  {
  }

  lemma NewRowsWait(t: Tunnel, e: Event)
    ensures Enters(t, e) ==> e.JoinCall? && !NewRow(t, e.caller, e.device, e.newToken, e.key).approved
    ensures forall p :: Approves(t, e, p) ==> p in t.rows
  {
  }
}
