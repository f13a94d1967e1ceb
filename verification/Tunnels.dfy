/** One quick share tunnel: who may join, whom the host admits or declines, and who
    gets the session key. Each handler call is one step. */
module Tunnels {
  import opened Prelude

  type Id = string
  type Key = string

  const DAY: int := 86400

  datatype Status = Pending | Joined | Active | Ended

  /** How the database reads texts, and how texts are compared without regard to case:
      `canon` gives the text of the UUID a spelling stands for, None if it is none; `jsonb`
      the text of a stored key; `fold` a text for EqualFold. */
  datatype Reads = Reads(canon: Id -> Option<Id>, jsonb: Key -> Key, fold: Id -> Id) {
    /** The text of a UUID stands for itself, in lower case. */
    ghost predicate Sound() {
      forall id | canon(id).Some? :: canon(canon(id).value) == canon(id) && fold(canon(id).value) == canon(id).value
    }

    /** The spelling of a device id is the one its row shows, if it is an id at all. */
    predicate Canonical(id: Id) {
      canon(id).Some? ==> canon(id) == Some(id)
    }

    /** A device as a row shows it. */
    predicate Shown(device: Option<Id>) {
      device.Some? ==> canon(device.value) == device
    }

    predicate EqualFold(a: Id, b: Id) {
      fold(a) == fold(b)
    }
  }

  /** A participant: a signed-in user, or a guest known by the hash of its token. Device
      and key are as the database shows them. */
  datatype Row = Row(
    user: Option<int>,
    device: Option<Id>,
    tokenHash: Option<string>,
    key: Option<Key>,
    approved: bool,
    joined: int)

  datatype Rejection = Rejection(user: Option<int>, device: Option<Id>, at: int)

  /** `envelopes` holds, by device, the public key the session key was wrapped for. */
  datatype Tunnel = Tunnel(
    db: Reads,
    hostUser: Option<int>,
    hostDevice: Option<Id>,
    status: Status,
    startedAt: int,
    expiresAt: int,
    rows: map<nat, Row>,
    rejections: set<Rejection>,
    envelopes: map<Id, Option<Key>>,
    deleted: bool,
    now: int)

  /** What a request proves: the session's user, the device header, the hash of the
      participant token, and whether the host's token came along. */
  datatype Caller = Caller(user: Option<int>, device: Option<Id>, tokenHash: Option<string>, hostToken: bool)

  datatype Refusal =
    | NotAvailable | Declined | AlreadyActive | GuestDeviceRequired | Conflict | NotHost | NotParticipant
    | NotFound | HostRow | NotActive | NotApproved | EnvelopeExists | Failed

  datatype Reply = Done | Removed(ended: bool) | Refused(why: Refusal)

  datatype Outcome = Outcome(tunnel: Tunnel, reply: Reply)

  // --- Who the caller is -----------------------------------------------------------

  predicate Available(t: Tunnel) {
    !t.deleted && t.status != Ended && t.now <= t.expiresAt
  }

  predicate IsHost(t: Tunnel, c: Caller) {
    if t.hostUser.Some? then c.user == t.hostUser else c.hostToken
  }

  /** participantOwnedBy. */
  predicate OwnedBy(row: Row, user: Option<int>, tokenHash: Option<string>) {
    if user.Some? then row.user == user
    else row.user.None? && row.tokenHash.Some? && row.tokenHash == tokenHash
  }

  /** FindTunnelParticipant: a row of the caller, for a user preferably this device's. */
  ghost predicate Finds(t: Tunnel, c: Caller, found: Option<nat>) {
    match found
    case Some(p) =>
      && p in t.rows && OwnedBy(t.rows[p], c.user, c.tokenHash)
      && (c.user.None? ==> c.device.Some? && t.rows[p].device == c.device)
      && (c.device.Some? && t.rows[p].device != c.device ==>
            forall q :: q in t.rows && OwnedBy(t.rows[q], c.user, c.tokenHash) ==> t.rows[q].device != c.device)
    case None =>
      forall q :: q in t.rows && OwnedBy(t.rows[q], c.user, c.tokenHash) ==>
        c.user.None? && (c.device.None? || t.rows[q].device != c.device)
  }

  predicate IsDevice(t: Tunnel, device: Option<Id>, named: Id) {
    device.Some? && t.db.EqualFold(device.value, named)
  }

  predicate OwnsDevice(t: Tunnel, c: Caller, own: Option<nat>, named: Id) {
    || (own.Some? && own.value in t.rows && IsDevice(t, t.rows[own.value].device, named))
    || (IsHost(t, c) && IsDevice(t, t.hostDevice, named))
  }

  predicate Approved(t: Tunnel, c: Caller, own: Option<nat>) {
    IsHost(t, c) || (own.Some? && own.value in t.rows && t.rows[own.value].approved)
  }

  predicate ParticipantIsHost(t: Tunnel, row: Row) {
    || (t.hostUser.Some? && row.user == t.hostUser)
    || (t.hostDevice.Some? && IsDevice(t, row.device, t.hostDevice.value))
  }

  /** The spelling of the request against the texts of the rejections. */
  predicate IsRejected(t: Tunnel, user: Option<int>, device: Option<Id>) {
    exists r | r in t.rejections :: (user.Some? && r.user == user) || (device.Some? && r.device == device)
  }

  // --- Steps ---------------------------------------------------------------------------

  function Refuse(t: Tunnel, why: Refusal): Outcome {
    Outcome(t, Refused(why))
  }

  /** The row a request looks up by its spelling of a device id, or without one the user's
      own without one. */
  predicate IsRowFor(row: Row, user: Option<int>, spelling: Option<Id>) {
    if spelling.Some? then row.device == spelling else row.user == user && row.device.None?
  }

  predicate Earlier(rows: map<nat, Row>, p: nat, q: nat)
    requires p in rows && q in rows
  {
    rows[p].joined < rows[q].joined || (rows[p].joined == rows[q].joined && p <= q)
  }

  predicate Earliest(rows: map<nat, Row>, user: Option<int>, spelling: Option<Id>, p: nat) {
    && p in rows && IsRowFor(rows[p], user, spelling)
    && forall q | q in rows && IsRowFor(rows[q], user, spelling) :: Earlier(rows, p, q)
  }

  lemma {:induction false} EarliestOf(rows: map<nat, Row>, ids: set<nat>) returns (p: nat)
    requires ids != {} && ids <= rows.Keys
    ensures p in ids && forall q | q in ids :: Earlier(rows, p, q)
  {
    p :| p in ids;
    if ids != {p} {
      var best := EarliestOf(rows, ids - {p});
      assert ids == (ids - {p}) + {p};
      if !Earlier(rows, p, best) { p := best; }
    } else {
      assert forall q | q in ids :: q == p;
    }
  }

  lemma EarliestExists(rows: map<nat, Row>, user: Option<int>, spelling: Option<Id>, p: nat)
    requires p in rows && IsRowFor(rows[p], user, spelling)
    ensures exists q :: Earliest(rows, user, spelling, q)
  {
    var ids := set q | q in rows && IsRowFor(rows[q], user, spelling);
    assert p in ids;
    var best := EarliestOf(rows, ids);
    assert Earliest(rows, user, spelling, best);
  }

  /** The earliest of them. */
  ghost function RowFor(rows: map<nat, Row>, user: Option<int>, spelling: Option<Id>): (found: Option<nat>)
    ensures found.Some? ==> Earliest(rows, user, spelling, found.value)
    ensures found.None? ==> forall p | p in rows :: !IsRowFor(rows[p], user, spelling)
  {
    if p :| Earliest(rows, user, spelling, p) then Some(p)
    else
      assert forall p | p in rows :: !IsRowFor(rows[p], user, spelling) by {
        forall p | p in rows && IsRowFor(rows[p], user, spelling)
          ensures false
        {
          EarliestExists(rows, user, spelling, p);
        }
      }
      None
  }

  /** The key's text, where a row without one reads as null. */
  function KeyText(row: Row): Key {
    if row.key.Some? then row.key.value else "null"
  }

  /** A key whose text differs from the row's replaces it, and the envelope stored under the
      request's spelling of the device goes. */
  function WithNewKey(t: Tunnel, p: nat, spelling: Option<Id>, key: Option<Key>, had: Key): Tunnel
    requires p in t.rows
  {
    if key.None? || key.value == "" || spelling.None? || had == key.value then t
    else
      t.(rows := t.rows[p := t.rows[p].(key := Some(t.db.jsonb(key.value)))],
         envelopes := t.envelopes - {spelling.value})
  }

  /** The insert's device, if the spelling is a UUID. */
  function DeviceOf(db: Reads, spelling: Option<Id>): Option<Option<Id>> {
    if spelling.None? then Some(None)
    else if db.canon(spelling.value).None? then None
    else Some(db.canon(spelling.value))
  }

  /** UNIQUE(tunnel_id, cns_user_id, device_id), in which NULLs differ. */
  predicate Taken(rows: map<nat, Row>, user: Option<int>, device: Option<Id>) {
    user.Some? && device.Some? && exists p | p in rows :: rows[p].user == user && rows[p].device == device
  }

  ghost function Join(t: Tunnel, c: Caller, spelling: Option<Id>, p: nat, newToken: string, key: Option<Key>): Outcome {
    if !Available(t) then Refuse(t, NotAvailable)
    else if IsRejected(t, c.user, spelling) then Refuse(t, Declined)
    else if t.status == Active then Refuse(t, AlreadyActive)
    else if c.user.None? && spelling.None? then Refuse(t, GuestDeviceRequired)
    else
      var found := RowFor(t.rows, c.user, spelling);
      if found.Some? then
        if !OwnedBy(t.rows[found.value], c.user, c.tokenHash) then Refuse(t, Conflict)
        else Joins(WithNewKey(t, found.value, spelling, key, KeyText(t.rows[found.value])))
      else
        var device := DeviceOf(t.db, spelling);
        if p in t.rows || device.None? || Taken(t.rows, c.user, device.value) then Refuse(t, Failed)
        else
          var row := Row(c.user, device.value, if c.user.None? then Some(newToken) else None, None, false, t.now);
          Joins(WithNewKey(t.(rows := t.rows[p := row]), p, spelling, key, ""))
  }

  function Joins(t: Tunnel): Outcome {
    Outcome(t.(status := if t.status == Pending then Joined else t.status), Done)
  }

  function Approve(t: Tunnel, c: Caller, p: nat): Outcome {
    if !Available(t) then Refuse(t, NotAvailable)
    else if !IsHost(t, c) then Refuse(t, NotHost)
    else if p !in t.rows then Refuse(t, NotFound)
    else Outcome(t.(rows := t.rows[p := t.rows[p].(approved := true)]), Done)
  }

  function Reject(t: Tunnel, c: Caller, p: nat): Outcome {
    if !Available(t) then Refuse(t, NotAvailable)
    else if !IsHost(t, c) then Refuse(t, NotHost)
    else if p !in t.rows then Refuse(t, NotFound)
    else if ParticipantIsHost(t, t.rows[p]) then Refuse(t, HostRow)
    else
      var row := t.rows[p];
      Outcome(
        t.(rows := t.rows - {p},
           envelopes := if row.device.Some? then t.envelopes - {row.device.value} else t.envelopes,
           rejections := t.rejections + {Rejection(row.user, row.device, t.now)}),
        Done)
  }

  /** A guest confirms for its own device, which has to be the initiator's. */
  function Confirm(t: Tunnel, c: Caller, own: Option<nat>, device: Id): Outcome {
    if !Available(t) then Refuse(t, NotAvailable)
    else if c.user.None? && !OwnsDevice(t, c, own, device) then Refuse(t, NotParticipant)
    else if !(if c.user.Some? then t.hostUser == c.user else t.hostUser.None? && t.hostDevice == Some(device))
    then Refuse(t, NotFound)
    else Outcome(t.(status := Active), Done)
  }

  ghost function Push(t: Tunnel, c: Caller, device: Id): Outcome {
    var target := RowFor(t.rows, None, Some(device));
    if !Available(t) then Refuse(t, NotAvailable)
    else if t.status != Active then Refuse(t, NotActive)
    else if !IsHost(t, c) then Refuse(t, NotHost)
    else if target.None? || !t.rows[target.value].approved then Refuse(t, NotApproved)
    else if device in t.envelopes then Refuse(t, EnvelopeExists)
    else Outcome(t.(envelopes := t.envelopes[device := t.rows[target.value].key]), Done)
  }

  /** RemoveTunnelParticipant. */
  function Without(rows: map<nat, Row>, user: Option<int>, device: Option<Id>): map<nat, Row> {
    map p | p in rows && (if user.Some? then rows[p].user != user else rows[p].device != device) :: rows[p]
  }

  /** Callers remove themselves: a user all its rows, a guest its own device's. */
  function Leave(t: Tunnel, c: Caller, own: Option<nat>): Outcome {
    if t.deleted then Refuse(t, NotFound)
    else if !IsHost(t, c) && own.None? then Refuse(t, NotParticipant)
    else
      var device :=
        if own.Some? && own.value in t.rows && t.rows[own.value].device.Some? then t.rows[own.value].device
        else if IsHost(t, c) then t.hostDevice else None;
      if c.user.None? && device.None? then Refuse(t, NotParticipant)
      else
        var rows := if c.user.Some? then Without(t.rows, c.user, None) else Without(t.rows, None, device);
        if rows == map[]
        then Outcome(t.(rows := map[], rejections := {}, envelopes := map[], deleted := true), Removed(true))
        else Outcome(t.(rows := rows), Removed(false))
  }

  /** EndTunnelsHostedBy, when the host's account is locked or gone. */
  function EndHostedBy(t: Tunnel, user: int): Tunnel {
    if t.hostUser == Some(user) && !t.deleted && t.status != Ended && t.expiresAt > t.now
    then t.(status := Ended)
    else t
  }

  /** One batch of PurgeTunnelRejections; a retention of no days never purges. */
  function Purge(t: Tunnel, days: nat, batch: set<Rejection>): Tunnel {
    if days == 0 then t
    else
      t.(rejections := set r | r in t.rejections &&
                         !(r in batch && r.at < t.now - days * DAY && (t.expiresAt <= t.now || t.status == Ended)))
  }

  /** GetParticipantEnvelope. */
  function Fetch(t: Tunnel, c: Caller, own: Option<nat>, device: Id): Option<Option<Key>> {
    if Available(t) && (IsHost(t, c) || own.Some?) && OwnsDevice(t, c, own, device) && device in t.envelopes
    then Some(t.envelopes[device]) else None
  }

  datatype Event =
    | JoinCall(caller: Caller, device: Option<Id>, p: nat, newToken: string, key: Option<Key>)
    | ApproveCall(caller: Caller, p: nat)
    | RejectCall(caller: Caller, p: nat)
    | ConfirmCall(caller: Caller, own: Option<nat>, hostDevice: Id)
    | PushCall(caller: Caller, target: Id)
    | LeaveCall(caller: Caller, own: Option<nat>)
    | EndHostedByCall(user: int)
    | PurgeCall(days: nat, batch: set<Rejection>)
    | Tick(passed: nat)

  ghost function Apply(t: Tunnel, e: Event): Tunnel {
    match e
    case JoinCall(c, device, p, newToken, key) => Join(t, c, device, p, newToken, key).tunnel
    case ApproveCall(c, p) => Approve(t, c, p).tunnel
    case RejectCall(c, p) => Reject(t, c, p).tunnel
    case ConfirmCall(c, own, device) => if Finds(t, c, own) then Confirm(t, c, own, device).tunnel else t
    case PushCall(c, device) => Push(t, c, device).tunnel
    case LeaveCall(c, own) => if Finds(t, c, own) then Leave(t, c, own).tunnel else t
    case EndHostedByCall(user) => EndHostedBy(t, user)
    case PurgeCall(days, batch) => Purge(t, days, batch)
    case Tick(passed) => t.(now := t.now + passed)
  }

  ghost function Run(t: Tunnel, events: seq<Event>): Tunnel {
    if events == [] then t else Apply(Run(t, events[..|events| - 1]), events[|events| - 1])
  }

  /** Start: the host's own row, approved from the beginning. */
  function Start(db: Reads, hostUser: Option<int>, hostDevice: Option<Id>, now: int, seconds: int): Tunnel {
    var row := Row(hostUser, hostDevice, None, None, true, now);
    Tunnel(db, hostUser, hostDevice, Pending, now, now + seconds, map[0 := row], {}, map[], false, now)
  }

  // --- What every step keeps --------------------------------------------------------------

  predicate Inv(t: Tunnel) {
    && (forall p | p in t.rows :: t.db.Shown(t.rows[p].device))
    && (forall d | d in t.envelopes :: t.db.canon(d) == Some(d))
    && t.db.Shown(t.hostDevice)
    && (t.envelopes != map[] ==> t.status == Active || t.status == Ended)
    && t.startedAt <= t.now && t.expiresAt <= t.startedAt + DAY
  }

  predicate OneRowPerDevice(rows: map<nat, Row>) {
    forall p, q | p in rows && q in rows && p != q ::
      (rows[p].device.Some? ==> rows[p].device != rows[q].device)
      && (rows[p].device.None? && rows[q].device.None? ==> rows[p].user != rows[q].user)
  }

  /** The session key is never wrapped for a present participant the host has not
      approved, nor for a key that is no longer the participant's. */
  predicate EnvelopesApproved(rows: map<nat, Row>, envelopes: map<Id, Option<Key>>) {
    forall p | p in rows && rows[p].device.Some? && rows[p].device.value in envelopes ::
      rows[p].approved && rows[p].key == envelopes[rows[p].device.value]
  }

  /** What holds as long as joins spell device ids as their rows do. */
  predicate Orderly(t: Tunnel) {
    OneRowPerDevice(t.rows) && EnvelopesApproved(t.rows, t.envelopes)
  }

  predicate WellSpelled(db: Reads, e: Event) {
    e.JoinCall? && e.device.Some? ==> db.Canonical(e.device.value)
  }

  lemma StartInv(db: Reads, hostUser: Option<int>, hostDevice: Option<Id>, now: int, seconds: int)
    requires 600 <= seconds <= DAY && db.Shown(hostDevice)
    ensures Inv(Start(db, hostUser, hostDevice, now, seconds))
    ensures Orderly(Start(db, hostUser, hostDevice, now, seconds))
  {
  }

  lemma NewKeyKeeps(t: Tunnel, p: nat, spelling: Option<Id>, key: Option<Key>, had: Key)
    requires Inv(t) && p in t.rows
    ensures Inv(WithNewKey(t, p, spelling, key, had)) && Inv(Joins(WithNewKey(t, p, spelling, key, had)).tunnel)
  {
  }

  lemma JoinKeeps(t: Tunnel, c: Caller, spelling: Option<Id>, p: nat, newToken: string, key: Option<Key>)
    requires Inv(t) && t.db.Sound()
    ensures Inv(Join(t, c, spelling, p, newToken, key).tunnel)
  {
    var found := RowFor(t.rows, c.user, spelling);
    if found.Some? {
      NewKeyKeeps(t, found.value, spelling, key, KeyText(t.rows[found.value]));
    } else if DeviceOf(t.db, spelling).Some? {
      var device := DeviceOf(t.db, spelling).value;
      var row := Row(c.user, device, if c.user.None? then Some(newToken) else None, None, false, t.now);
      NewKeyKeeps(t.(rows := t.rows[p := row]), p, spelling, key, "");
    }
    hide WithNewKey, Joins, Inv, RowFor;
  }

  lemma NewRowIsAlone(rows: map<nat, Row>, p: nat, row: Row)
    requires OneRowPerDevice(rows) && forall q | q in rows :: !IsRowFor(rows[q], row.user, row.device)
    ensures OneRowPerDevice(rows[p := row])
  {
  }

  lemma NewKeyOneRow(t: Tunnel, p: nat, spelling: Option<Id>, key: Option<Key>, had: Key)
    requires OneRowPerDevice(t.rows) && p in t.rows
    ensures OneRowPerDevice(Joins(WithNewKey(t, p, spelling, key, had)).tunnel.rows)
  {
  }

  lemma JoinOneRow(t: Tunnel, c: Caller, spelling: Option<Id>, p: nat, newToken: string, key: Option<Key>)
    requires OneRowPerDevice(t.rows) && (spelling.Some? ==> t.db.Canonical(spelling.value))
    ensures OneRowPerDevice(Join(t, c, spelling, p, newToken, key).tunnel.rows)
  {
    var found := RowFor(t.rows, c.user, spelling);
    if found.Some? {
      NewKeyOneRow(t, found.value, spelling, key, KeyText(t.rows[found.value]));
    } else if DeviceOf(t.db, spelling).Some? {
      var row := Row(c.user, spelling, if c.user.None? then Some(newToken) else None, None, false, t.now);
      NewRowIsAlone(t.rows, p, row);
      NewKeyOneRow(t.(rows := t.rows[p := row]), p, spelling, key, "");
    }
    hide WithNewKey, Joins, OneRowPerDevice, RowFor, IsRowFor;
  }

  /** A new row has no envelope yet: the tunnel is not active. */
  lemma JoinEnvelopes(t: Tunnel, c: Caller, spelling: Option<Id>, p: nat, newToken: string, key: Option<Key>)
    requires Inv(t) && Orderly(t)
    ensures
      var u := Join(t, c, spelling, p, newToken, key).tunnel;
      EnvelopesApproved(u.rows, u.envelopes)
  {
  }

  lemma OthersInv(t: Tunnel, e: Event)
    requires Inv(t) && !e.JoinCall?
    ensures Inv(Apply(t, e)) && Apply(t, e).db == t.db
  {
    match e
    case LeaveCall(c, own) => hide Join, Reject, Push, Confirm, Finds, Without;
    case PushCall(c, device) => hide Join, Reject, Leave, Confirm, Finds;
    case RejectCall(c, p) => hide Join, Push, Leave, Confirm, Finds;
    case _ => hide Join, Push, Leave, Reject, Finds;
  }

  lemma StepInv(t: Tunnel, e: Event)
    requires Inv(t) && t.db.Sound()
    ensures Inv(Apply(t, e)) && Apply(t, e).db == t.db
  {
    if e.JoinCall? {
      JoinKeeps(t, e.caller, e.device, e.p, e.newToken, e.key);
      JoinKeepsReads(t, e.caller, e.device, e.p, e.newToken, e.key);
      hide Inv, Join;
    } else {
      OthersInv(t, e);
    }
  }

  lemma JoinKeepsReads(t: Tunnel, c: Caller, spelling: Option<Id>, p: nat, newToken: string, key: Option<Key>)
    ensures Join(t, c, spelling, p, newToken, key).tunnel.db == t.db
  {
  }

  lemma OthersOrderly(t: Tunnel, e: Event)
    requires Inv(t) && Orderly(t) && !e.JoinCall?
    ensures Orderly(Apply(t, e))
  {
    match e
    case LeaveCall(c, own) => hide Join, Reject, Push, Confirm, Finds;
    case PushCall(c, device) => hide Join, Reject, Leave, Confirm, Finds;
    case RejectCall(c, p) => hide Join, Push, Leave, Confirm, Finds;
    case _ => hide Join, Push, Leave, Reject, Finds;
  }

  lemma StepOrderly(t: Tunnel, e: Event)
    requires Inv(t) && Orderly(t) && WellSpelled(t.db, e)
    ensures Orderly(Apply(t, e))
  {
    if e.JoinCall? {
      JoinOneRow(t, e.caller, e.device, e.p, e.newToken, e.key);
      JoinEnvelopes(t, e.caller, e.device, e.p, e.newToken, e.key);
      hide Join, OneRowPerDevice, EnvelopesApproved;
    } else {
      OthersOrderly(t, e);
    }
  }
}
