/** The tunnel transactions as they change the tables, each proved to be its step. */
module TunnelService {
  import opened Prelude
  import opened Tunnels

  class TunnelStore {
    const db: Reads
    const hostUser: Option<int>
    const hostDevice: Option<Id>
    const startedAt: int
    const expiresAt: int
    var status: Status
    var rows: map<nat, Row>
    var rejections: set<Rejection>
    var envelopes: map<Id, Option<Key>>
    var deleted: bool
    var now: int

    ghost function State(): Tunnel
      reads this
    {
      Tunnel(db, hostUser, hostDevice, status, startedAt, expiresAt, rows, rejections, envelopes, deleted, now)
    }

    /** CreateTunnel and AddTunnelParticipant. */
    constructor (db: Reads, hostUser: Option<int>, hostDevice: Option<Id>, now: int, seconds: int)
      ensures State() == Start(db, hostUser, hostDevice, now, seconds)
      ensures status == Pending && startedAt == now && expiresAt == now + seconds && !deleted && this.now == now
      ensures rows == map[0 := Row(hostUser, hostDevice, None, None, true, now)] && rejections == {}
      ensures envelopes == map[] && this.hostUser == hostUser && this.hostDevice == hostDevice
    {
      this.db, this.hostUser, this.hostDevice, this.startedAt, this.expiresAt :=
        db, hostUser, hostDevice, now, now + seconds;
      status, rejections, envelopes, deleted, this.now := Pending, {}, map[], false, now;
      rows := map[0 := Row(hostUser, hostDevice, None, None, true, now)];
    }

    /** The earliest row a request finds by its spelling of a device id, or by its user
        without one. */
    method FindRow(user: Option<int>, spelling: Option<Id>) returns (found: Option<nat>)
      ensures found == RowFor(rows, user, spelling)
    {
      var rest := rows.Keys;
      found := None;
      while rest != {}
        invariant rest <= rows.Keys
        invariant found.None? ==> forall p | p in rows && p !in rest :: !IsRowFor(rows[p], user, spelling)
        invariant found.Some? ==>
            && found.value in rows && IsRowFor(rows[found.value], user, spelling)
            && forall p | p in rows && p !in rest && IsRowFor(rows[p], user, spelling) :: Earlier(rows, found.value, p)
        decreases rest
      {
        var p := Choose(rest);
        if IsRowFor(rows[p], user, spelling) && (found.None? || Earlier(rows, p, found.value)) {
          found := Some(p);
        }
        rest := rest - {p};
      }
    }

    method JoinTunnel(c: Caller, spelling: Option<Id>, p: nat, newToken: string, key: Option<Key>)
      returns (reply: Reply, issued: bool)
      modifies this
      ensures Outcome(State(), reply) == Join(old(State()), c, spelling, p, newToken, key)
      ensures issued <==> c.user.None? && reply == Done && p in rows && p !in old(rows)
    {
      issued := false;
      if deleted || status == Ended || now > expiresAt { return Refused(NotAvailable), issued; }
      if exists r | r in rejections :: (c.user.Some? && r.user == c.user) || (spelling.Some? && r.device == spelling) {
        return Refused(Declined), issued;
      }
      if status == Active { return Refused(AlreadyActive), issued; }
      if c.user.None? && spelling.None? { return Refused(GuestDeviceRequired), issued; }
      var found := FindRow(c.user, spelling);
      var id, had := p, "";
      if found.Some? {
        id := found.value;
        if !OwnedBy(rows[id], c.user, c.tokenHash) { return Refused(Conflict), issued; }
        had := KeyText(rows[id]);
      } else {
        var device := if spelling.Some? then db.canon(spelling.value) else None;
        if p in rows || (spelling.Some? && device.None?) || Taken(rows, c.user, device) {
          return Refused(Failed), issued;
        }
        rows := rows[p := Row(c.user, device, if c.user.None? then Some(newToken) else None, None, false, now)];
        issued := c.user.None?;
      }
      if key.Some? && key.value != "" && spelling.Some? && had != key.value {
        rows := rows[id := rows[id].(key := Some(db.jsonb(key.value)))];
        envelopes := envelopes - {spelling.value};
      }
      if status == Pending { status := Joined; }
      return Done, issued;
    }

    method RejectTunnelParticipant(c: Caller, p: nat) returns (reply: Reply)
      modifies this
      ensures Outcome(State(), reply) == Reject(old(State()), c, p)
    {
      if deleted || status == Ended || now > expiresAt { return Refused(NotAvailable); }
      if !(if hostUser.Some? then c.user == hostUser else c.hostToken) { return Refused(NotHost); }
      if p !in rows { return Refused(NotFound); }
      var row := rows[p];
      if (hostUser.Some? && row.user == hostUser)
         || (hostDevice.Some? && row.device.Some? && db.EqualFold(row.device.value, hostDevice.value)) {
        return Refused(HostRow);
      }
      rows := rows - {p};
      if row.device.Some? { envelopes := envelopes - {row.device.value}; }
      rejections := rejections + {Rejection(row.user, row.device, now)};
      return Done;
    }

    method PushParticipantEnvelope(c: Caller, device: Id) returns (reply: Reply)
      modifies this`envelopes
      ensures Outcome(State(), reply) == Push(old(State()), c, device)
    {
      if deleted || status == Ended || now > expiresAt { return Refused(NotAvailable); }
      if status != Active { return Refused(NotActive); }
      if !(if hostUser.Some? then c.user == hostUser else c.hostToken) { return Refused(NotHost); }
      var target := FindRow(None, Some(device));
      if target.None? || !rows[target.value].approved { return Refused(NotApproved); }
      if device in envelopes { return Refused(EnvelopeExists); }
      envelopes := envelopes[device := rows[target.value].key];
      return Done;
    }

    /** The caller's rows go; with the last row, the tunnel and all it holds. */
    method EndParticipation(c: Caller, own: Option<nat>) returns (reply: Reply)
      requires own.Some? ==> own.value in rows
      modifies this
      ensures Outcome(State(), reply) == Leave(old(State()), c, own)
    {
      if deleted { return Refused(NotFound); }
      var host := if hostUser.Some? then c.user == hostUser else c.hostToken;
      if !host && own.None? { return Refused(NotParticipant); }
      if c.user.Some? {
        rows := Without(rows, c.user, None);
      } else {
        var device: Option<Id> := None;
        if own.Some? && rows[own.value].device.Some? { device := rows[own.value].device; }
        else if host { device := hostDevice; }
        if device.None? { return Refused(NotParticipant); }
        rows := Without(rows, None, device);
      }
      if |rows| == 0 {
        rejections, envelopes, deleted := {}, map[], true;
        return Removed(true);
      }
      return Removed(false);
    }

    method PurgeTunnelRejections(days: nat, batch: set<Rejection>)
      requires days > 0
      modifies this`rejections
      ensures State() == Purge(old(State()), days, batch)
    {
      var cutoff := now - days * DAY;
      rejections := set r | r in rejections && !(r in batch && r.at < cutoff && (expiresAt <= now || status == Ended));
    }
  }
}
