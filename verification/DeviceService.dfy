/** The device identity calls as they change the account's tables, statement by
    statement, each proved to be its step of DeviceTrust. */
module DeviceService {
  import opened Prelude
  import opened DeviceTrust

  class DeviceStore {
    const canon: Id -> Option<Id>
    var devices: map<Id, Device>
    var foreign: set<Id>
    var keys: seq<IdentityKey>
    var envelopes: set<Envelope>
    var legacy: set<Id>
    var escrow: Option<int>
    var enrollments: map<Id, Enrollment>
    var fileKeys: map<Id, int>
    var now: int

    ghost function State(): Account
      reads this
    {
      Account(canon, devices, foreign, keys, envelopes, legacy, escrow, enrollments, fileKeys, now)
    }

    /** `id` is the device id as the database reads it. */
    method CreateOrUpdateUserDevice(id: Id, kind: Kind) returns (ok: bool)
      modifies this`devices
      ensures ok <==> id !in foreign
      ensures devices == if ok then Upserted(old(devices), id, kind) else old(devices)
    {
      if id in foreign { return false; }
      if id in devices {
        devices := devices[id := devices[id].(revoked := false)];
      } else {
        devices := devices[id := Device(kind, false)];
      }
      return true;
    }

    /** The row and its creator's copy; fails on a version or an active key already there. */
    method InsertIdentityKeyWithEnvelope(version: int, device: Id) returns (ok: bool)
      modifies this`keys, this`envelopes
      ensures ok <==> !HasVersion(old(keys), version) && ActiveVersion(old(keys)).None?
      ensures State() == if ok then WithKey(old(State()), version, device) else old(State())
    {
      if HasVersion(keys, version) || ActiveVersion(keys).Some? { return false; }
      keys := keys + [IdentityKey(version, Active)];
      envelopes := envelopes + {Envelope(device, version)};
      return true;
    }

    /** GetDeviceKind compares the rows' texts with the spelling of the request. */
    method GetDeviceKind(spelling: Id, requested: Option<Kind>) returns (kind: Kind)
      ensures kind == KindSeen(State(), spelling, requested)
    {
      kind := if requested.Some? then requested.value else Standard;
      if spelling in devices { kind := devices[spelling].kind; }
    }

    method DoRegister(spelling: Id, kind: Option<Kind>, offer: Offer) returns (reply: Reply)
      modifies this
      ensures Outcome(State(), reply) == Register(old(State()), spelling, kind, offer)
    {
      var fixed := GetDeviceKind(spelling, kind);
      if fixed == Approver && offer != NoKey { return Refused(ApproverRestricted); }
      if canon(spelling).None? { return Refused(Failed); }
      var device := canon(spelling).value;
      var ok := CreateOrUpdateUserDevice(device, fixed);
      if !ok { return Refused(DeviceIdConflict); }
      var active := ActiveVersion(keys);
      if active.Some? {
        return if Envelope(device, active.value) in envelopes then HoldsKey(active.value) else NeedsEnrollment;
      }
      if exists d | d in legacy :: Owns(devices, d) { return NeedsMigration; }
      match offer
      case NoKey => return NeedsSetup;
      case PartialKey => return NeedsSetup;
      case InvalidKey => return Refused(Malformed);
      case NewKey =>
        var inserted := InsertIdentityKeyWithEnvelope(1, device);
        return if inserted then HoldsKey(1) else Refused(Failed);
    }

    /** The recovery transaction; a device id of another account rolls it back. */
    method RecoverIdentityKey(device: Id) returns (version: Option<int>)
      requires Versioned(keys)
      modifies this
      ensures version == if device in foreign then None else Some(NextVersion(old(keys)))
      ensures foreign == old(foreign)
      ensures State() == if version.None? then old(State()) else Recovered(old(State()), device)
    {
      NextVersionFree(keys);
      hide ActiveVersion, MaxVersion, HasVersion, Close, Retire, Versioned, RevokeAll, Upserted;
      var rows, copies, held, issued, requests := devices, envelopes, legacy, keys, enrollments;
      devices, envelopes, legacy := RevokeAll(devices), {}, {};
      keys, enrollments := Retire(keys), Close(enrollments, enrollments.Keys, Expired);
      var upserted := CreateOrUpdateUserDevice(device, Standard);
      if !upserted {
        devices, envelopes, legacy, keys, enrollments := rows, copies, held, issued, requests;
        return None;
      }
      var next := MaxVersion(keys) + 1;
      var inserted := InsertIdentityKeyWithEnvelope(next, device);
      assert envelopes == {Envelope(device, next)};
      return Some(next);
    }

    method DoRecover(spelling: Id, kind: Option<Kind>, offer: Offer) returns (reply: Reply)
      requires Versioned(keys)
      modifies this
      ensures Outcome(State(), reply) == Recover(old(State()), spelling, kind, offer)
    {
      hide Versioned, MaxVersion, Retire, RevokeAll, Close, Upserted;
      var fixed := GetDeviceKind(spelling, kind);
      if fixed == Approver { return Refused(ApproverRestricted); }
      match offer
      case NoKey => return Refused(KeyRequired);
      case PartialKey => return Refused(KeyRequired);
      case InvalidKey => return Refused(Malformed);
      case NewKey =>
        if canon(spelling).None? { return Refused(Failed); }
        var version := RecoverIdentityKey(canon(spelling).value);
        return if version.Some? then HoldsKey(version.value) else Refused(DeviceIdConflict);
    }

    /** `skew` is how much later the database's clock at the update is than the replica's at
        the check. */
    method DoApprove(id: Id, approver: Id, code: string, version: int, wellFormed: bool, skew: int)
      returns (reply: Reply)
      modifies this
      ensures Outcome(State(), reply) == Approve(old(State()), id, approver, code, version, wellFormed, skew)
    {
      if !Owns(devices, approver) { return Refused(NotAuthorized); }
      var active := ActiveVersion(keys);
      if active.None? || Envelope(approver, active.value) !in envelopes { return Refused(ApproverNotTrusted); }
      if id !in enrollments { return Refused(NotFound); }
      var e := enrollments[id];
      if e.status != Pending || now > e.expiresAt { return Refused(NotPending); }
      if !SameCode(code, e.code) { return Refused(CodeMismatch); }
      if version != active.value { return Refused(KeyStale); }
      if !wellFormed { return Refused(Malformed); }
      envelopes := envelopes + {Envelope(e.device, version)};
      // ApproveEnrollment's own guard.
      if enrollments[id].status != Pending || enrollments[id].expiresAt <= now + skew { return Refused(NotFound); }
      enrollments := enrollments[id := e.(status := Approved)];
      return Done;
    }

    method RemoveApproverDevice(spelling: Id) returns (reply: Reply)
      modifies this
      ensures Outcome(State(), reply) == RemoveApprover(old(State()), spelling)
    {
      if canon(spelling).None? { return Refused(Failed); }
      var device := canon(spelling).value;
      if device !in devices || devices[device].kind != Approver || devices[device].revoked { return Refused(NotFound); }
      devices := devices[device := devices[device].(revoked := true)];
      envelopes := set e | e in envelopes && e.device != device;
      enrollments := Close(enrollments, Requests(enrollments, device), Cancelled);
      return Done;
    }

    method StartIdentityMigration(device: Id, wellFormed: bool) returns (reply: Reply)
      modifies this
      ensures Outcome(State(), reply) == StartMigration(old(State()), device, wellFormed)
    {
      if !(device in legacy && Owns(devices, device)) { return Refused(NoLegacyKey); }
      if ActiveVersion(keys).Some? { return Refused(KeyExists); }
      if !wellFormed { return Refused(Malformed); }
      if escrow.Some? { return Refused(Failed); }
      var ok := InsertIdentityKeyWithEnvelope(1, device);
      if !ok { return Refused(Failed); }
      escrow := Some(1);
      return HoldsKey(1);
    }

    method AdoptIdentityKey(device: Id, version: int, wellFormed: bool) returns (reply: Reply)
      modifies this`envelopes
      ensures Outcome(State(), reply) == Adopt(old(State()), device, version, wellFormed)
    {
      if !(device in legacy && Owns(devices, device)) { return Refused(NoLegacyKey); }
      var active := ActiveVersion(keys);
      if escrow.None? || active != escrow { return Refused(NoEscrow); }
      if version != escrow.value { return Refused(KeyStale); }
      if Envelope(device, version) in envelopes { return Unchanged; }
      if !wellFormed { return Refused(Malformed); }
      envelopes := envelopes + {Envelope(device, version)};
      return Done;
    }

    /** A device with an open request keeps it. */
    method CreateEnrollmentRequest(id: Id, device: Id, code: string) returns (reply: Reply)
      modifies this`enrollments
      ensures Outcome(State(), reply) == CreateEnrollment(old(State()), id, device, code)
    {
      if !Owns(devices, device) { return Refused(NotAuthorized); }
      if exists e | e in enrollments ::
           enrollments[e].device == device && enrollments[e].status == Pending && enrollments[e].expiresAt > now {
        return Unchanged;
      }
      // The unique index on pending requests counts expired ones too.
      if exists e | e in enrollments :: enrollments[e].device == device && enrollments[e].status == Pending {
        return Refused(Failed);
      }
      if id in enrollments { return Refused(Failed); }
      enrollments := enrollments[id := Enrollment(device, code, Pending, now + ENROLLMENT_TTL)];
      return Done;
    }

    method RejectEnrollment(id: Id, approver: Id) returns (reply: Reply)
      modifies this`enrollments
      ensures Outcome(State(), reply) == Reject(old(State()), id, approver)
    {
      if !Owns(devices, approver) { return Refused(NotAuthorized); }
      var active := ActiveVersion(keys);
      if active.None? || Envelope(approver, active.value) !in envelopes { return Refused(ApproverNotTrusted); }
      if id !in enrollments || enrollments[id].status != Pending || enrollments[id].expiresAt <= now {
        return Refused(NotPending);
      }
      enrollments := enrollments[id := enrollments[id].(status := Rejected)];
      return Done;
    }

    /** Re-wraps keys one row at a time, each only while it is still locked. */
    method RescueLockedFileKeys(from: int, to: int, items: seq<Id>) returns (rescued: nat)
      requires from < to
      modifies this`fileKeys
      ensures State() == RescueFileKeys(old(State()), from, to, Ids(items)).account
      ensures rescued == if ActiveVersion(keys) == Some(to) then |Locked(old(fileKeys), from, Ids(items))| else 0
    {
      hide Rescued, Locked, Ids, ActiveVersion;
      rescued := 0;
      ghost var was := fileKeys;
      RescueNone(was, from, to);
      for k := 0 to |items|
        invariant fileKeys == if ActiveVersion(keys) == Some(to) then Rescued(was, from, to, Ids(items[..k])) else was
        invariant rescued == if ActiveVersion(keys) == Some(to) then |Locked(was, from, Ids(items[..k]))| else 0
      {
        var file := items[k];
        RescueOne(was, from, to, items, k);
        if file in fileKeys && fileKeys[file] == from && ActiveVersion(keys) == Some(to) {
          fileKeys := fileKeys[file := to];
          rescued := rescued + 1;
        }
      }
      assert items[..|items|] == items;
    }

    /** Owner envelopes for files without a key; others are left alone. */
    method StoreMigratedOwnerEnvelopes(version: int, items: seq<Id>) returns (stored: nat)
      modifies this`fileKeys
      ensures fileKeys == Migrated(old(fileKeys), version, Ids(items))
      ensures stored == |Ids(items) - old(fileKeys).Keys|
    {
      hide Migrated, Ids;
      stored := 0;
      ghost var was := fileKeys;
      MigrateNone(was, version);
      for k := 0 to |items|
        invariant fileKeys == Migrated(was, version, Ids(items[..k]))
        invariant stored == |Ids(items[..k]) - was.Keys|
      {
        MigrateOne(was, version, items, k);
        if items[k] !in fileKeys {
          fileKeys := fileKeys[items[k] := version];
          stored := stored + 1;
        }
      }
      assert items[..|items|] == items;
    }
  }

  function Locked(fileKeys: map<Id, int>, from: int, files: set<Id>): set<Id> {
    set f | f in files && f in fileKeys && fileKeys[f] == from
  }

  lemma RescueNone(fileKeys: map<Id, int>, from: int, to: int)
    ensures Rescued(fileKeys, from, to, Ids([])) == fileKeys && |Locked(fileKeys, from, Ids([]))| == 0
  {
    assert Locked(fileKeys, from, Ids([])) == {};
  }

  lemma RescueOne(fileKeys: map<Id, int>, from: int, to: int, items: seq<Id>, k: nat)
    requires from < to && k < |items|
    ensures
      var done := Rescued(fileKeys, from, to, Ids(items[..k]));
      var counts := items[k] in done && done[items[k]] == from;
      && Rescued(fileKeys, from, to, Ids(items[..k + 1])) == (if counts then done[items[k] := to] else done)
      && |Locked(fileKeys, from, Ids(items[..k + 1]))| == |Locked(fileKeys, from, Ids(items[..k]))|
         + if counts then 1 else 0
  {
    IdsTake(items, k);
    var done := Rescued(fileKeys, from, to, Ids(items[..k]));
    var locked, more := Locked(fileKeys, from, Ids(items[..k])), Locked(fileKeys, from, Ids(items[..k + 1]));
    if items[k] in done && done[items[k]] == from {
      assert more == locked + {items[k]};
    } else {
      assert more == locked;
    }
  }

  lemma MigrateNone(fileKeys: map<Id, int>, version: int)
    ensures Migrated(fileKeys, version, Ids([])) == fileKeys && |Ids([]) - fileKeys.Keys| == 0
  {
    assert Ids([]) == {};
  }

  lemma MigrateAdd(fileKeys: map<Id, int>, version: int, files: set<Id>, file: Id)
    ensures
      var done := Migrated(fileKeys, version, files);
      && Migrated(fileKeys, version, files + {file}) == (if file in done then done else done[file := version])
      && (file in done <==> file in files || file in fileKeys)
  {
    assert (files + {file}) + fileKeys.Keys == (files + fileKeys.Keys) + {file};
  }

  lemma MigrateOne(fileKeys: map<Id, int>, version: int, items: seq<Id>, k: nat)
    requires k < |items|
    ensures
      var done := Migrated(fileKeys, version, Ids(items[..k]));
      var counts := items[k] !in done;
      && Migrated(fileKeys, version, Ids(items[..k + 1])) == (if counts then done[items[k] := version] else done)
      && |Ids(items[..k + 1]) - fileKeys.Keys| == |Ids(items[..k]) - fileKeys.Keys| + if counts then 1 else 0
  {
    IdsTake(items, k);
    MigrateAdd(fileKeys, version, Ids(items[..k]), items[k]);
    CountAdd(Ids(items[..k]), fileKeys.Keys, items[k]);
    hide Migrated, Ids;
  }

  lemma CountAdd<T>(files: set<T>, known: set<T>, file: T)
    ensures |(files + {file}) - known| == |files - known| + if file in files || file in known then 0 else 1
  {
    if file in files || file in known {
      assert (files + {file}) - known == files - known;
    } else {
      assert (files + {file}) - known == (files - known) + {file};
    }
  }

  lemma IdsTake(items: seq<Id>, k: nat)
    requires k < |items|
    ensures Ids(items[..k + 1]) == Ids(items[..k]) + {items[k]}
  {
  }

  function Ids(items: seq<Id>): set<Id> {
    set f | f in items
  }

  lemma {:induction false} NoneActive(keys: seq<IdentityKey>)
    requires forall i | 0 <= i < |keys| :: keys[i].keyStatus == Retired
    ensures ActiveVersion(keys) == None
  {
    if keys != [] {
      NoneActive(keys[..|keys| - 1]);
    }
  }

  lemma NextVersionFree(keys: seq<IdentityKey>)
    requires Versioned(keys)
    ensures ActiveVersion(Retire(keys)).None? && !HasVersion(Retire(keys), MaxVersion(Retire(keys)) + 1)
  {
    NoneActive(Retire(keys));
    MaxOfRetired(Retire(keys));
  }
}
