/** What device trust and key custody guarantee over whole runs of an account. */
module TrustGuarantees {
  import opened Prelude
  import opened DeviceTrust

  /** The ways an event at this moment gives a device the active key: it creates the
      first key of an account that has none, recovers, migrates or adopts as a holder
      of the legacy key, or is approved with the right code by a trusted device. */
  predicate Grants(a: Account, e: Event, d: Id) {
    match e
    case RegisterCall(spelling, kind, offer) =>
      a.canon(spelling) == Some(d) && a.keys == [] && CreatesKey(a, spelling, kind, offer) && !LegacyLeft(a, d)
    case RecoverCall(spelling, kind, offer) => a.canon(spelling) == Some(d) && CreatesKey(a, spelling, kind, offer)
    case StartCall(device, wellFormed) => d == device && a.keys == [] && HoldsLegacy(a, device) && wellFormed
    case AdoptCall(device, version, wellFormed) =>
      d == device && HoldsLegacy(a, device) && a.escrow == Some(version) && version == |a.keys| && wellFormed
    case ApproveCall(id, approver, code, version, wellFormed, skew) =>
      && id in a.enrollments && a.enrollments[id].device == d && a.enrollments[id].status == Pending
      && a.now <= a.enrollments[id].expiresAt && SameCode(code, a.enrollments[id].code)
      && IsTrusted(a, approver) && version == |a.keys| && wellFormed
    case _ => false
  }

  /** The kind the call sees is standard, and the device may be this account's. */
  predicate CreatesKey(a: Account, spelling: Id, kind: Option<Kind>, offer: Offer) {
    && KindSeen(a, spelling, kind) == Standard && offer == NewKey
    && a.canon(spelling).Some? && a.canon(spelling).value !in a.foreign
  }

  predicate LegacyLeft(a: Account, registering: Id) {
    exists d | d in a.legacy :: d == registering || Owns(a.devices, d)
  }

  predicate Revokes(a: Account, e: Event, d: Id) {
    match e
    case RecoverCall(spelling, kind, offer) => a.canon(spelling) != Some(d) && CreatesKey(a, spelling, kind, offer)
    case RemoveApproverCall(spelling) => a.canon(spelling) == Some(d) && d in a.devices && a.devices[d].kind == Approver
    case _ => false
  }

  lemma TrustedHasCopy(a: Account, d: Id)
    requires Inv(a)
    ensures IsTrusted(a, d) <==> Envelope(d, |a.keys|) in a.envelopes
  {
    ActiveIsLast(a.keys);
  }

  lemma RegisterTrust(a: Account, spelling: Id, kind: Option<Kind>, offer: Offer, d: Id)
    requires Inv(a)
    ensures IsTrusted(Register(a, spelling, kind, offer).account, d) <==>
              Grants(a, RegisterCall(spelling, kind, offer), d) || IsTrusted(a, d)
  {
    RegisterKeeps(a, spelling, kind, offer);
    ActiveIsLast(a.keys);
    TrustedHasCopy(a, d);
    TrustedHasCopy(Register(a, spelling, kind, offer).account, d);
    hide ActiveVersion, IsTrusted, Inv;
    if a.canon(spelling).Some? {
      var id := a.canon(spelling).value;
      var rows := Upserted(a.devices, id, KindSeen(a, spelling, kind));
      assert (exists l | l in a.legacy :: Owns(rows, l)) <==> LegacyLeft(a, id);
    }
  }

  lemma RecoverTrust(a: Account, spelling: Id, kind: Option<Kind>, offer: Offer, d: Id)
    requires Inv(a)
    ensures
      var e := RecoverCall(spelling, kind, offer);
      var after := Recover(a, spelling, kind, offer).account;
      IsTrusted(after, d) <==> Grants(a, e, d) || (IsTrusted(a, d) && !Revokes(a, e, d))
  {
    RecoverKeeps(a, spelling, kind, offer);
    MaxOfRetired(Retire(a.keys));
    TrustedHasCopy(a, d);
    TrustedHasCopy(Recover(a, spelling, kind, offer).account, d);
    hide ActiveVersion, IsTrusted, Inv, MaxVersion;
  }

  lemma MigrationTrust(a: Account, device: Id, version: int, wellFormed: bool, d: Id)
    requires Inv(a)
    ensures IsTrusted(StartMigration(a, device, wellFormed).account, d) <==>
              Grants(a, StartCall(device, wellFormed), d) || IsTrusted(a, d)
    ensures IsTrusted(Adopt(a, device, version, wellFormed).account, d) <==>
              Grants(a, AdoptCall(device, version, wellFormed), d) || IsTrusted(a, d)
  {
    MigrationKeeps(a, device, version, wellFormed);
    ActiveIsLast(a.keys);
    TrustedHasCopy(a, d);
    TrustedHasCopy(StartMigration(a, device, wellFormed).account, d);
    TrustedHasCopy(Adopt(a, device, version, wellFormed).account, d);
    hide ActiveVersion, IsTrusted;
  }

  lemma ApproveTrust(a: Account, id: Id, approver: Id, code: string, version: int, wellFormed: bool, skew: int, d: Id)
    requires Inv(a)
    ensures IsTrusted(Approve(a, id, approver, code, version, wellFormed, skew).account, d) <==>
              Grants(a, ApproveCall(id, approver, code, version, wellFormed, skew), d) || IsTrusted(a, d)
  {
    ApproveKeeps(a, id, approver, code, version, wellFormed, skew);
    ActiveIsLast(a.keys);
    TrustedHasCopy(a, d);
    TrustedHasCopy(Approve(a, id, approver, code, version, wellFormed, skew).account, d);
    assert IsTrusted(a, approver) ==> Owns(a.devices, approver);
    hide ActiveVersion, IsTrusted, Inv;
  }

  lemma OtherTrust(a: Account, e: Event, d: Id)
    requires Inv(a)
    requires !e.RegisterCall? && !e.RecoverCall? && !e.StartCall? && !e.AdoptCall? && !e.ApproveCall?
    ensures IsTrusted(Apply(a, e), d) <==> IsTrusted(a, d) && !Revokes(a, e, d)
  {
    StepInv(a, e);
    TrustedHasCopy(a, d);
    TrustedHasCopy(Apply(a, e), d);
    hide ActiveVersion, IsTrusted;
  }

  /** A step makes a device trusted exactly by granting it the key, and ends trust
      exactly by a recovery elsewhere or by removing an approver device. */
  lemma TrustChangesExactly(a: Account, e: Event, d: Id)
    requires Inv(a)
    ensures IsTrusted(Apply(a, e), d) <==> Grants(a, e, d) || (IsTrusted(a, d) && !Revokes(a, e, d))
  {
    hide Inv, IsTrusted;
    match e
    case RegisterCall(spelling, kind, offer) => RegisterTrust(a, spelling, kind, offer, d);
    case RecoverCall(spelling, kind, offer) => RecoverTrust(a, spelling, kind, offer, d);
    case StartCall(device, wellFormed) => MigrationTrust(a, device, 1, wellFormed, d);
    case AdoptCall(device, version, wellFormed) => MigrationTrust(a, device, version, wellFormed, d);
    case ApproveCall(id, approver, code, version, wellFormed, skew) =>
      ApproveTrust(a, id, approver, code, version, wellFormed, skew, d);
    case _ => OtherTrust(a, e, d);
  }

  lemma {:induction false} RunInv(a: Account, events: seq<Event>)
    requires Initial(a)
    ensures Inv(Run(a, events))
  {
    hide Apply;
    if events != [] {
      RunInv(a, events[..|events| - 1]);
      StepInv(Run(a, events[..|events| - 1]), events[|events| - 1]);
    }
  }

  function Before(a: Account, events: seq<Event>, i: nat): Account
    requires i <= |events|
  {
    Run(a, events[..i])
  }

  /** Event i granted d the key and no later one skew it back. */
  predicate GrantedAndKept(a: Account, events: seq<Event>, d: Id, i: nat) {
    && i < |events| && Grants(Before(a, events, i), events[i], d)
    && forall j | i < j < |events| :: !Revokes(Before(a, events, j), events[j], d)
  }

  /** Trust is rooted: after any run a device is trusted if and only if some event
      granted it the key, by one of the ways of `Grants`, and nothing revoked it since. */
  lemma {:induction false} TrustIsRooted(a: Account, events: seq<Event>, d: Id)
    requires Initial(a)
    ensures IsTrusted(Run(a, events), d) <==> exists i: nat :: GrantedAndKept(a, events, d, i)
  {
    hide Apply, Grants, Revokes;
    if events == [] {
      TrustedHasCopy(a, d);
    } else {
      var last := |events| - 1;
      var prior := events[..last];
      RunInv(a, prior);
      hide Initial, Inv, IsTrusted;
      TrustIsRooted(a, prior, d);
      TrustChangesExactly(Run(a, prior), events[last], d);
      assert Run(a, events) == Apply(Run(a, prior), events[last]);
      assert forall i | 0 <= i <= last :: events[..i] == prior[..i];
      assert Before(a, events, last) == Run(a, prior);
      forall i: nat | GrantedAndKept(a, events, d, i) && i != last
        ensures GrantedAndKept(a, prior, d, i) && !Revokes(Run(a, prior), events[last], d)
      {
      }
      if Grants(Run(a, prior), events[last], d) {
        assert GrantedAndKept(a, events, d, last);
      } else if IsTrusted(Run(a, prior), d) && !Revokes(Run(a, prior), events[last], d) {
        var i: nat :| GrantedAndKept(a, prior, d, i);
        assert GrantedAndKept(a, events, d, i);
      }
    }
  }

  /** On an account with a key, registering or re-registering changes nobody's trust. */
  lemma RegisteringNeverTrusts(a: Account, spelling: Id, kind: Option<Kind>, offer: Offer, d: Id)
    requires Inv(a) && a.keys != []
    ensures IsTrusted(Register(a, spelling, kind, offer).account, d) <==> IsTrusted(a, d)
  {
    RegisterTrust(a, spelling, kind, offer, d);
  }

  /** A registration that is not refused says truly whether the device is trusted now. */
  lemma RegisterTellsTrust(a: Account, spelling: Id, kind: Option<Kind>, offer: Offer)
    requires Inv(a) && a.canon(spelling).Some?
    ensures
      var o := Register(a, spelling, kind, offer);
      var device := a.canon(spelling).value;
      && (!o.reply.Refused? ==> (o.reply.HoldsKey? <==> IsTrusted(o.account, device)))
      && (o.reply.Refused? ==> (IsTrusted(o.account, device) <==> IsTrusted(a, device)))
  {
    var o := Register(a, spelling, kind, offer);
    RegisterKeeps(a, spelling, kind, offer);
    ActiveIsLast(a.keys);
    TrustedHasCopy(a, a.canon(spelling).value);
    TrustedHasCopy(o.account, a.canon(spelling).value);
    hide ActiveVersion, IsTrusted, Inv;
  }

  /** Recovery leaves exactly one trusted device and nothing to approve. */
  lemma RecoveryIsExclusive(a: Account, spelling: Id, kind: Option<Kind>, offer: Offer, d: Id)
    requires Inv(a) && Recover(a, spelling, kind, offer).reply.HoldsKey?
    ensures
      var b := Recover(a, spelling, kind, offer).account;
      && (IsTrusted(b, d) <==> a.canon(spelling) == Some(d)) && (Owns(b.devices, d) <==> a.canon(spelling) == Some(d))
      && forall id :: !Open(b, id) && !HoldsLegacy(b, id)
  {
    RecoverTrust(a, spelling, kind, offer, d);
  }

  /** When an approval answers with a refusal although it stores the key: when it passes
      every check no later than the expiry by the replica's clock, and its update runs no
      earlier than that by the database's, however the two clocks differ. */
  lemma RefusedApprovalStoresKey(a: Account, id: Id, approver: Id, code: string, version: int, wellFormed: bool,
                                 skew: int)
    requires Inv(a) && id in a.enrollments && !IsTrusted(a, a.enrollments[id].device)
    ensures
      var o := Approve(a, id, approver, code, version, wellFormed, skew);
      var e := a.enrollments[id];
      var granted := Grants(a, ApproveCall(id, approver, code, version, wellFormed, skew), e.device);
      var checked, updated := a.now, a.now + skew;
      && (o.reply.Refused? && IsTrusted(o.account, e.device) <==> granted && checked <= e.expiresAt <= updated)
      && (o.reply == Done <==> granted && updated < e.expiresAt)
  {
    ApproveTrust(a, id, approver, code, version, wellFormed, skew, a.enrollments[id].device);
    ActiveIsLast(a.keys);
    assert IsTrusted(a, approver) ==> Owns(a.devices, approver);
    hide ActiveVersion, IsTrusted, Inv;
  }

  lemma Extended(a: Account, events: seq<Event>, e: Event) returns (longer: seq<Event>)
    ensures longer == events + [e] && Run(a, longer) == Apply(Run(a, events), e)
  {
    longer := events + [e];
    assert longer[..|events|] == events;
  }

  /** A laptop that has set up its account, and a phone with a pending enrollment. */
  predicate PhoneWaits(a: Account) {
    && a.keys == [IdentityKey(1, Active)] && a.envelopes == {Envelope("laptop", 1)}
    && Owns(a.devices, "laptop") && Owns(a.devices, "phone")
    && a.enrollments == map["e" := Enrollment("phone", "123456", Pending, 600)]
  }

  function NewAccount(canon: Id -> Option<Id>): Account {
    Account(canon, map[], {}, [], {}, {}, None, map[], map[], 0)
  }

  /** A new account, for the example reading every text as the id it spells. */
  const NEW_ACCOUNT: Account := NewAccount((id: Id) => Some(id))

  lemma LaptopSetsUp()
    ensures
      var a := Register(NEW_ACCOUNT, "laptop", None, NewKey).account;
      a == NEW_ACCOUNT.(devices := map["laptop" := Device(Standard, false)], keys := [IdentityKey(1, Active)],
                        envelopes := {Envelope("laptop", 1)})
  {
    assert map[]["laptop" := Device(Standard, false)] == map["laptop" := Device(Standard, false)];
  }

  lemma PhoneEnrolls(a: Account)
    requires a == NEW_ACCOUNT.(devices := map["laptop" := Device(Standard, false)], keys := [IdentityKey(1, Active)],
                               envelopes := {Envelope("laptop", 1)})
    ensures
      var b := Register(a, "phone", None, NoKey).account;
      PhoneWaits(CreateEnrollment(b, "e", "phone", "123456").account)
      && CreateEnrollment(b, "e", "phone", "123456").account.now == 0
  {
    var b := Register(a, "phone", None, NoKey).account;
    assert b.enrollments == map[] && Owns(b.devices, "phone");
    var e := Enrollment("phone", "123456", Pending, 600);
    assert map[]["e" := e] == map["e" := e];
  }

  lemma PhoneWaitsLong() returns (events: seq<Event>)
    ensures PhoneWaits(Run(NEW_ACCOUNT, events)) && Run(NEW_ACCOUNT, events).now == 599
  {
    events := [];
    assert Run(NEW_ACCOUNT, events) == NEW_ACCOUNT;
    hide Run, Register, CreateEnrollment, Recover, StartMigration, Adopt, Approve, Reject, CancelEnrollment;
    hide RemoveApprover, TouchExpired, StoreFileKey, MigrateFileKeys, RescueFileKeys;
    LaptopSetsUp();
    events := Extended(NEW_ACCOUNT, events, RegisterCall("laptop", None, NewKey));
    PhoneEnrolls(Run(NEW_ACCOUNT, events));
    events := Extended(NEW_ACCOUNT, events, RegisterCall("phone", None, NoKey));
    events := Extended(NEW_ACCOUNT, events, EnrollCall("e", "phone", "123456"));
    events := Extended(NEW_ACCOUNT, events, Tick(599));
  }

  /** It happens when the laptop approves the phone in the enrollment's last second. */
  lemma ApprovalAcrossExpiry()
    ensures exists events: seq<Event> ::
              var a := Run(NEW_ACCOUNT, events);
              var o := Approve(a, "e", "laptop", "123456", 1, true, 2);
              && Initial(NEW_ACCOUNT) && "e" in a.enrollments && a.now == a.enrollments["e"].expiresAt - 1
              && o.reply.Refused? && IsTrusted(o.account, "phone") && !IsTrusted(a, "phone")
  {
    var events := PhoneWaitsLong();
    hide Run, Approve, IsTrusted;
    StraddlingCall(Run(NEW_ACCOUNT, events));
  }

  lemma StraddlingCall(a: Account)
    requires PhoneWaits(a) && a.now == 599
    ensures
      var o := Approve(a, "e", "laptop", "123456", 1, true, 2);
      o.reply.Refused? && IsTrusted(o.account, "phone") && !IsTrusted(a, "phone")
  {
    assert SameCode("123456", "123456");
    assert Envelope("laptop", 1) in a.envelopes && Envelope("phone", 1) !in a.envelopes;
    hide Trim, SameCode;
  }

  // --- Enrollments and file keys ------------------------------------------------------------

  lemma AnsweredStays(a: Account, e: Event, id: Id)
    requires id in a.enrollments && a.enrollments[id].status != Pending
    ensures id in Apply(a, e).enrollments && Apply(a, e).enrollments[id] == a.enrollments[id]
  {
    hide ActiveVersion, MaxVersion, Retire, RevokeAll;
  }

  /** A rejected or withdrawn enrollment stays closed: no later approval, whatever its
      code, grants anything through it. */
  lemma {:induction false} ClosedEnrollmentGrantsNothing(a: Account, events: seq<Event>, id: Id, caller: Id, e: Event,
                                                         d: Id)
    requires Reject(a, id, caller).reply == Done || CancelEnrollment(a, id, caller).reply == Done
    requires e.ApproveCall? && e.id == id
    ensures
      var rejected := Reject(a, id, caller);
      var closed := if rejected.reply == Done then rejected.account else CancelEnrollment(a, id, caller).account;
      var later := Run(closed, events);
      && id in later.enrollments && later.enrollments[id] == closed.enrollments[id]
      && later.enrollments[id].status != Pending
      && !Grants(later, e, d)
  {
    hide Apply, IsTrusted, Owns;
    if events != [] {
      ClosedEnrollmentGrantsNothing(a, events[..|events| - 1], id, caller, e, d);
      var rejected := Reject(a, id, caller);
      var closed := if rejected.reply == Done then rejected.account else CancelEnrollment(a, id, caller).account;
      AnsweredStays(Run(closed, events[..|events| - 1]), events[|events| - 1], id);
    }
  }

  /** A file key that stays is wrapped for what it was, or a rescue skew it from an older
      version to the active one: no key the account can open is ever overwritten. */
  lemma FileKeysOnlyRise(a: Account, e: Event, f: Id)
    requires Inv(a) && f in a.fileKeys && f in Apply(a, e).fileKeys
    ensures
      var now := Apply(a, e).fileKeys[f];
      now == a.fileKeys[f] || (e.RescueCall? && f in e.files && a.fileKeys[f] == e.from < now == e.to == |a.keys|)
  {
    ActiveIsLast(a.keys);
    hide ActiveVersion, MaxVersion, Retire, RevokeAll, Close;
  }

  // --- Key custody -------------------------------------------------------------------------

  /** The event issues a new key version from this device. */
  predicate Issues(a: Account, e: Event, d: Id) {
    (e.RegisterCall? || e.RecoverCall? || e.StartCall?) && Grants(a, e, d)
  }

  lemma RegisterIssues(a: Account, spelling: Id, kind: Option<Kind>, offer: Offer)
    requires Inv(a)
    ensures
      var b, e := Register(a, spelling, kind, offer).account, RegisterCall(spelling, kind, offer);
      && |a.keys| <= |b.keys| <= |a.keys| + 1
      && (|b.keys| == |a.keys| + 1 ==> a.canon(spelling).Some? && Issues(a, e, a.canon(spelling).value))
      && forall d | Issues(a, e, d) ::
           && |b.keys| == |a.keys| + 1 && d in b.devices
           && (Canonical(a.canon, spelling) ==> b.devices[d].kind == Standard)
  {
    ActiveIsLast(a.keys);
    hide ActiveVersion, CopiesCurrent, PendingOwned, LegacyStandard, FilesBounded;
  }

  lemma RecoverIssues(a: Account, spelling: Id, kind: Option<Kind>, offer: Offer)
    requires Inv(a)
    ensures
      var b, e := Recover(a, spelling, kind, offer).account, RecoverCall(spelling, kind, offer);
      && |a.keys| <= |b.keys| <= |a.keys| + 1
      && (|b.keys| == |a.keys| + 1 ==> a.canon(spelling).Some? && Issues(a, e, a.canon(spelling).value))
      && forall d | Issues(a, e, d) ::
           && |b.keys| == |a.keys| + 1 && d in b.devices
           && (Canonical(a.canon, spelling) ==> b.devices[d].kind == Standard)
  {
    hide MaxVersion, CopiesCurrent, PendingOwned, LegacyStandard, FilesBounded;
  }

  /** A new version has an issuer, which is a standard device if the call spells its id as
      the row does. */
  lemma IssuedByDevice(a: Account, e: Event) returns (issuer: Id)
    requires Inv(a)
    ensures |a.keys| <= |Apply(a, e).keys| <= |a.keys| + 1
    ensures |Apply(a, e).keys| == |a.keys| + 1 ==> Issues(a, e, issuer)
    ensures forall d | Issues(a, e, d) ::
              && |Apply(a, e).keys| == |a.keys| + 1 && d in Apply(a, e).devices
              && (WellSpelled(a.canon, e) ==> Apply(a, e).devices[d].kind == Standard)
  {
    ActiveIsLast(a.keys);
    hide ActiveVersion, MaxVersion, Register, Recover;
    issuer := "";
    match e
    case RegisterCall(spelling, kind, offer) =>
      RegisterIssues(a, spelling, kind, offer);
      if a.canon(spelling).Some? { issuer := a.canon(spelling).value; }
    case RecoverCall(spelling, kind, offer) =>
      RecoverIssues(a, spelling, kind, offer);
      if a.canon(spelling).Some? { issuer := a.canon(spelling).value; }
    case StartCall(device, wellFormed) => issuer := device;
    case _ =>
  }

  lemma KindsStay(a: Account, e: Event)
    ensures forall d :: d in a.devices ==> d in Apply(a, e).devices && Apply(a, e).devices[d].kind == a.devices[d].kind
    ensures Apply(a, e).canon == a.canon
  {
    hide ActiveVersion, MaxVersion, Close, Retire;
  }

  /** Registrations and recoveries use only these spellings. */
  predicate Spells(spelled: Id -> bool, events: seq<Event>) {
    forall e | e in events :: e.RegisterCall? || e.RecoverCall? ==> spelled(e.device)
  }

  ghost predicate AllCanonical(canon: Id -> Option<Id>, spelled: Id -> bool) {
    forall id | spelled(id) :: Canonical(canon, id)
  }

  lemma SpellsBefore(spelled: Id -> bool, events: seq<Event>, canon: Id -> Option<Id>)
    requires Spells(spelled, events) && events != [] && AllCanonical(canon, spelled)
    ensures Spells(spelled, events[..|events| - 1]) && WellSpelled(canon, events[|events| - 1])
  {
    assert forall e | e in events[..|events| - 1] :: e in events;
    assert events[|events| - 1] in events;
  }

  lemma {:induction false} RunHolds(a: Account, events: seq<Event>, spelled: Id -> bool)
    requires Initial(a) && AllCanonical(a.canon, spelled) && Spells(spelled, events)
    ensures Held(Run(a, events)) && Run(a, events).canon == a.canon
  {
    hide Apply, Inv, Held, AllCanonical, Spells;
    if events == [] {
      assert Held(a) by { NoKeyYet(a); }
    } else {
      var prior := events[..|events| - 1];
      SpellsBefore(spelled, events, a.canon);
      RunHolds(a, prior, spelled);
      RunInv(a, prior);
      StepHolds(Run(a, prior), events[|events| - 1]);
      KindsStay(Run(a, prior), events[|events| - 1]);
    }
  }

  lemma NoKeyYet(a: Account)
    requires Initial(a)
    ensures Held(a)
  {
  }

  /** A standard device is trusted, once there is a key. */
  ghost predicate HasKeeper(b: Account) {
    b.keys != [] ==> exists d :: d in b.devices && b.devices[d].kind == Standard && IsTrusted(b, d)
  }

  /** Event i issued this version, from a device d that is a standard one to this day. */
  predicate IssuedAt(a: Account, events: seq<Event>, version: int, i: nat, d: Id) {
    && i < |events| && |Before(a, events, i).keys| == version - 1 && Issues(Before(a, events, i), events[i], d)
    && d in Run(a, events).devices && Run(a, events).devices[d].kind == Standard
  }

  /** Every key version ever issued came from a standard device; no approver made one. */
  ghost predicate StandardIssuers(a: Account, events: seq<Event>) {
    forall version | 1 <= version <= |Run(a, events).keys| :: IssuedByStandard(a, events, version)
  }

  ghost predicate IssuedByStandard(a: Account, events: seq<Event>, version: int) {
    exists i: nat, d :: IssuedAt(a, events, version, i, d)
  }

  lemma {:induction false} StandardDevicesIssueKeys(a: Account, events: seq<Event>, spelled: Id -> bool, version: int)
    requires Initial(a) && AllCanonical(a.canon, spelled) && Spells(spelled, events)
    requires 1 <= version <= |Run(a, events).keys|
    ensures IssuedByStandard(a, events, version)
  {
    hide Apply, Grants, Issues, AllCanonical, Spells, Held;
    assert events != [];
    var last := |events| - 1;
    var prior := events[..last];
    var was := Run(a, prior);
    RunInv(a, prior);
    SpellsBefore(spelled, events, a.canon);
    RunHolds(a, prior, spelled);
    hide Initial, Inv, WellSpelled;
    assert Run(a, events) == Apply(was, events[last]);
    assert forall i | 0 <= i <= last :: events[..i] == prior[..i];
    var issuer := IssuedByDevice(was, events[last]);
    KindsStay(was, events[last]);
    if version <= |was.keys| {
      StandardDevicesIssueKeys(a, prior, spelled, version);
      var i: nat, d :| IssuedAt(a, prior, version, i, d);
      assert IssuedAt(a, events, version, i, d);
    } else {
      assert IssuedAt(a, events, version, last, issuer);
    }
  }

  lemma {:induction false} KeysNeverVanish(a: Account, events: seq<Event>, i: nat)
    requires Initial(a) && i <= |events|
    ensures |Before(a, events, i).keys| <= |Run(a, events).keys|
  {
    hide Apply;
    if i == |events| {
      assert events[..i] == events;
    } else {
      var prior := events[..|events| - 1];
      assert events[..i] == prior[..i];
      KeysNeverVanish(a, prior, i);
      RunInv(a, prior);
      var issuer := IssuedByDevice(Run(a, prior), events[|events| - 1]);
    }
  }

  /** Key versions, over every run: once an account has had an identity key it has exactly
      one active version, the highest issued, and no file key is wrapped for one above it. */
  lemma KeyVersions(a: Account, events: seq<Event>, i: nat)
    requires Initial(a) && i <= |events| && Before(a, events, i).keys != []
    ensures
      var b := Run(a, events);
      var newest := MaxVersion(b.keys);
      && ActiveVersion(b.keys) == Some(newest)
      && (forall j, k | 0 <= j < |b.keys| && 0 <= k < |b.keys| ::
            b.keys[j].keyStatus == Active && b.keys[k].keyStatus == Active ==> j == k)
      && (forall f :: f in b.fileKeys ==> 1 <= b.fileKeys[f] <= newest)
  {
    var b := Run(a, events);
    RunInv(a, events);
    KeysNeverVanish(a, events, i);
    hide Run;
    ActiveIsLast(b.keys);
    MaxOfRetired(b.keys);
  }

  lemma KeeperHolds(a: Account, events: seq<Event>, spelled: Id -> bool)
    requires Initial(a) && AllCanonical(a.canon, spelled) && Spells(spelled, events)
    ensures HasKeeper(Run(a, events))
  {
    var b := Run(a, events);
    RunInv(a, events);
    RunHolds(a, events, spelled);
    hide Run;
    if b.keys != [] {
      var d :| d in b.devices && b.devices[d].kind == Standard && !b.devices[d].revoked
          && Envelope(d, |b.keys|) in b.envelopes;
      TrustedHasCopy(b, d);
    }
  }

  // --- Another spelling ------------------------------------------------------------------------

  /** An approver registers and recovers under a spelling that is not its row's: its kind is
      not found, and it alone holds the version it has issued. */
  predicate ApproverAlone(b: Account, d: Id) {
    && b.devices == map[d := Device(Approver, false)] && b.keys == [IdentityKey(1, Active)]
    && b.envelopes == {Envelope(d, 1)}
  }

  function Misspelled(spelling: Id): seq<Event> {
    [RegisterCall(spelling, Some(Approver), NoKey), RecoverCall(spelling, None, NewKey)]
  }

  lemma MisspelledRun(canon: Id -> Option<Id>, spelling: Id)
    requires !Canonical(canon, spelling)
    ensures ApproverAlone(Run(NewAccount(canon), Misspelled(spelling)), canon(spelling).value)
    ensures Run(NewAccount(canon), Misspelled(spelling)[..1]).keys == []
    ensures Initial(NewAccount(canon))
  {
    var a, events, d := NewAccount(canon), Misspelled(spelling), canon(spelling).value;
    assert events[..1][..0] == [] && events[..1] == [events[0]];
    var b := Apply(a, events[0]);
    assert Run(a, events[..1]) == b;
    assert map[][d := Device(Approver, false)] == map[d := Device(Approver, false)];
    assert b == a.(devices := map[d := Device(Approver, false)]);
    assert Retire([]) == [];
    var c := Recovered(b, d);
    assert c.devices == map[d := Device(Approver, false)];
    assert Apply(b, events[1]) == c;
  }

  lemma ApproverIsNoKeeper(canon: Id -> Option<Id>, spelling: Id)
    requires !Canonical(canon, spelling)
    ensures !HasKeeper(Run(NewAccount(canon), Misspelled(spelling)))
    ensures !StandardIssuers(NewAccount(canon), Misspelled(spelling))
  {
    MisspelledRun(canon, spelling);
    var a, events := NewAccount(canon), Misspelled(spelling);
    var b := Run(a, events);
    hide Run;
    forall i: nat, d
      ensures !IssuedAt(a, events, 1, i, d)
    {
    }
    assert forall d | d in b.devices :: b.devices[d].kind == Approver;
    assert |b.keys| == 1 && !IssuedByStandard(a, events, 1);
  }

  /** A laptop sets up an account and admits the approver app. */
  predicate AppAdmitted(a: Account, laptop: Id, app: Id) {
    && a.devices == map[laptop := Device(Standard, false), app := Device(Approver, false)] && a.foreign == {}
    && a.keys == [IdentityKey(1, Active)] && a.envelopes == {Envelope(laptop, 1), Envelope(app, 1)}
  }

  lemma AppAsks(a: Account, laptop: Id, app: Id) returns (b: Account)
    requires laptop != app && a.canon(laptop) == Some(laptop) && a.canon(app) == Some(app) && a == NewAccount(a.canon)
    ensures b == Register(Register(a, laptop, None, NewKey).account, app, Some(Approver), NoKey).account
    ensures b == a.(devices := map[laptop := Device(Standard, false), app := Device(Approver, false)],
                    keys := [IdentityKey(1, Active)], envelopes := {Envelope(laptop, 1)})
  {
    var first := Register(a, laptop, None, NewKey).account;
    assert first.devices == map[laptop := Device(Standard, false)];
    b := Register(first, app, Some(Approver), NoKey).account;
    assert b.devices == map[laptop := Device(Standard, false), app := Device(Approver, false)];
  }

  lemma AppIsApproved(a: Account, laptop: Id, app: Id)
    requires laptop != app && a.enrollments == map[] && a.foreign == {}
    requires a.devices == map[laptop := Device(Standard, false), app := Device(Approver, false)]
    requires a.keys == [IdentityKey(1, Active)] && a.envelopes == {Envelope(laptop, 1)}
    ensures
      var asked := CreateEnrollment(a, "e", app, "123456").account;
      var b := Approve(asked, "e", laptop, "123456", 1, true, 0).account;
      AppAdmitted(b, laptop, app) && b.canon == a.canon
  {
    assert SameCode("123456", "123456");
    assert Envelope(laptop, 1) in a.envelopes;
    hide Trim, SameCode;
    var asked := CreateEnrollment(a, "e", app, "123456").account;
    assert asked.enrollments["e"] == Enrollment(app, "123456", Pending, a.now + ENROLLMENT_TTL);
    var b := Approve(asked, "e", laptop, "123456", 1, true, 0).account;
    assert b.envelopes == {Envelope(laptop, 1), Envelope(app, 1)};
  }

  lemma AppRecovers(a: Account, laptop: Id, app: Id, spelling: Id)
    requires laptop != app && AppAdmitted(a, laptop, app) && a.canon(spelling) == Some(app)
    requires spelling != app && spelling != laptop
    ensures
      var o := Recover(a, spelling, None, NewKey);
      && o.reply == HoldsKey(2) && IsTrusted(o.account, app) && !IsTrusted(o.account, laptop)
      && app in o.account.devices && o.account.devices[app].kind == Approver && !Owns(o.account.devices, laptop)
  {
    var retired := Retire(a.keys);
    assert retired == [IdentityKey(1, Retired)];
    assert MaxVersion(retired) == 1 by { MaxOfRetired(retired); }
    var b := Recovered(a, app);
    assert b.keys == [IdentityKey(1, Retired), IdentityKey(2, Active)];
    assert ActiveVersion(b.keys) == Some(2);
    assert b.envelopes == {Envelope(app, 2)} && Envelope(app, 2) in b.envelopes;
  }

  /** An approver that a laptop has admitted is refused a recovery under its id as its row
      shows it, and granted one under another spelling of it: it is then the only trusted
      device and has issued a version. */
  lemma ApproverRecovers(canon: Id -> Option<Id>, laptop: Id, app: Id, spelling: Id)
    requires canon(laptop) == Some(laptop) && canon(app) == Some(app) && canon(spelling) == Some(app)
    requires laptop != app && spelling != app && spelling != laptop
    ensures
      var events := [RegisterCall(laptop, None, NewKey), RegisterCall(app, Some(Approver), NoKey),
                     EnrollCall("e", app, "123456"), ApproveCall("e", laptop, "123456", 1, true, 0)];
      var a := Run(NewAccount(canon), events);
      var o := Recover(a, spelling, None, NewKey);
      && Recover(a, app, None, NewKey).reply == Refused(ApproverRestricted)
      && o.reply == HoldsKey(2) && IsTrusted(o.account, app) && !IsTrusted(o.account, laptop)
      && app in o.account.devices && o.account.devices[app].kind == Approver && !Owns(o.account.devices, laptop)
  {
    var start := NewAccount(canon);
    var asks := AppAsks(start, laptop, app);
    AppIsApproved(asks, laptop, app);
    hide Run, Register, CreateEnrollment, Approve, IsTrusted;
    var events: seq<Event> := [];
    assert Run(start, events) == start by { RunNothing(start); }
    events := Extended(start, events, RegisterCall(laptop, None, NewKey));
    events := Extended(start, events, RegisterCall(app, Some(Approver), NoKey));
    events := Extended(start, events, EnrollCall("e", app, "123456"));
    events := Extended(start, events, ApproveCall("e", laptop, "123456", 1, true, 0));
    assert events == [RegisterCall(laptop, None, NewKey), RegisterCall(app, Some(Approver), NoKey),
                      EnrollCall("e", app, "123456"), ApproveCall("e", laptop, "123456", 1, true, 0)];
    AppRecovers(Run(start, events), laptop, app, spelling);
  }

  lemma RunNothing(a: Account)
    ensures Run(a, []) == a
  {
  }

  lemma OnlySpells(spelled: Id -> bool, spelling: Id)
    requires spelled(spelling)
    ensures Spells(spelled, Misspelled(spelling))
  {
  }

  /** Key custody, exactly: in every run whose registrations and recoveries use these
      spellings a standard device stays trusted once there is a key, if and only if each
      of them spells a device id as its row does. */
  lemma KeyCustody(canon: Id -> Option<Id>, spelled: Id -> bool)
    ensures (forall a: Account, events: seq<Event> | Initial(a) && a.canon == canon && Spells(spelled, events) ::
               HasKeeper(Run(a, events)))
            <==> AllCanonical(canon, spelled)
  {
    hide Run, Spells, Initial, HasKeeper, Canonical;
    if AllCanonical(canon, spelled) {
      forall a: Account, events: seq<Event> | Initial(a) && a.canon == canon && Spells(spelled, events)
        ensures HasKeeper(Run(a, events))
      {
        KeeperHolds(a, events, spelled);
      }
    } else {
      var spelling :| spelled(spelling) && !Canonical(canon, spelling);
      OnlySpells(spelled, spelling);
      MisspelledRun(canon, spelling);
      ApproverIsNoKeeper(canon, spelling);
    }
  }

  /** And under the same condition, and no other, only standard devices issue versions. */
  lemma IssuersExactly(canon: Id -> Option<Id>, spelled: Id -> bool)
    ensures (forall a: Account, events: seq<Event> | Initial(a) && a.canon == canon && Spells(spelled, events) ::
               StandardIssuers(a, events))
            <==> AllCanonical(canon, spelled)
  {
    hide Run, Spells, Initial, Canonical;
    if AllCanonical(canon, spelled) {
      forall a: Account, events: seq<Event> | Initial(a) && a.canon == canon && Spells(spelled, events)
        ensures StandardIssuers(a, events)
      {
        forall version | 1 <= version <= |Run(a, events).keys|
          ensures IssuedByStandard(a, events, version)
        {
          StandardDevicesIssueKeys(a, events, spelled, version);
        }
      }
    } else {
      hide StandardIssuers;
      var spelling :| spelled(spelling) && !Canonical(canon, spelling);
      OnlySpells(spelled, spelling);
      MisspelledRun(canon, spelling);
      ApproverIsNoKeeper(canon, spelling);
    }
  }
}
