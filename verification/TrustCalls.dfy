/** What each call on an account answers and changes, in terms of the rows it finds. In a
    sound account a key that exists is the newest version, and a device is trusted when it
    has a copy of that (TrustGuarantees.TrustedHasCopy). */
module TrustCalls {
  import opened Prelude
  import opened DeviceTrust
  import opened TrustGuarantees

  predicate HasCopy(a: Account, d: Id) {
    a.keys != [] && Envelope(d, |a.keys|) in a.envelopes
  }

  predicate IsUnrevoked(a: Account, d: Id) {
    d in a.devices && a.devices[d].revoked == false
  }

  /** The kind of the row with this text for an id, or else what the request says. */
  predicate SeenAsApprover(a: Account, spelling: Id, requested: Option<Kind>) {
    if spelling in a.devices then a.devices[spelling].kind == Approver else requested == Some(Approver)
  }

  // --- Registration -------------------------------------------------------------------------

  /** The request may write the row of its device. */
  predicate MayRegister(a: Account, spelling: Id, requested: Option<Kind>, offer: Offer) {
    && (SeenAsApprover(a, spelling, requested) ==> offer == NoKey)
    && a.canon(spelling) != None && a.canon(spelling).value !in a.foreign
  }

  /** A device with a copy of the legacy key waits to migrate: an unrevoked one, or this. */
  predicate MustMigrate(a: Account, registering: Id) {
    exists d | d in a.legacy :: d == registering || IsUnrevoked(a, d)
  }

  /** What a registration answers. An account with a key hands it to trusted devices and asks
      others to enroll; one without is migrated, or set up by the key that came along. */
  lemma RegisterAnswers(a: Account, spelling: Id, requested: Option<Kind>, offer: Offer)
    requires Inv(a)
    ensures
      var reply := Register(a, spelling, requested, offer).reply;
      var may, id := MayRegister(a, spelling, requested, offer), a.canon(spelling);
      var migrates := may && MustMigrate(a, id.value);
      && (may && a.keys != [] && HasCopy(a, id.value) <==> reply == HoldsKey(|a.keys|) && a.keys != [])
      && (reply == NeedsEnrollment <==> may && a.keys != [] && !HasCopy(a, id.value))
      && (reply == NeedsMigration <==> may && a.keys == [] && migrates)
      && (reply == NeedsSetup <==> may && a.keys == [] && !migrates && (offer == NoKey || offer == PartialKey))
      && (reply == HoldsKey(1) && a.keys == [] <==> may && a.keys == [] && !migrates && offer == NewKey)
      && (reply == Refused(Malformed) <==> may && a.keys == [] && !migrates && offer == InvalidKey)
      && (reply == Refused(ApproverRestricted) <==> SeenAsApprover(a, spelling, requested) && offer != NoKey)
      && (reply == Refused(DeviceIdConflict) <==>
            id.Some? && id.value in a.foreign && !(SeenAsApprover(a, spelling, requested) && offer != NoKey))
      && (reply.Refused? ==> !may || offer == InvalidKey)
  {
    ActiveIsLast(a.keys);
    hide ActiveVersion;
    if a.canon(spelling).Some? {
      RowsAfterUpsert(a, a.canon(spelling).value, KindSeen(a, spelling, requested));
    }
  }

  lemma RowsAfterUpsert(a: Account, id: Id, kind: Kind)
    ensures
      var rows := Upserted(a.devices, id, kind);
      && ((exists d | d in a.legacy :: Owns(rows, d)) <==> MustMigrate(a, id))
      && rows == a.devices[id := Device(if id in a.devices then a.devices[id].kind else kind, false)]
  {
  }

  /** What a recovery answers. */
  lemma RecoverAnswers(a: Account, spelling: Id, requested: Option<Kind>, offer: Offer)
    requires Inv(a)
    ensures
      var reply, id := Recover(a, spelling, requested, offer).reply, a.canon(spelling);
      var standard := !SeenAsApprover(a, spelling, requested);
      && (reply == HoldsKey(|a.keys| + 1) <==> standard && offer == NewKey && id.Some? && id.value !in a.foreign)
      && (reply == Refused(ApproverRestricted) <==> !standard)
      && (reply == Refused(KeyRequired) <==> standard && (offer == NoKey || offer == PartialKey))
      && (reply == Refused(Malformed) <==> standard && offer == InvalidKey)
      && (reply == Refused(DeviceIdConflict) <==> standard && offer == NewKey && id.Some? && id.value in a.foreign)
      && (reply.HoldsKey? || reply.Refused?)
  {
    MaxOfRetired(Retire(a.keys));
    hide MaxVersion;
  }

  // --- Migration ----------------------------------------------------------------------------

  /** What starting a migration and adopting its key answer. */
  lemma MigrationAnswers(a: Account, device: Id, version: int, wellFormed: bool)
    requires Inv(a)
    ensures
      var start, adopt := StartMigration(a, device, wellFormed).reply, Adopt(a, device, version, wellFormed).reply;
      var holds := device in a.legacy && IsUnrevoked(a, device);
      var current := a.escrow.Some? && a.escrow.value == |a.keys|;
      && (start == HoldsKey(1) <==> holds && a.keys == [] && wellFormed)
      && (start == Refused(NoLegacyKey) <==> !holds) && (adopt == Refused(NoLegacyKey) <==> !holds)
      && (start == Refused(KeyExists) <==> holds && a.keys != [])
      && (start == Refused(Malformed) <==> holds && a.keys == [] && !wellFormed)
      && (adopt == Refused(NoEscrow) <==> holds && !current)
      && (adopt == Refused(KeyStale) <==> holds && current && version != |a.keys|)
      && (adopt == Unchanged <==> holds && current && version == |a.keys| && HasCopy(a, device))
      && (adopt == Done <==> holds && current && version == |a.keys| && !HasCopy(a, device) && wellFormed)
      && (adopt == Refused(Malformed) <==>
            holds && current && version == |a.keys| && !HasCopy(a, device) && !wellFormed)
  {
    ActiveIsLast(a.keys);
    hide ActiveVersion;
  }

  // --- Enrollment ---------------------------------------------------------------------------

  predicate IsPending(a: Account, id: Id, device: Id) {
    id in a.enrollments && a.enrollments[id].device == device && a.enrollments[id].status == Pending
  }

  /** What asking for an enrollment and withdrawing one answer. */
  lemma RequesterAnswers(a: Account, id: Id, device: Id, code: string)
    ensures
      var create, cancel := CreateEnrollment(a, id, device, code).reply, CancelEnrollment(a, id, device).reply;
      var open := exists e | e in a.enrollments :: IsPending(a, e, device) && a.now < a.enrollments[e].expiresAt;
      var pending := exists e | e in a.enrollments :: IsPending(a, e, device);
      && (create == Refused(NotAuthorized) <==> !IsUnrevoked(a, device))
      && (cancel == Refused(NotAuthorized) <==> !IsUnrevoked(a, device))
      && (create == Unchanged <==> IsUnrevoked(a, device) && open)
      && (create == Done <==> IsUnrevoked(a, device) && !pending && id !in a.enrollments)
      && (cancel == Done <==> IsUnrevoked(a, device) && IsPending(a, id, device))
      && (create in {Done, Unchanged, Refused(NotAuthorized), Refused(Failed)})
      && (cancel in {Done, Refused(NotPending), Refused(NotAuthorized)})
  {
  }

  /** The approver may answer at all: an unrevoked device with a copy of the newest key. */
  predicate MayAnswer(a: Account, approver: Id) {
    IsUnrevoked(a, approver) && HasCopy(a, approver)
  }

  /** What approving and rejecting answer; the approval's update runs `skew` later. */
  lemma ApproverAnswers(a: Account, id: Id, approver: Id, code: string, version: int, wellFormed: bool, skew: int)
    requires Inv(a) && id in a.enrollments
    ensures
      var approve := Approve(a, id, approver, code, version, wellFormed, skew).reply;
      var reject, e := Reject(a, id, approver).reply, a.enrollments[id];
      var asked := MayAnswer(a, approver) && e.status == Pending && a.now <= e.expiresAt;
      var right := asked && SameCode(code, e.code);
      && (approve == Done <==> right && version == |a.keys| && wellFormed && a.now + skew < e.expiresAt)
      && (approve == Refused(NotAuthorized) <==> !IsUnrevoked(a, approver))
      && (approve == Refused(ApproverNotTrusted) <==> IsUnrevoked(a, approver) && !HasCopy(a, approver))
      && (approve == Refused(NotPending) <==> MayAnswer(a, approver) && !asked)
      && (approve == Refused(CodeMismatch) <==> asked && !right)
      && (approve == Refused(KeyStale) <==> right && version != |a.keys|)
      && (approve == Refused(Malformed) <==> right && version == |a.keys| && !wellFormed)
      && (reject == Done <==> asked && a.now < e.expiresAt)
      && (reject == Refused(NotPending) <==> MayAnswer(a, approver) && !(asked && a.now < e.expiresAt))
      && (reject == Refused(ApproverNotTrusted) <==> IsUnrevoked(a, approver) && !HasCopy(a, approver))
  {
    ActiveIsLast(a.keys);
    hide ActiveVersion, SameCode, Inv;
  }

  /** An answer to an enrollment that is not there, or not there in time, finds none. */
  lemma NotFoundExactly(a: Account, id: Id, approver: Id, code: string, version: int, wellFormed: bool, skew: int)
    requires Inv(a)
    ensures
      var approve := Approve(a, id, approver, code, version, wellFormed, skew);
      && (id !in a.enrollments ==>
            && (approve.reply == Refused(NotFound) <==> MayAnswer(a, approver)) && approve.account == a
            && (Reject(a, id, approver).reply == Refused(NotPending) <==> MayAnswer(a, approver)))
      && (id in a.enrollments && approve.reply == Refused(NotFound) ==>
            && a.now <= a.enrollments[id].expiresAt <= a.now + skew
            && approve.account == a.(envelopes := a.envelopes + {Envelope(a.enrollments[id].device, version)}))
      && (approve.reply == Done || approve.reply.Refused?)
  {
    ActiveIsLast(a.keys);
    hide ActiveVersion, SameCode, Inv;
  }

  /** An approved enrollment is closed: it is approved, and no second answer is taken. */
  lemma ApprovedIsClosed(a: Account, id: Id, approver: Id, code: string, version: int, wellFormed: bool, skew: int,
                         other: Id, again: string, newer: int, proper: bool, late: int)
    requires Inv(a) && Approve(a, id, approver, code, version, wellFormed, skew).reply == Done
    ensures
      var b := Approve(a, id, approver, code, version, wellFormed, skew).account;
      && b.enrollments == a.enrollments[id := a.enrollments[id].(status := Approved)]
      && IsTrusted(b, a.enrollments[id].device)
      && Approve(b, id, other, again, newer, proper, late).reply.Refused?
      && Approve(b, id, other, again, newer, proper, late).account == b && Reject(b, id, other).reply.Refused?
      && CancelEnrollment(b, id, a.enrollments[id].device).reply.Refused?
  {
    ApproveTrust(a, id, approver, code, version, wellFormed, skew, a.enrollments[id].device);
    ActiveIsLast(a.keys);
    hide ActiveVersion, SameCode, IsTrusted;
  }

  // --- Removal and file keys --------------------------------------------------------------

  lemma RemovalAnswers(a: Account, spelling: Id)
    ensures
      var reply, id := RemoveApprover(a, spelling).reply, a.canon(spelling);
      && (reply == Done <==> id.Some? && id.value in a.devices && a.devices[id.value] == Device(Approver, false))
      && (reply == Refused(NotFound) <==> id.Some? && reply != Done) && (reply == Refused(Failed) <==> id.None?)
  {
  }

  /** What storing a key, migrating and rescuing keys answer. */
  lemma FileKeysAnswer(a: Account, file: Id, device: Id, from: int, version: int, files: set<Id>)
    requires Inv(a)
    ensures
      var store := StoreFileKey(a, file, version).reply;
      var migrate := MigrateFileKeys(a, device, version, files).reply;
      var rescue := RescueFileKeys(a, from, version, files).reply;
      && (store == Done <==> a.keys != [] && version == |a.keys| && file !in a.fileKeys)
      && (store == Refused(KeyRequired) <==> a.keys == [])
      && (store == Refused(Failed) <==> a.keys != [] && version == |a.keys| && file in a.fileKeys)
      && (store == Refused(KeyStale) <==> a.keys != [] && version != |a.keys|)
      && (migrate == Done <==> MayAnswer(a, device) && version == |a.keys|)
      && (migrate == Refused(NotAuthorized) <==> !MayAnswer(a, device))
      && (migrate == Refused(KeyStale) <==> MayAnswer(a, device) && version != |a.keys|)
      && (rescue == Refused(Malformed) <==> from >= version) && (rescue == Done <==> from < version)
  {
    ActiveIsLast(a.keys);
    hide ActiveVersion;
  }

  // --- What changes -------------------------------------------------------------------------

  /** The call is a recovery that takes place. */
  predicate Recovers(a: Account, e: Event) {
    && e.RecoverCall? && !SeenAsApprover(a, e.device, e.kind) && e.offer == NewKey
    && a.canon(e.device) != None && a.canon(e.device).value !in a.foreign
  }

  predicate Registers(a: Account, e: Event, d: Id) {
    e.RegisterCall? && MayRegister(a, e.device, e.kind, e.offer) && a.canon(e.device) == Some(d)
  }

  predicate Removes(a: Account, e: Event, d: Id) {
    e.RemoveApproverCall? && a.canon(e.device) == Some(d) && d in a.devices && a.devices[d] == Device(Approver, false)
  }

  /** A device comes by registering or recovering, which also revives it; it keeps its first
      kind, and goes by a recovery of another or by its removal as an approver. */
  lemma DevicesChangeExactly(a: Account, e: Event, d: Id)
    requires Inv(a)
    ensures
      var b := Apply(a, e);
      var enters := Registers(a, e, d) || (Recovers(a, e) && a.canon(e.device) == Some(d));
      && (d in b.devices <==> d in a.devices || enters)
      && (d in b.devices ==>
            && b.devices[d].kind == (if d in a.devices then a.devices[d].kind
                                     else if e.RegisterCall? && SeenAsApprover(a, e.device, e.kind) then Approver
                                     else Standard)
            && (b.devices[d].revoked <==> !enters && (a.devices[d].revoked || Recovers(a, e) || Removes(a, e, d))))
  {
    hide Register, Recover, Approve, StartMigration, Adopt, CreateEnrollment, CancelEnrollment, MigrateFileKeys;
    hide Close, Inv;
    RegisterDevices(a, e, d);
    RecoverDevices(a, e, d);
    OthersKeepDevices(a, e);
  }

  lemma RegisterDevices(a: Account, e: Event, d: Id)
    ensures e.RegisterCall? ==>
              var b, enters := Apply(a, e), Registers(a, e, d);
              && (d in b.devices <==> d in a.devices || enters)
              && (d in b.devices && enters ==>
                    var first := if SeenAsApprover(a, e.device, e.kind) then Approver else Standard;
                    b.devices[d] == Device(if d in a.devices then a.devices[d].kind else first, false))
              && (d in b.devices && !enters ==> b.devices[d] == a.devices[d])
  {
    hide ActiveVersion, HasVersion;
  }

  lemma RecoverDevices(a: Account, e: Event, d: Id)
    ensures e.RecoverCall? ==>
              var b, enters := Apply(a, e), Recovers(a, e) && a.canon(e.device) == Some(d);
              && (d in b.devices <==> d in a.devices || enters)
              && (d in b.devices ==>
                    && b.devices[d].kind == (if d in a.devices then a.devices[d].kind else Standard)
                    && (b.devices[d].revoked <==> !enters && (a.devices[d].revoked || Recovers(a, e))))
  {
    hide MaxVersion, Retire, Close;
  }

  lemma OthersKeepDevices(a: Account, e: Event)
    ensures !e.RegisterCall? && !e.RecoverCall? && !e.RemoveApproverCall? ==> Apply(a, e).devices == a.devices
  {
    hide ActiveVersion, Close, SameCode;
  }

  /** The account keeps the rest: legacy copies until a recovery, the escrow from the
      migration on, other accounts' devices, and the time. */
  ghost predicate AccountFollows(a: Account, e: Event) {
    var b := Apply(a, e);
    var migrates := e.StartCall? && e.device in a.legacy && IsUnrevoked(a, e.device) && a.keys == [] && e.wellFormed;
    && b.legacy == (if Recovers(a, e) then {} else a.legacy)
    && b.escrow == (if migrates then Some(1) else a.escrow)
    && b.now == a.now + (if e.Tick? then e.passed else 0) && b.canon == a.canon && b.foreign == a.foreign
  }

  lemma IssuesFollow(a: Account, e: Event)
    requires Inv(a) && (e.RegisterCall? || e.RecoverCall? || e.StartCall?)
    ensures AccountFollows(a, e)
  {
    ActiveIsLast(a.keys);
    hide ActiveVersion, MaxVersion, Close, Retire, Upserted, RevokeAll;
  }

  lemma OthersFollow(a: Account, e: Event)
    requires !e.RegisterCall? && !e.RecoverCall? && !e.StartCall?
    ensures AccountFollows(a, e)
  {
    hide ActiveVersion, Close, SameCode, Migrated, Rescued, Requests;
  }

  lemma AccountChangesExactly(a: Account, e: Event)
    requires Inv(a)
    ensures AccountFollows(a, e)
  {
    hide AccountFollows;
    if e.RegisterCall? || e.RecoverCall? || e.StartCall? { IssuesFollow(a, e); } else { OthersFollow(a, e); }
  }

  /** What becomes of an enrollment: the first answer stands, and a pending one lapses with a
      recovery, its device's removal or its time. */
  function Answered(a: Account, e: Event, id: Id): EnrollmentStatus
    requires id in a.enrollments
  {
    var request := a.enrollments[id];
    var open := request.status == Pending;
    if open && e.ApproveCall? && e.id == id && MayAnswer(a, e.approver) && SameCode(e.code, request.code)
       && e.version == |a.keys| && e.wellFormed && a.now <= request.expiresAt
       && a.now + e.skew < request.expiresAt
    then Approved
    else if open && e.RejectCall? && e.id == id && MayAnswer(a, e.approver) && a.now < request.expiresAt then Rejected
    else if open && e.CancelCall? && e.id == id && e.device == request.device && IsUnrevoked(a, e.device) then Cancelled
    else if open && Removes(a, e, request.device) then Cancelled
    else if open && (Recovers(a, e) || (e == TouchExpiredCall && request.expiresAt <= a.now)) then Expired
    else request.status
  }

  predicate EnrollmentChanges(a: Account, e: Event, id: Id) {
    var b := Apply(a, e);
    var created := e.EnrollCall? && e.id == id && IsUnrevoked(a, e.device) && id !in a.enrollments
                   && forall other | other in a.enrollments :: !IsPending(a, other, e.device);
    && (id in b.enrollments <==> id in a.enrollments || created)
    && (created ==> b.enrollments[id] == Enrollment(e.device, e.code, Pending, a.now + 600))
    && (id in a.enrollments ==> b.enrollments[id] == a.enrollments[id].(status := Answered(a, e, id)))
  }

  lemma ApprovalCloses(a: Account, e: Event, id: Id)
    requires Inv(a) && e.ApproveCall?
    ensures EnrollmentChanges(a, e, id)
  {
    ActiveIsLast(a.keys);
    hide ActiveVersion, SameCode, Inv;
  }

  lemma RejectionCloses(a: Account, e: Event, id: Id)
    requires Inv(a) && e.RejectCall?
    ensures EnrollmentChanges(a, e, id)
  {
    ActiveIsLast(a.keys);
    hide ActiveVersion, SameCode, Inv;
  }

  lemma RecoveryCloses(a: Account, e: Event, id: Id)
    requires e.RecoverCall?
    ensures EnrollmentChanges(a, e, id)
  {
    hide MaxVersion, Retire, RevokeAll, SameCode;
  }

  lemma RemovalCloses(a: Account, e: Event, id: Id)
    requires e.RemoveApproverCall? || e.CancelCall? || e.TouchExpiredCall?
    ensures EnrollmentChanges(a, e, id)
  {
    hide SameCode;
  }

  lemma OthersLeaveOpen(a: Account, e: Event, id: Id)
    requires !e.ApproveCall? && !e.RejectCall? && !e.RecoverCall? && !e.RemoveApproverCall? && !e.CancelCall?
    requires !e.TouchExpiredCall?
    ensures EnrollmentChanges(a, e, id)
  {
    hide ActiveVersion, SameCode, HasVersion, Migrated, Rescued, Upserted;
  }

  lemma EnrollmentsChangeExactly(a: Account, e: Event, id: Id)
    requires Inv(a)
    ensures EnrollmentChanges(a, e, id)
  {
    hide EnrollmentChanges, Inv;
    match e
    case ApproveCall(_, _, _, _, _, _) => ApprovalCloses(a, e, id);
    case RejectCall(_, _) => RejectionCloses(a, e, id);
    case RecoverCall(_, _, _) => RecoveryCloses(a, e, id);
    case RemoveApproverCall(_) | CancelCall(_, _) | TouchExpiredCall => RemovalCloses(a, e, id);
    case _ => OthersLeaveOpen(a, e, id);
  }

  /** A file key is stored for the newest version only, and changes by a rescue to it. */
  lemma FileKeysChangeExactly(a: Account, e: Event, f: Id)
    requires Inv(a)
    ensures
      var b := Apply(a, e);
      var stored := e.StoreFileKeyCall? && e.file == f && a.keys != [] && e.version == |a.keys| && f !in a.fileKeys;
      var migrated := e.MigrateCall? && MayAnswer(a, e.device) && e.version == |a.keys| && f in e.files
                      && f !in a.fileKeys;
      var dropped := e.DropFileKeys? && f in e.files;
      var rescued := e.RescueCall? && e.from < e.to == |a.keys| && f in e.files && f in a.fileKeys
                     && a.fileKeys[f] == e.from;
      && (f in b.fileKeys <==> stored || migrated || (f in a.fileKeys && !dropped))
      && (f in b.fileKeys ==>
            b.fileKeys[f] == if stored || migrated || rescued then |a.keys| else a.fileKeys[f])
  {
    ActiveIsLast(a.keys);
    hide ActiveVersion, MaxVersion, Retire, Close, SameCode, CopiesCurrent, PendingOwned, LegacyStandard, Versioned;
    hide Register, Recover, Approve;
    OthersKeepFiles(a, e);
  }

  lemma OthersKeepFiles(a: Account, e: Event)
    ensures e.RegisterCall? || e.RecoverCall? || e.ApproveCall? ==> Apply(a, e).fileKeys == a.fileKeys
  {
  }

  // --- Codes ----------------------------------------------------------------------------------

  /** Trimming takes the spaces at both ends and nothing else. */
  lemma {:induction false} TrimIsCore(s: string) returns (i: nat, j: nat)
    ensures i <= j <= |s| && Trim(s) == s[i..j]
    ensures forall k | 0 <= k < |s| && !(i <= k < j) :: s[k] in {' ', '\t', '\n', '\r'}
    ensures i < j ==> s[i] !in {' ', '\t', '\n', '\r'} && s[j - 1] !in {' ', '\t', '\n', '\r'}
  {
    i, j := 0, |s|;
    if s != "" && Space(s[0]) {
      var x, y := TrimIsCore(s[1..]);
      i, j := x + 1, y + 1;
    } else if s != "" && Space(s[|s| - 1]) {
      i, j := TrimIsCore(s[..|s| - 1]);
    }
  }

  /** Two codes are the same if the trimmed texts agree letter by letter, upper or lower. */
  lemma CodesMatchExactly(a: string, b: string)
    ensures
      var s, t := Trim(a), Trim(b);
      SameCode(a, b) <==>
        |s| == |t| && forall k | 0 <= k < |s| ::
          || s[k] == t[k] || ('A' <= s[k] <= 'Z' && t[k] as int == s[k] as int + 32)
          || ('A' <= t[k] <= 'Z' && s[k] as int == t[k] as int + 32)
  {
    hide Trim;
  }
}
