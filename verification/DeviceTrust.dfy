/** One account's devices, identity keys and enrollments, each service call one
    step, and what makes a device trusted. */
module DeviceTrust {
  import opened Prelude

  type Id = string

  datatype Kind = Standard | Approver

  datatype Device = Device(kind: Kind, revoked: bool)

  datatype KeyStatus = Active | Retired

  datatype IdentityKey = IdentityKey(version: int, keyStatus: KeyStatus)

  /** A device's wrapped copy of one identity key version. */
  datatype Envelope = Envelope(device: Id, version: int)

  datatype EnrollmentStatus = Pending | Approved | Rejected | Cancelled | Expired

  datatype Enrollment = Enrollment(device: Id, code: string, status: EnrollmentStatus, expiresAt: int)

  /** The rows of one account. `foreign` are device ids of other accounts, `legacy`
      the devices with a copy of the old user key, `fileKeys` the key version each
      of the account's file keys is wrapped for. Rows hold a device id as the database
      writes it; `canon` is how it reads the spelling of a request, None for a text that
      is no UUID. */
  datatype Account = Account(
    canon: Id -> Option<Id>,
    devices: map<Id, Device>,
    foreign: set<Id>,
    keys: seq<IdentityKey>,
    envelopes: set<Envelope>,
    legacy: set<Id>,
    escrow: Option<int>,
    enrollments: map<Id, Enrollment>,
    fileKeys: map<Id, int>,
    now: int)

  const ENROLLMENT_TTL: int := 600

  /** The new identity key a registration brings along. */
  datatype Offer = NoKey | PartialKey | InvalidKey | NewKey

  datatype Refusal =
    | ApproverRestricted | DeviceIdConflict | KeyRequired | Malformed | NotAuthorized | ApproverNotTrusted
    | NotFound | NotPending | CodeMismatch | KeyStale | KeyExists | NoLegacyKey | NoEscrow | Failed

  datatype Reply =
    | HoldsKey(version: int) | NeedsEnrollment | NeedsSetup | NeedsMigration
    | Done | Unchanged | Refused(why: Refusal)

  datatype Outcome = Outcome(account: Account, reply: Reply)

  // --- Queries -------------------------------------------------------------------

  function ActiveVersion(keys: seq<IdentityKey>): Option<int> {
    if keys == [] then None
    else if keys[|keys| - 1].keyStatus == Active then Some(keys[|keys| - 1].version)
    else ActiveVersion(keys[..|keys| - 1])
  }

  function MaxVersion(keys: seq<IdentityKey>): int {
    if keys == [] then 0 else Max(MaxVersion(keys[..|keys| - 1]), keys[|keys| - 1].version)
  }

  predicate HasVersion(keys: seq<IdentityKey>, version: int) {
    exists i | 0 <= i < |keys| :: keys[i].version == version
  }

  /** A device of the account that is not revoked. */
  predicate Owns(devices: map<Id, Device>, device: Id) {
    device in devices && !devices[device].revoked
  }

  predicate HoldsLegacy(a: Account, device: Id) {
    device in a.legacy && Owns(a.devices, device)
  }

  predicate HoldsIdentityKey(a: Account, device: Id, version: int) {
    Envelope(device, version) in a.envelopes && Owns(a.devices, device)
  }

  predicate IsTrusted(a: Account, device: Id) {
    var active := ActiveVersion(a.keys);
    active.Some? && HoldsIdentityKey(a, device, active.value)
  }

  predicate Open(a: Account, id: Id) {
    id in a.enrollments && a.enrollments[id].status == Pending && a.enrollments[id].expiresAt > a.now
  }

  /** GetDeviceKind, which looks for the request's spelling among the rows' texts, and
      the requested kind for a device it does not find. */
  function KindSeen(a: Account, spelling: Id, kind: Option<Kind>): Kind {
    if spelling in a.devices then a.devices[spelling].kind else if kind.Some? then kind.value else Standard
  }

  /** The upsert: a row that is there keeps its kind. */
  function Upserted(devices: map<Id, Device>, device: Id, kind: Kind): map<Id, Device> {
    devices[device := Device(if device in devices then devices[device].kind else kind, false)]
  }

  // --- Verification codes ---------------------------------------------------------------

  predicate Space(c: char) {
    c in {' ', '\t', '\n', '\r'}
  }

  function Trim(s: string): string {
    if s == "" then s
    else if Space(s[0]) then Trim(s[1..])
    else if Space(s[|s| - 1]) then Trim(s[..|s| - 1])
    else s
  }

  function Lower(c: char): char {
    if 'A' <= c <= 'Z' then c + 32 as char else c
  }

  /** Codes are compared without surrounding space and without regard to case. */
  predicate SameCode(a: string, b: string) {
    var s, t := Trim(a), Trim(b);
    |s| == |t| && forall i | 0 <= i < |s| :: Lower(s[i]) == Lower(t[i])
  }

  // --- Steps ------------------------------------------------------------------------

  function Refuse(a: Account, why: Refusal): Outcome {
    Outcome(a, Refused(why))
  }

  /** insertIdentityKeyWithEnvelope. */
  function WithKey(a: Account, version: int, device: Id): Account {
    a.(keys := a.keys + [IdentityKey(version, Active)], envelopes := a.envelopes + {Envelope(device, version)})
  }

  function Register(a: Account, spelling: Id, kind: Option<Kind>, offer: Offer): Outcome {
    var fixed := KindSeen(a, spelling, kind);
    if fixed == Approver && offer != NoKey then Refuse(a, ApproverRestricted)
    else if a.canon(spelling).None? then Refuse(a, Failed)
    else if a.canon(spelling).value in a.foreign then Refuse(a, DeviceIdConflict)
    else RegisterRow(a.(devices := Upserted(a.devices, a.canon(spelling).value, fixed)), a.canon(spelling).value, offer)
  }

  /** What follows the upsert of the registering device. */
  function RegisterRow(b: Account, device: Id, offer: Offer): Outcome {
    var active := ActiveVersion(b.keys);
    if active.Some? then
      Outcome(b, if Envelope(device, active.value) in b.envelopes then HoldsKey(active.value) else NeedsEnrollment)
    else if exists d | d in b.legacy :: Owns(b.devices, d) then Outcome(b, NeedsMigration)
    else if offer == NoKey || offer == PartialKey then Outcome(b, NeedsSetup)
    else if offer == InvalidKey then Refuse(b, Malformed)
    else if HasVersion(b.keys, 1) then Refuse(b, Failed)
    else Outcome(WithKey(b, 1, device), HoldsKey(1))
  }

  function Retire(keys: seq<IdentityKey>): seq<IdentityKey> {
    seq(|keys|, i requires 0 <= i < |keys| => keys[i].(keyStatus := Retired))
  }

  /** Closes those of the given enrollments that are pending. */
  function Close(enrollments: map<Id, Enrollment>, which: set<Id>, status: EnrollmentStatus): map<Id, Enrollment> {
    map id | id in enrollments ::
      if enrollments[id].status == Pending && id in which then enrollments[id].(status := status) else enrollments[id]
  }

  function Requests(enrollments: map<Id, Enrollment>, device: Id): set<Id> {
    set id | id in enrollments && enrollments[id].device == device
  }

  function RevokeAll(devices: map<Id, Device>): map<Id, Device> {
    map d | d in devices :: devices[d].(revoked := true)
  }

  function NextVersion(keys: seq<IdentityKey>): int {
    MaxVersion(Retire(keys)) + 1
  }

  /** The account after its recovery by this device. */
  function Recovered(a: Account, device: Id): Account {
    var next := NextVersion(a.keys);
    a.(devices := Upserted(RevokeAll(a.devices), device, Standard),
       envelopes := {Envelope(device, next)}, legacy := {},
       keys := Retire(a.keys) + [IdentityKey(next, Active)],
       enrollments := Close(a.enrollments, a.enrollments.Keys, Expired))
  }

  function Recover(a: Account, spelling: Id, kind: Option<Kind>, offer: Offer): Outcome {
    if KindSeen(a, spelling, kind) == Approver then Refuse(a, ApproverRestricted)
    else if offer == NoKey || offer == PartialKey then Refuse(a, KeyRequired)
    else if offer == InvalidKey then Refuse(a, Malformed)
    else if a.canon(spelling).None? then Refuse(a, Failed)
    else if a.canon(spelling).value in a.foreign then Refuse(a, DeviceIdConflict)
    else Outcome(Recovered(a, a.canon(spelling).value), HoldsKey(NextVersion(a.keys)))
  }

  function StartMigration(a: Account, device: Id, wellFormed: bool): Outcome {
    if !HoldsLegacy(a, device) then Refuse(a, NoLegacyKey)
    else if ActiveVersion(a.keys).Some? then Refuse(a, KeyExists)
    else if !wellFormed then Refuse(a, Malformed)
    else if HasVersion(a.keys, 1) || a.escrow.Some? then Refuse(a, Failed)
    else Outcome(WithKey(a, 1, device).(escrow := Some(1)), HoldsKey(1))
  }

  /** The escrow counts only while it is for the active key. */
  function ActiveEscrow(a: Account): Option<int> {
    if a.escrow.Some? && ActiveVersion(a.keys) == a.escrow then a.escrow else None
  }

  function Adopt(a: Account, device: Id, version: int, wellFormed: bool): Outcome {
    var escrow := ActiveEscrow(a);
    if !HoldsLegacy(a, device) then Refuse(a, NoLegacyKey)
    else if escrow.None? then Refuse(a, NoEscrow)
    else if version != escrow.value then Refuse(a, KeyStale)
    else if Envelope(device, version) in a.envelopes then Outcome(a, Unchanged)
    else if !wellFormed then Refuse(a, Malformed)
    else Outcome(a.(envelopes := a.envelopes + {Envelope(device, version)}), Done)
  }

  /** A pending request, even one that has expired; the database allows one per device. */
  predicate Requested(a: Account, device: Id) {
    exists e | e in a.enrollments :: a.enrollments[e].device == device && a.enrollments[e].status == Pending
  }

  function CreateEnrollment(a: Account, id: Id, device: Id, code: string): Outcome {
    if !Owns(a.devices, device) then Refuse(a, NotAuthorized)
    else if exists e | e in a.enrollments :: a.enrollments[e].device == device && Open(a, e) then Outcome(a, Unchanged)
    else if Requested(a, device) || id in a.enrollments then Refuse(a, Failed)
    else
      var request := Enrollment(device, code, Pending, a.now + ENROLLMENT_TTL);
      Outcome(a.(enrollments := a.enrollments[id := request]), Done)
  }

  /** The replica's clock is read for the check and the database's for the update, `skew`
      later by their clocks or earlier; the key copy is stored in between. */
  function Approve(a: Account, id: Id, approver: Id, code: string, version: int, wellFormed: bool, skew: int): Outcome {
    if !Owns(a.devices, approver) then Refuse(a, NotAuthorized)
    else if !IsTrusted(a, approver) then Refuse(a, ApproverNotTrusted)
    else if id !in a.enrollments then Refuse(a, NotFound)
    else
      var e := a.enrollments[id];
      if e.status != Pending || a.now > e.expiresAt then Refuse(a, NotPending)
      else if !SameCode(code, e.code) then Refuse(a, CodeMismatch)
      else if Some(version) != ActiveVersion(a.keys) then Refuse(a, KeyStale)
      else if !wellFormed then Refuse(a, Malformed)
      else
        var b := a.(envelopes := a.envelopes + {Envelope(e.device, version)});
        if e.expiresAt <= a.now + skew then Refuse(b, NotFound)
        else Outcome(b.(enrollments := b.enrollments[id := e.(status := Approved)]), Done)
  }

  function Reject(a: Account, id: Id, approver: Id): Outcome {
    if !Owns(a.devices, approver) then Refuse(a, NotAuthorized)
    else if !IsTrusted(a, approver) then Refuse(a, ApproverNotTrusted)
    else if !Open(a, id) then Refuse(a, NotPending)
    else Outcome(a.(enrollments := a.enrollments[id := a.enrollments[id].(status := Rejected)]), Done)
  }

  function CancelEnrollment(a: Account, id: Id, device: Id): Outcome {
    if !Owns(a.devices, device) then Refuse(a, NotAuthorized)
    else if id !in a.enrollments || a.enrollments[id].device != device || a.enrollments[id].status != Pending
    then Refuse(a, NotPending)
    else Outcome(a.(enrollments := a.enrollments[id := a.enrollments[id].(status := Cancelled)]), Done)
  }

  function RemoveApprover(a: Account, spelling: Id): Outcome {
    if a.canon(spelling).None? then Refuse(a, Failed)
    else
      var device := a.canon(spelling).value;
      if !Owns(a.devices, device) || a.devices[device].kind != Approver then Refuse(a, NotFound)
      else
        Outcome(
          a.(devices := a.devices[device := a.devices[device].(revoked := true)],
             envelopes := (set e | e in a.envelopes && e.device != device),
             enrollments := Close(a.enrollments, Requests(a.enrollments, device), Cancelled)),
          Done)
  }

  function TouchExpired(a: Account): Account {
    var late := set id | id in a.enrollments && a.enrollments[id].expiresAt <= a.now;
    a.(enrollments := Close(a.enrollments, late, Expired))
  }

  /** A new file's owner envelope, or a share from another account. */
  function StoreFileKey(a: Account, file: Id, version: int): Outcome {
    if ActiveVersion(a.keys).None? then Refuse(a, KeyRequired)
    else if ActiveVersion(a.keys) != Some(version) then Refuse(a, KeyStale)
    else if file in a.fileKeys then Refuse(a, Failed)
    else Outcome(a.(fileKeys := a.fileKeys[file := version]), Done)
  }

  function Migrated(fileKeys: map<Id, int>, version: int, files: set<Id>): map<Id, int> {
    map f | f in files + fileKeys.Keys :: if f in fileKeys then fileKeys[f] else version
  }

  function Rescued(fileKeys: map<Id, int>, from: int, to: int, files: set<Id>): map<Id, int> {
    map f | f in fileKeys :: if f in files && fileKeys[f] == from then to else fileKeys[f]
  }

  /** StoreMigratedOwnerEnvelopes; files that have a key are left alone. */
  function MigrateFileKeys(a: Account, device: Id, version: int, files: set<Id>): Outcome {
    if !IsTrusted(a, device) then Refuse(a, NotAuthorized)
    else if ActiveVersion(a.keys) != Some(version) then Refuse(a, KeyStale)
    else Outcome(a.(fileKeys := Migrated(a.fileKeys, version, files)), Done)
  }

  /** RescueLockedFileKeys: only keys still wrapped for the older version change. */
  function RescueFileKeys(a: Account, from: int, to: int, files: set<Id>): Outcome {
    if from >= to then Refuse(a, Malformed)
    else
      var active := ActiveVersion(a.keys) == Some(to);
      Outcome(a.(fileKeys := if active then Rescued(a.fileKeys, from, to, files) else a.fileKeys), Done)
  }

  datatype Event =
    | RegisterCall(device: Id, kind: Option<Kind>, offer: Offer)
    | RecoverCall(device: Id, kind: Option<Kind>, offer: Offer)
    | StartCall(device: Id, wellFormed: bool)
    | AdoptCall(device: Id, version: int, wellFormed: bool)
    | EnrollCall(id: Id, device: Id, code: string)
    | ApproveCall(id: Id, approver: Id, code: string, version: int, wellFormed: bool, skew: int)
    | RejectCall(id: Id, approver: Id)
    | CancelCall(id: Id, device: Id)
    | RemoveApproverCall(device: Id)
    | TouchExpiredCall
    | StoreFileKeyCall(file: Id, version: int)
    | MigrateCall(device: Id, version: int, files: set<Id>)
    | RescueCall(from: int, to: int, files: set<Id>)
    | DropFileKeys(files: set<Id>)
    | Tick(passed: nat)

  function Apply(a: Account, e: Event): Account {
    match e
    case RegisterCall(device, kind, offer) => Register(a, device, kind, offer).account
    case RecoverCall(device, kind, offer) => Recover(a, device, kind, offer).account
    case StartCall(device, wellFormed) => StartMigration(a, device, wellFormed).account
    case AdoptCall(device, version, wellFormed) => Adopt(a, device, version, wellFormed).account
    case EnrollCall(id, device, code) => CreateEnrollment(a, id, device, code).account
    case ApproveCall(id, approver, code, version, wellFormed, skew) =>
      Approve(a, id, approver, code, version, wellFormed, skew).account
    case RejectCall(id, approver) => Reject(a, id, approver).account
    case CancelCall(id, device) => CancelEnrollment(a, id, device).account
    case RemoveApproverCall(device) => RemoveApprover(a, device).account
    case TouchExpiredCall => TouchExpired(a)
    case StoreFileKeyCall(file, version) => StoreFileKey(a, file, version).account
    case MigrateCall(device, version, files) => MigrateFileKeys(a, device, version, files).account
    case RescueCall(from, to, files) => RescueFileKeys(a, from, to, files).account
    case DropFileKeys(files) => a.(fileKeys := a.fileKeys - files)
    case Tick(passed) => a.(now := a.now + passed)
  }

  function Run(a: Account, events: seq<Event>): Account {
    if events == [] then a else Apply(Run(a, events[..|events| - 1]), events[|events| - 1])
  }

  // --- What every step keeps -----------------------------------------------------------

  /** Versions are issued 1, 2, 3, ... and only the last is active. */
  predicate Versioned(keys: seq<IdentityKey>) {
    forall i | 0 <= i < |keys| ::
      keys[i].version == i + 1 && (keys[i].keyStatus == Active <==> i == |keys| - 1)
  }

  /** Copies are of the newest key, and only unrevoked devices have them. */
  predicate CopiesCurrent(devices: map<Id, Device>, envelopes: set<Envelope>, newest: nat) {
    forall e | e in envelopes :: 1 <= e.version == newest && Owns(devices, e.device)
  }

  predicate PendingOwned(devices: map<Id, Device>, enrollments: map<Id, Enrollment>) {
    forall id | id in enrollments && enrollments[id].status == Pending :: Owns(devices, enrollments[id].device)
  }

  predicate LegacyStandard(devices: map<Id, Device>, legacy: set<Id>) {
    forall d | d in legacy :: d in devices && devices[d].kind == Standard
  }

  predicate StandardHolder(devices: map<Id, Device>, envelopes: set<Envelope>, newest: nat) {
    exists d | d in devices :: devices[d].kind == Standard && !devices[d].revoked && Envelope(d, newest) in envelopes
  }

  predicate FilesBounded(fileKeys: map<Id, int>, escrow: Option<int>, newest: nat) {
    && (forall f | f in fileKeys :: 1 <= fileKeys[f] <= newest)
    && (escrow.Some? ==> escrow.value == 1 <= newest)
  }

  predicate Inv(a: Account) {
    && Versioned(a.keys) && CopiesCurrent(a.devices, a.envelopes, |a.keys|)
    && PendingOwned(a.devices, a.enrollments) && LegacyStandard(a.devices, a.legacy)
    && FilesBounded(a.fileKeys, a.escrow, |a.keys|)
  }

  /** Once there is a key, a standard device holds it. */
  predicate Held(a: Account) {
    a.keys != [] ==> StandardHolder(a.devices, a.envelopes, |a.keys|)
  }

  /** The spelling of a device id is the one its row shows, if it is an id at all. */
  predicate Canonical(canon: Id -> Option<Id>, spelling: Id) {
    canon(spelling).Some? ==> canon(spelling) == Some(spelling)
  }

  /** Registrations and recoveries name their device as its row does. */
  predicate WellSpelled(canon: Id -> Option<Id>, e: Event) {
    e.RegisterCall? || e.RecoverCall? ==> Canonical(canon, e.device)
  }

  /** An account before its first identity key, with or without a legacy user key. */
  predicate Initial(a: Account) {
    && a.keys == [] && a.envelopes == {} && a.escrow == None && a.fileKeys == map[]
    && PendingOwned(a.devices, a.enrollments) && LegacyStandard(a.devices, a.legacy)
  }

  lemma ActiveIsLast(keys: seq<IdentityKey>)
    requires Versioned(keys)
    ensures ActiveVersion(keys) == if keys == [] then None else Some(|keys|)
  {
  }

  lemma {:induction false} MaxOfRetired(keys: seq<IdentityKey>)
    requires forall i | 0 <= i < |keys| :: keys[i].version == i + 1
    ensures MaxVersion(keys) == |keys|
  {
    if keys != [] {
      MaxOfRetired(keys[..|keys| - 1]);
    }
  }

  lemma RegisterKeeps(a: Account, spelling: Id, kind: Option<Kind>, offer: Offer)
    requires Inv(a)
    ensures Inv(Register(a, spelling, kind, offer).account)
  {
    ActiveIsLast(a.keys);
    hide ActiveVersion, Versioned;
    if a.canon(spelling).Some? {
      UpsertKeeps(a, a.canon(spelling).value, KindSeen(a, spelling, kind));
      hide CopiesCurrent, PendingOwned, LegacyStandard, Upserted;
      var b := a.(devices := Upserted(a.devices, a.canon(spelling).value, KindSeen(a, spelling, kind)));
      if a.keys == [] { FirstKey(b, a.canon(spelling).value); }
    }
  }

  lemma UpsertKeeps(a: Account, device: Id, kind: Kind)
    requires Inv(a)
    ensures
      var b := a.(devices := Upserted(a.devices, device, kind));
      Inv(b) && Owns(b.devices, device)
  {
    hide Versioned;
  }

  /** A device of an account without a key creates the first. */
  lemma FirstKey(a: Account, device: Id)
    requires Inv(a) && a.keys == [] && Owns(a.devices, device)
    ensures Inv(WithKey(a, 1, device)) && Inv(WithKey(a, 1, device).(escrow := Some(1)))
  {
  }

  lemma RecoverKeeps(a: Account, spelling: Id, kind: Option<Kind>, offer: Offer)
    requires Inv(a)
    ensures Inv(Recover(a, spelling, kind, offer).account)
  {
    MaxOfRetired(Retire(a.keys));
    hide MaxVersion;
  }

  lemma MigrationKeeps(a: Account, device: Id, version: int, wellFormed: bool)
    requires Inv(a)
    ensures Inv(StartMigration(a, device, wellFormed).account)
    ensures Inv(Adopt(a, device, version, wellFormed).account)
  {
    ActiveIsLast(a.keys);
    hide ActiveVersion, PendingOwned, Versioned;
    if a.keys == [] && HoldsLegacy(a, device) {
      FirstKey(a, device);
    }
  }

  lemma ApproveKeeps(a: Account, id: Id, approver: Id, code: string, version: int, wellFormed: bool, skew: int)
    requires Inv(a)
    ensures Inv(Approve(a, id, approver, code, version, wellFormed, skew).account)
  {
    ActiveIsLast(a.keys);
    hide ActiveVersion, Versioned, LegacyStandard, FilesBounded;
  }

  lemma EnrollmentKeeps(a: Account, id: Id, device: Id, code: string)
    requires Inv(a)
    ensures Inv(CreateEnrollment(a, id, device, code).account)
    ensures Inv(Reject(a, id, device).account)
    ensures Inv(CancelEnrollment(a, id, device).account)
    ensures Inv(TouchExpired(a))
  {
    hide ActiveVersion, Versioned, LegacyStandard, FilesBounded, CopiesCurrent;
  }

  lemma RemoveApproverKeeps(a: Account, spelling: Id)
    requires Inv(a)
    ensures Inv(RemoveApprover(a, spelling).account)
  {
    hide Versioned, FilesBounded;
  }

  lemma FileKeysKeep(a: Account, file: Id, device: Id, from: int, version: int, files: set<Id>)
    requires Inv(a)
    ensures Inv(StoreFileKey(a, file, version).account)
    ensures Inv(MigrateFileKeys(a, device, version, files).account)
    ensures Inv(RescueFileKeys(a, from, version, files).account)
    ensures Inv(a.(fileKeys := a.fileKeys - files))
  {
    ActiveIsLast(a.keys);
    hide ActiveVersion, CopiesCurrent, Versioned, PendingOwned, LegacyStandard;
  }

  lemma StepInv(a: Account, e: Event)
    requires Inv(a)
    ensures Inv(Apply(a, e))
  {
    hide Register, Recover, StartMigration, Adopt, CreateEnrollment, Approve, Reject, CancelEnrollment, RemoveApprover;
    hide TouchExpired, StoreFileKey, MigrateFileKeys, RescueFileKeys, Versioned, CopiesCurrent, PendingOwned;
    hide LegacyStandard;
    match e
    case RegisterCall(device, kind, offer) => RegisterKeeps(a, device, kind, offer);
    case RecoverCall(device, kind, offer) => RecoverKeeps(a, device, kind, offer);
    case StartCall(device, wellFormed) => MigrationKeeps(a, device, 1, wellFormed);
    case AdoptCall(device, version, wellFormed) => MigrationKeeps(a, device, version, wellFormed);
    case EnrollCall(id, device, code) => EnrollmentKeeps(a, id, device, code);
    case ApproveCall(id, approver, code, version, wellFormed, skew) =>
      ApproveKeeps(a, id, approver, code, version, wellFormed, skew);
    case RejectCall(id, approver) => EnrollmentKeeps(a, id, approver, "");
    case CancelCall(id, device) => EnrollmentKeeps(a, id, device, "");
    case RemoveApproverCall(device) => RemoveApproverKeeps(a, device);
    case TouchExpiredCall => EnrollmentKeeps(a, "", "", "");
    case StoreFileKeyCall(file, version) => FileKeysKeep(a, file, "", 1, version, {});
    case MigrateCall(device, version, files) => FileKeysKeep(a, "", device, 1, version, files);
    case RescueCall(from, to, files) => FileKeysKeep(a, "", "", from, to, files);
    case DropFileKeys(files) => FileKeysKeep(a, "", "", 1, 1, files);
    case Tick(passed) =>
  }

  // --- Who holds the key ---------------------------------------------------------------

  lemma RegisterHolds(a: Account, spelling: Id, kind: Option<Kind>, offer: Offer)
    requires Inv(a) && Held(a) && Canonical(a.canon, spelling)
    ensures Held(Register(a, spelling, kind, offer).account)
  {
    ActiveIsLast(a.keys);
    hide ActiveVersion, Versioned, PendingOwned, LegacyStandard, FilesBounded;
    var b := Register(a, spelling, kind, offer).account;
    if a.keys != [] {
      var d :| d in a.devices && a.devices[d].kind == Standard && !a.devices[d].revoked
          && Envelope(d, |a.keys|) in a.envelopes;
      assert Envelope(d, |b.keys|) in b.envelopes;
    } else if b.keys != [] {
      assert Envelope(spelling, |b.keys|) in b.envelopes;
    }
  }

  lemma RecoverHolds(a: Account, spelling: Id, kind: Option<Kind>, offer: Offer)
    requires Inv(a) && Held(a) && Canonical(a.canon, spelling)
    ensures Held(Recover(a, spelling, kind, offer).account)
  {
    MaxOfRetired(Retire(a.keys));
    hide MaxVersion, PendingOwned, LegacyStandard, FilesBounded;
    var b := Recover(a, spelling, kind, offer);
    if b.reply.HoldsKey? {
      assert Envelope(spelling, |b.account.keys|) in b.account.envelopes;
    }
  }

  lemma StartHolds(a: Account, device: Id, wellFormed: bool)
    requires Inv(a) && Held(a)
    ensures Held(StartMigration(a, device, wellFormed).account)
  {
    ActiveIsLast(a.keys);
    hide ActiveVersion, PendingOwned, FilesBounded;
    var b := StartMigration(a, device, wellFormed).account;
    if a.keys == [] && b.keys != [] {
      assert Envelope(device, 1) in b.envelopes;
    }
  }

  /** Steps that leave keys and devices alone and drop no copy. */
  lemma MoreCopiesHold(a: Account, b: Account)
    requires Held(a) && b.keys == a.keys && b.devices == a.devices && a.envelopes <= b.envelopes
    ensures Held(b)
  {
  }

  lemma RemoveApproverHolds(a: Account, spelling: Id)
    requires Inv(a) && Held(a)
    ensures Held(RemoveApprover(a, spelling).account)
  {
    hide Versioned, FilesBounded, PendingOwned, LegacyStandard;
    var b := RemoveApprover(a, spelling).account;
    if a.keys != [] {
      var d :| d in a.devices && a.devices[d].kind == Standard && !a.devices[d].revoked
          && Envelope(d, |a.keys|) in a.envelopes;
      assert Envelope(d, |b.keys|) in b.envelopes;
    }
  }

  lemma StepHolds(a: Account, e: Event)
    requires Inv(a) && Held(a) && WellSpelled(a.canon, e)
    ensures Held(Apply(a, e))
  {
    hide Register, Recover, StartMigration, RemoveApprover, Held, Inv;
    match e
    case RegisterCall(spelling, kind, offer) => RegisterHolds(a, spelling, kind, offer);
    case RecoverCall(spelling, kind, offer) => RecoverHolds(a, spelling, kind, offer);
    case StartCall(device, wellFormed) => StartHolds(a, device, wellFormed);
    case RemoveApproverCall(spelling) => RemoveApproverHolds(a, spelling);
    case _ => MoreCopiesHold(a, Apply(a, e));
  }
}
