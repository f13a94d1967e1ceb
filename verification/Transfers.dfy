/** File transfers between users: the transfer rows, the recipients' key envelopes,
    and the retention purge. */
module Transfers {
  import opened Prelude

  type Id = string

  /** A file and a recipient. */
  datatype Pair = Pair(file: Id, user: int)

  datatype File = File(owner: Option<int>, expiresAt: int, deletedAt: Option<int>)

  datatype Status = Pending | Accepted | Declined

  datatype AccessKind = Owner | Share

  /** `used` remembers every file id, because they are used once. */
  datatype Store = Store(
    files: map<Id, File>,
    used: set<Id>,
    transfers: map<Pair, Status>,
    envelopes: map<Pair, AccessKind>,
    now: int)

  datatype Refusal = NotRecipient | NotOwned | NotReady | Exists | NotFound | AlreadyAnswered | Unavailable

  datatype Reply = Done | Refused(why: Refusal)

  datatype Outcome = Outcome(store: Store, reply: Reply)

  function Refuse(s: Store, why: Refusal): Outcome {
    Outcome(s, Refused(why))
  }

  /** A finalized upload; a signed-in owner's copy of the key comes with it. */
  function CreateFile(s: Store, file: Id, owner: Option<int>, expiresAt: int): Store {
    if file in s.used then s
    else
      s.(files := s.files[file := File(owner, expiresAt, None)], used := s.used + {file},
         envelopes := if owner.Some? then s.envelopes[Pair(file, owner.value) := Owner] else s.envelopes)
  }

  /** StoreMigratedOwnerEnvelopes for one file: only the owner's, and only if missing. */
  function MigrateOwner(s: Store, file: Id, user: int): Store {
    if file in s.files && s.files[file].owner == Some(user) && s.files[file].deletedAt.None?
        && Pair(file, user) !in s.envelopes
    then s.(envelopes := s.envelopes[Pair(file, user) := Owner])
    else s
  }

  predicate OwnsLive(s: Store, user: int, file: Id) {
    && file in s.files && s.files[file].owner == Some(user) && s.files[file].deletedAt.None?
    && s.now <= s.files[file].expiresAt
  }

  /** The share handler and CreateTransfer; `ready` when the recipient exists and the
      envelope is wrapped for its active key version. */
  function CreateTransfer(s: Store, sender: int, file: Id, recipient: int, ready: bool): Outcome {
    var pair := Pair(file, recipient);
    if recipient == sender then Refuse(s, NotRecipient)
    else if !OwnsLive(s, sender, file) then Refuse(s, NotOwned)
    else if !ready then Refuse(s, NotReady)
    else if pair in s.transfers then Refuse(s, Exists)
    else if pair in s.envelopes then Refuse(s, Exists)
    else Outcome(s.(transfers := s.transfers[pair := Pending], envelopes := s.envelopes[pair := Share]), Done)
  }

  predicate FileAvailable(s: Store, file: Id) {
    file in s.files && s.files[file].deletedAt.None? && s.files[file].expiresAt > s.now
  }

  /** RespondToTransfer: declining also takes the recipient's envelope away. */
  function Respond(s: Store, recipient: int, file: Id, accept: bool): Outcome {
    var pair := Pair(file, recipient);
    if pair !in s.transfers || file !in s.files then Refuse(s, NotFound)
    else if s.transfers[pair] != Pending then Refuse(s, AlreadyAnswered)
    else if accept && !FileAvailable(s, file) then Refuse(s, Unavailable)
    else if accept then Outcome(s.(transfers := s.transfers[pair := Accepted]), Done)
    else
      Outcome(
        s.(transfers := s.transfers[pair := Declined],
           envelopes := if pair in s.envelopes && s.envelopes[pair] == Share
                        then s.envelopes - {pair} else s.envelopes),
        Done)
  }

  function SoftDelete(s: Store, file: Id): Store {
    if file in s.files && s.files[file].deletedAt.None?
    then s.(files := s.files[file := s.files[file].(deletedAt := Some(s.now))]) else s
  }

  predicate Purgeable(files: map<Id, File>, file: Id, cutoff: int) {
    file in files && files[file].deletedAt.Some? && files[file].deletedAt.value < cutoff
  }

  /** One batch of PurgeDeletedFiles: the files and every row that depends on them. */
  function Purge(s: Store, cutoff: int, batch: set<Id>): Store {
    var gone := set f | f in batch && Purgeable(s.files, f, cutoff);
    s.(files := s.files - gone,
       transfers := (map p | p in s.transfers && p.file !in gone :: s.transfers[p]),
       envelopes := (map p | p in s.envelopes && p.file !in gone :: s.envelopes[p]))
  }

  /** GetFileAccessKeyEnvelope finds a key for the user. */
  predicate Readable(s: Store, file: Id, user: int) {
    var pair := Pair(file, user);
    pair in s.envelopes && (s.envelopes[pair] == Owner || (pair in s.transfers && s.transfers[pair] == Accepted))
  }

  datatype Event =
    | CreateFileCall(file: Id, owner: Option<int>, expiresAt: int)
    | MigrateOwnerCall(file: Id, user: int)
    | ShareCall(user: int, file: Id, recipient: int, ready: bool)
    | RespondCall(user: int, file: Id, accept: bool)
    | SoftDeleteCall(file: Id)
    | PurgeCall(cutoff: int, batch: set<Id>)
    | Tick(passed: nat)

  function Apply(s: Store, e: Event): Store {
    match e
    case CreateFileCall(file, owner, expiresAt) => CreateFile(s, file, owner, expiresAt)
    case MigrateOwnerCall(file, user) => MigrateOwner(s, file, user)
    case ShareCall(user, file, recipient, ready) => CreateTransfer(s, user, file, recipient, ready).store
    case RespondCall(user, file, accept) => Respond(s, user, file, accept).store
    case SoftDeleteCall(file) => SoftDelete(s, file)
    case PurgeCall(cutoff, batch) => Purge(s, cutoff, batch)
    case Tick(passed) => s.(now := s.now + passed)
  }

  function Run(s: Store, events: seq<Event>): Store {
    if events == [] then s else Apply(Run(s, events[..|events| - 1]), events[|events| - 1])
  }

  function Empty(now: int): Store {
    Store(map[], {}, map[], map[], now)
  }

  // --- What every step keeps ---------------------------------------------------------

  /** A share envelope for a pair exists exactly while its transfer is open or accepted. */
  predicate SharesMatch(s: Store) {
    forall p | p in s.envelopes.Keys + s.transfers.Keys ::
      p in s.envelopes && s.envelopes[p] == Share <==> p in s.transfers && s.transfers[p] != Declined
  }

  predicate Owned(s: Store) {
    && (forall p | p in s.envelopes ::
          p.file in s.files && (s.envelopes[p] == Owner ==> s.files[p.file].owner == Some(p.user)))
    && (forall p | p in s.transfers ::
          p.file in s.files && s.files[p.file].owner.Some? && s.files[p.file].owner != Some(p.user))
    && (forall f | f in s.files :: f in s.used)
  }

  predicate Inv(s: Store) {
    SharesMatch(s) && Owned(s)
  }

  lemma SharesStayMatched(s: Store, e: Event)
    requires Inv(s)
    ensures SharesMatch(Apply(s, e))
  {
  }

  lemma StaysOwned(s: Store, e: Event)
    requires Inv(s)
    ensures Owned(Apply(s, e))
  {
    hide SharesMatch;
    match e
    case RespondCall(user, file, accept) => RespondKeepsOwned(s, user, file, accept);
    case ShareCall(user, file, recipient, ready) => ShareKeepsOwned(s, user, file, recipient, ready);
    case _ => hide Respond, CreateTransfer;
  }

  lemma RespondKeepsOwned(s: Store, recipient: int, file: Id, accept: bool)
    requires Owned(s)
    ensures Owned(Respond(s, recipient, file, accept).store)
  {
  }

  lemma ShareKeepsOwned(s: Store, sender: int, file: Id, recipient: int, ready: bool)
    requires Owned(s)
    ensures Owned(CreateTransfer(s, sender, file, recipient, ready).store)
  {
  }

  lemma StepInv(s: Store, e: Event)
    requires Inv(s)
    ensures Inv(Apply(s, e))
  {
    SharesStayMatched(s, e);
    StaysOwned(s, e);
    hide Apply, SharesMatch, Owned;
  }

  lemma {:induction false} RunInv(now: int, events: seq<Event>)
    ensures Inv(Run(Empty(now), events))
  {
    hide Apply;
    if events != [] {
      RunInv(now, events[..|events| - 1]);
      StepInv(Run(Empty(now), events[..|events| - 1]), events[|events| - 1]);
    }
  }

  // --- Guarantees ------------------------------------------------------------------------

  /** The state before event i of a run. */
  function Before(now: int, events: seq<Event>, i: nat): Store
    requires i <= |events|
  {
    Run(Empty(now), events[..i])
  }

  lemma BeforeNext(now: int, events: seq<Event>, i: nat)
    requires i < |events|
    ensures Inv(Before(now, events, i))
    ensures Before(now, events, i + 1) == Apply(Before(now, events, i), events[i])
  {
    hide Apply, Inv;
    RunInv(now, events[..i]);
    assert events[..i + 1][..i] == events[..i];
  }

  /** Over every run: an envelope shared with a user exists exactly while the transfer is
      pending or accepted, the user can read the key exactly once it is accepted, and the
      owner's own envelope is the only other way to read it. */
  lemma EnvelopesFollowTransfers(now: int, events: seq<Event>, file: Id, user: int)
    ensures
      var s := Run(Empty(now), events);
      var pair := Pair(file, user);
      && (pair in s.envelopes && s.envelopes[pair] == Share <==> pair in s.transfers && s.transfers[pair] != Declined)
      && (pair in s.transfers ==> (Readable(s, file, user) <==> s.transfers[pair] == Accepted))
      && (pair !in s.transfers ==> (Readable(s, file, user) <==> pair in s.envelopes)
                                   && (Readable(s, file, user) ==>
                                       file in s.files && s.files[file].owner == Some(user)))
  {
    RunInv(now, events);
    hide Run;
  }

  /** The envelope insert of CreateTransfer never conflicts: only an earlier transfer of
      the same file to the same user is refused as existing. */
  lemma ExistsMeansTransferred(s: Store, sender: int, file: Id, recipient: int, ready: bool)
    requires Inv(s)
    ensures CreateTransfer(s, sender, file, recipient, ready).reply == Refused(Exists) ==>
        Pair(file, recipient) in s.transfers
  {
  }

  predicate Answers(s: Store, e: Event, pair: Pair) {
    e.RespondCall? && pair == Pair(e.file, e.user) && Respond(s, e.user, e.file, e.accept).reply == Done
  }

  /** Nothing can be answered for the pair any more: answered, or the file is purged. */
  predicate Closed(s: Store, pair: Pair) {
    if pair in s.transfers then s.transfers[pair] != Pending else pair.file in s.used && pair.file !in s.files
  }

  lemma ClosedStays(s: Store, e: Event, pair: Pair)
    requires Inv(s) && Closed(s, pair)
    ensures Closed(Apply(s, e), pair) && !Answers(s, e, pair)
    ensures pair !in s.envelopes ==> pair !in Apply(s, e).envelopes
  {
  }

  lemma AnswerCloses(s: Store, e: Event, pair: Pair)
    requires Inv(s) && Answers(s, e, pair)
    ensures Closed(Apply(s, e), pair) && (!e.accept ==> pair !in Apply(s, e).envelopes)
  {
  }

  lemma {:induction false} AnsweredStaysClosed(now: int, events: seq<Event>, i: nat, j: nat, pair: Pair)
    requires i < j <= |events| && Answers(Before(now, events, i), events[i], pair)
    ensures Closed(Before(now, events, j), pair)
    ensures events[i].RespondCall? && (!events[i].accept ==> pair !in Before(now, events, j).envelopes)
    decreases j
  {
    hide Run, Apply, Inv, Closed;
    BeforeNext(now, events, j - 1);
    if j == i + 1 {
      AnswerCloses(Before(now, events, i), events[i], pair);
    } else {
      AnsweredStaysClosed(now, events, i, j - 1, pair);
      ClosedStays(Before(now, events, j - 1), events[j - 1], pair);
    }
  }

  /** A transfer is answered at most once. */
  lemma AnsweredOnce(now: int, events: seq<Event>, i: nat, j: nat, pair: Pair)
    requires i < |events| && j < |events|
    requires Answers(Before(now, events, i), events[i], pair) && Answers(Before(now, events, j), events[j], pair)
    ensures i == j
  {
    hide Run, Apply, Inv, Closed, Answers;
    var first, second := Min(i, j), Max(i, j);
    if first < second {
      AnsweredStaysClosed(now, events, first, second, pair);
      BeforeNext(now, events, second);
      ClosedStays(Before(now, events, second), events[second], pair);
    }
  }

  /** A declined recipient never holds an envelope for the file again, through purges
      and new shares alike. */
  lemma DeclinedStaysLocked(now: int, events: seq<Event>, i: nat, j: nat, pair: Pair)
    requires i < j <= |events| && Answers(Before(now, events, i), events[i], pair) && !events[i].accept
    ensures pair !in Before(now, events, j).envelopes && !Readable(Before(now, events, j), pair.file, pair.user)
  {
    AnsweredStaysClosed(now, events, i, j, pair);
    hide Run;
  }

  /** A purge touches nothing of a file that is not deleted, and leaves nothing of the
      files it removes. */
  lemma PurgeSparesLiveFiles(s: Store, cutoff: int, batch: set<Id>, pair: Pair)
    requires Inv(s) && pair.file in s.files
    ensures
      var after := Purge(s, cutoff, batch);
      var gone := pair.file in batch && Purgeable(s.files, pair.file, cutoff);
      && (gone ==> pair.file !in after.files && pair !in after.transfers && pair !in after.envelopes)
      && (!gone ==> pair.file in after.files && after.files[pair.file] == s.files[pair.file]
                    && (pair in s.transfers <==> pair in after.transfers)
                    && (pair in s.transfers ==> after.transfers[pair] == s.transfers[pair])
                    && (pair in s.envelopes <==> pair in after.envelopes))
      && (s.files[pair.file].deletedAt.None? ==> !gone)
  {
  }

  predicate Granted(s: Store, pair: Pair) {
    if pair.file in s.files then pair in s.transfers && s.transfers[pair] == Accepted
    else pair.file in s.used && pair !in s.envelopes
  }

  predicate IsDeleted(s: Store, file: Id) {
    file in s.files && s.files[file].deletedAt.Some?
  }

  lemma GrantedStays(s: Store, e: Event, pair: Pair)
    requires Inv(s) && Granted(s, pair)
    ensures Granted(Apply(s, e), pair)
    ensures pair.file in s.files && pair.file !in Apply(s, e).files ==> IsDeleted(s, pair.file)
  {
    if e.PurgeCall? && pair.file in s.files {
      PurgeSparesLiveFiles(s, e.cutoff, e.batch, pair);
      hide Purge, SharesMatch, Owned;
    }
  }

  lemma {:induction false} GrantedLater(now: int, events: seq<Event>, i: nat, j: nat, pair: Pair)
    requires i < j <= |events| && Answers(Before(now, events, i), events[i], pair) && events[i].accept
    ensures Granted(Before(now, events, j), pair)
    decreases j
  {
    hide Run, Before, Apply, Inv, Granted, Answers;
    BeforeNext(now, events, j - 1);
    if j == i + 1 {
      AcceptGrants(Before(now, events, i), events[i], pair);
    } else {
      GrantedLater(now, events, i, j - 1, pair);
      GrantedStays(Before(now, events, j - 1), events[j - 1], pair);
    }
  }

  lemma {:induction false} GoneAfterDeletion(now: int, events: seq<Event>, i: nat, j: nat, pair: Pair) returns (k: nat)
    requires i < j <= |events| && Answers(Before(now, events, i), events[i], pair) && events[i].accept
    requires pair.file !in Before(now, events, j).files
    ensures i < k < j && IsDeleted(Before(now, events, k), pair.file)
    decreases j
  {
    hide Run, Before, Apply, Inv, Granted, Answers, IsDeleted;
    BeforeNext(now, events, j - 1);
    if j == i + 1 {
      AcceptGrants(Before(now, events, i), events[i], pair);
      assert false;
    } else if pair.file !in Before(now, events, j - 1).files {
      k := GoneAfterDeletion(now, events, i, j - 1, pair);
    } else {
      GrantedLater(now, events, i, j - 1, pair);
      GrantedStays(Before(now, events, j - 1), events[j - 1], pair);
      k := j - 1;
    }
  }

  /** An accepted transfer can be read for as long as the file is stored, whatever its
      owner, other recipients and the purge do; it ends only after the file was deleted. */
  lemma AcceptedStaysReadable(now: int, events: seq<Event>, i: nat, j: nat, pair: Pair)
    requires i < j <= |events| && Answers(Before(now, events, i), events[i], pair) && events[i].accept
    ensures Readable(Before(now, events, j), pair.file, pair.user) <==> pair.file in Before(now, events, j).files
    ensures pair.file !in Before(now, events, j).files ==>
              exists k: nat | i < k < j :: IsDeleted(Before(now, events, k), pair.file)
  {
    hide Run, Before, Apply, Inv, Granted, Answers, IsDeleted, Readable;
    InvAt(now, events, j);
    GrantedLater(now, events, i, j, pair);
    GrantedIsReadable(Before(now, events, j), pair);
    if pair.file !in Before(now, events, j).files {
      var k := GoneAfterDeletion(now, events, i, j, pair);
    }
  }

  lemma InvAt(now: int, events: seq<Event>, i: nat)
    requires i <= |events|
    ensures Inv(Before(now, events, i))
  {
    RunInv(now, events[..i]);
  }

  lemma AcceptGrants(s: Store, e: Event, pair: Pair)
    requires Inv(s) && Answers(s, e, pair) && e.accept
    ensures Granted(Apply(s, e), pair) && pair.file in Apply(s, e).files
  {
  }

  lemma GrantedIsReadable(s: Store, pair: Pair)
    requires Inv(s) && Granted(s, pair)
    ensures Readable(s, pair.file, pair.user) <==> pair.file in s.files
  {
  }

  // --- Who may do what -------------------------------------------------------------------

  predicate OwnsAvailable(s: Store, sender: int, file: Id) {
    && file in s.files && s.files[file].owner == Some(sender)
    && s.files[file].deletedAt == None && s.now <= s.files[file].expiresAt
  }

  /** A share succeeds exactly when the sender owns a stored file that is neither deleted
      nor expired, the recipient is another user and ready, and was never sent the file. */
  lemma ShareExactly(s: Store, sender: int, file: Id, recipient: int, ready: bool)
    requires Inv(s)
    ensures
      var o, pair := CreateTransfer(s, sender, file, recipient, ready), Pair(file, recipient);
      var may := sender != recipient && OwnsAvailable(s, sender, file);
      && (o.reply == Done <==> may && ready && pair !in s.transfers)
      && (o.reply == Done ==>
            && o.store == s.(transfers := s.transfers[pair := Pending], envelopes := s.envelopes[pair := Share])
            && !Readable(o.store, file, recipient))
      && (o.reply != Done ==> o.store == s)
      && (o.reply == Refused(NotRecipient) <==> sender == recipient)
      && (o.reply == Refused(NotOwned) <==> sender != recipient && !may)
      && (o.reply == Refused(NotReady) <==> may && !ready)
      && (o.reply == Refused(Exists) <==> may && ready && pair in s.transfers)
  {
  }

  predicate IsAvailable(s: Store, file: Id) {
    file in s.files && s.files[file].deletedAt == None && s.now < s.files[file].expiresAt
  }

  /** An answer succeeds exactly when the transfer is pending and its file stored, and, to
      accept, neither deleted nor expired; the recipient can then read the file or not. */
  lemma AnswerExactly(s: Store, recipient: int, file: Id, accept: bool)
    requires Inv(s)
    ensures
      var o, pair := Respond(s, recipient, file, accept), Pair(file, recipient);
      var pending := pair in s.transfers && s.transfers[pair] == Pending;
      && (o.reply == Done <==> pending && (accept ==> IsAvailable(s, file)))
      && (o.reply == Done ==>
            && o.store.transfers == s.transfers[pair := if accept then Accepted else Declined]
            && o.store.envelopes == (if accept then s.envelopes else s.envelopes - {pair})
            && o.store == s.(transfers := o.store.transfers, envelopes := o.store.envelopes)
            && (Readable(o.store, file, recipient) <==> accept))
      && (o.reply != Done ==> o.store == s)
      && (o.reply == Refused(NotFound) <==> pair !in s.transfers)
      && (o.reply == Refused(AlreadyAnswered) <==> pair in s.transfers && !pending)
      && (o.reply == Refused(Unavailable) <==> pending && accept && !IsAvailable(s, file))
  {
  }

  /** Files come under a new id, go by a purge after their deletion, and in between only
      that is noted. */
  lemma FilesChangeExactly(s: Store, e: Event, f: Id)
    ensures
      var t := Apply(s, e);
      var created := e.CreateFileCall? && e.file == f && f !in s.used;
      var purged := e.PurgeCall? && f in e.batch && IsDeleted(s, f) && s.files[f].deletedAt.value < e.cutoff;
      && (f in t.files <==> created || (f in s.files && !purged))
      && (f in t.used <==> f in s.used || created)
      && (created ==> t.files[f] == File(e.owner, e.expiresAt, None))
      && (f in t.files && !created ==>
            t.files[f] == if e == SoftDeleteCall(f) && s.files[f].deletedAt == None
                          then s.files[f].(deletedAt := Some(s.now)) else s.files[f])
      && t.now == s.now + if e.Tick? then e.passed else 0
  {
    hide Respond, CreateTransfer;
    if e.RespondCall? || e.ShareCall? {
      CallsKeepFiles(s, e);
    }
  }

  lemma CallsKeepFiles(s: Store, e: Event)
    requires e.RespondCall? || e.ShareCall?
    ensures
      var t := Apply(s, e);
      t.files == s.files && t.used == s.used && t.now == s.now
  {
  }

  /** An owner's copy of the key comes with the file or by the migration, and stays for as
      long as the file is stored. */
  lemma OwnersChangeExactly(s: Store, e: Event, pair: Pair)
    requires Inv(s)
    ensures
      var t := Apply(s, e);
      var created := e.CreateFileCall? && e.file == pair.file && e.file !in s.used && e.owner == Some(pair.user);
      var migrated := e == MigrateOwnerCall(pair.file, pair.user) && pair.file in s.files
                      && s.files[pair.file].owner == Some(pair.user) && s.files[pair.file].deletedAt == None;
      pair in t.envelopes && t.envelopes[pair] == Owner <==>
        created || migrated || (pair in s.envelopes && s.envelopes[pair] == Owner && pair.file in t.files)
  {
    StepInv(s, e);
    FilesChangeExactly(s, e, pair.file);
  }

  /** Event i accepts a pending transfer whose file is available. */
  predicate AcceptsAt(now: int, events: seq<Event>, i: nat, pair: Pair) {
    && i < |events| && events[i] == RespondCall(pair.user, pair.file, true)
    && var s := Before(now, events, i);
       pair in s.transfers && s.transfers[pair] == Pending && IsAvailable(s, pair.file)
  }

  /** A transfer becomes accepted by this alone and stays so while its file is stored. */
  lemma AcceptedChangesExactly(s: Store, e: Event, pair: Pair)
    requires Inv(s)
    ensures
      var t := Apply(s, e);
      var accepts := e == RespondCall(pair.user, pair.file, true) && pair in s.transfers
                     && s.transfers[pair] == Pending && IsAvailable(s, pair.file);
      && (pair in t.transfers && t.transfers[pair] == Accepted <==>
            accepts || (pair in s.transfers && s.transfers[pair] == Accepted && pair.file in t.files))
      && (accepts ==> pair.file in t.files) && (pair.file in t.files && pair.file !in s.files ==> pair.file !in s.used)
  {
    FilesChangeExactly(s, e, pair.file);
    match e
    case RespondCall(user, file, accept) => AnswerExactly(s, user, file, accept); hide Respond;
    case ShareCall(user, file, recipient, ready) => ShareExactly(s, user, file, recipient, ready); hide CreateTransfer;
    case _ => hide SharesMatch;
  }

  lemma {:induction false} UsedForGood(now: int, events: seq<Event>, i: nat, j: nat, file: Id)
    requires i <= j <= |events| && file in Before(now, events, i).files
    ensures file in Before(now, events, j).used
    decreases j
  {
    hide Run, Apply, Inv, Before;
    InvAt(now, events, i);
    FilesAreUsed(Before(now, events, i), file);
    if i < j {
      UsedForGood(now, events, i, j - 1, file);
      BeforeNext(now, events, j - 1);
      FilesChangeExactly(Before(now, events, j - 1), events[j - 1], file);
    }
  }

  lemma FilesAreUsed(s: Store, file: Id)
    requires Inv(s) && file in s.files
    ensures file in s.used
  {
  }

  /** Over every run, the transfer of a stored file is accepted, and so readable, if and only
      if its recipient accepted it while it was pending and the file available. */
  lemma {:induction false} AcceptanceIsRooted(now: int, events: seq<Event>, pair: Pair)
    requires pair.file in Run(Empty(now), events).files
    ensures
      var s := Run(Empty(now), events);
      pair in s.transfers && s.transfers[pair] == Accepted <==> exists i: nat :: AcceptsAt(now, events, i, pair)
  {
    if events != [] {
      var last := |events| - 1;
      var prior := events[..last];
      var s := Run(Empty(now), prior);
      RunInv(now, prior);
      assert Before(now, events, last) == s;
      assert forall i | 0 <= i <= last :: events[..i] == prior[..i];
      assert forall i: nat | i < last :: AcceptsAt(now, events, i, pair) == AcceptsAt(now, prior, i, pair);
      AcceptedChangesExactly(s, events[last], pair);
      if pair.file in s.files {
        AcceptanceIsRooted(now, prior, pair);
      } else if i: nat :| AcceptsAt(now, prior, i, pair) {
        UsedForGood(now, prior, i, last, pair.file);
      }
      hide Apply, Inv, Run, Before;
      if i: nat :| AcceptsAt(now, events, i, pair) {
        assert i == last || AcceptsAt(now, prior, i, pair);
      }
      if AcceptsAt(now, events, last, pair) || exists i: nat :: AcceptsAt(now, prior, i, pair) {
        var i: nat :| AcceptsAt(now, events, i, pair);
      }
    }
  }

  // --- The transactions ----------------------------------------------------------------------

  class TransferStore {
    var files: map<Id, File>
    var used: set<Id>
    var transfers: map<Pair, Status>
    var envelopes: map<Pair, AccessKind>
    var now: int

    ghost function State(): Store
      reads this
    {
      Store(files, used, transfers, envelopes, now)
    }

    /** Both rows or neither: a conflicting envelope rolls the transfer row back. */
    method InsertTransfer(file: Id, recipient: int) returns (ok: bool)
      modifies this`transfers, this`envelopes
      ensures ok <==> Pair(file, recipient) !in old(transfers) && Pair(file, recipient) !in old(envelopes)
      ensures transfers == if ok then old(transfers)[Pair(file, recipient) := Pending] else old(transfers)
      ensures envelopes == if ok then old(envelopes)[Pair(file, recipient) := Share] else old(envelopes)
    {
      var pair := Pair(file, recipient);
      if pair in transfers { return false; }
      var before := transfers;
      transfers := transfers[pair := Pending];
      if pair in envelopes {
        transfers := before;
        return false;
      }
      envelopes := envelopes[pair := Share];
      return true;
    }

    method ShareFile(sender: int, file: Id, recipient: int, ready: bool) returns (reply: Reply)
      modifies this
      ensures Outcome(State(), reply) == CreateTransfer(old(State()), sender, file, recipient, ready)
    {
      if recipient == sender { return Refused(NotRecipient); }
      if file !in files || files[file].owner != Some(sender) || files[file].deletedAt.Some?
         || now > files[file].expiresAt {
        return Refused(NotOwned);
      }
      if !ready { return Refused(NotReady); }
      var ok := InsertTransfer(file, recipient);
      return if ok then Done else Refused(Exists);
    }

    method RespondToTransfer(recipient: int, file: Id, accept: bool) returns (reply: Reply)
      modifies this`transfers, this`envelopes
      ensures Outcome(State(), reply) == Respond(old(State()), recipient, file, accept)
    {
      var pair := Pair(file, recipient);
      if pair !in transfers || file !in files { return Refused(NotFound); }
      var available := files[file].deletedAt.None? && files[file].expiresAt > now;
      if transfers[pair] != Pending { return Refused(AlreadyAnswered); }
      if accept && !available { return Refused(Unavailable); }
      transfers := transfers[pair := if accept then Accepted else Declined];
      if !accept && pair in envelopes && envelopes[pair] == Share {
        envelopes := envelopes - {pair};
      }
      return Done;
    }

    method PurgeDeletedFiles(cutoff: int, batch: set<Id>)
      modifies this
      ensures State() == Purge(old(State()), cutoff, batch)
    {
      var ids := set f | f in batch && Purgeable(files, f, cutoff);
      if ids == {} {
        assert State() == Purge(State(), cutoff, batch);
        return;
      }
      envelopes := map p | p in envelopes && p.file !in ids :: envelopes[p];
      transfers := map p | p in transfers && p.file !in ids :: transfers[p];
      files := files - ids;
    }
  }
}
