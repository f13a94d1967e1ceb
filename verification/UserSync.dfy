/** Re-checking the user cache against the CNS directory: recording a profile takes
    its name from older holders, a pass walks the due rows by cursor, and
    sync-users repeats passes under a deletion budget. */
module UserSync {
  import opened Prelude
  import opened UserRecords

  type Table = map<int, User>

  datatype DirectoryProfile = DirectoryProfile(username: string, avatarURL: string)

  type Directory = map<int, DirectoryProfile>

  /** A position in the order of the due rows: last sync time, then id. */
  datatype Cursor = Cursor(lastSynced: Time, id: int)

  const EPOCH: Time := 0
  // Go's zero time, in seconds from the epoch.
  const ZERO_TIME: Time := -62135596800
  const BATCH_MAX: nat := 100
  const MAX_BATCHES: nat := 20

  predicate StaleHolder(fold: string -> string, w: User, u: User) {
    && fold(w.username) == fold(u.username) && w.id != u.id && w.status == Active
    && u.profileObserved.Some? && (w.profileObserved.None? || w.profileObserved.value < u.profileObserved.value)
  }

  /** demoteNameHolders; `fold` is LOWER. */
  function Demote(fold: string -> string, users: Table, u: User, now: Time): Table {
    if u.status != Active || u.profileObserved.None? then users
    else
      map id | id in users ::
        var w := users[id];
        if StaleHolder(fold, w, u)
        then w.(status := Inactive, inactiveReason := Some(Stale), lastSynced := EPOCH,
                deactivated := if w.deactivated.Some? then w.deactivated else Some(now))
        else w
  }

  function RowOf(users: Table, id: int): Option<User> {
    if id in users then Some(users[id]) else None
  }

  function RecordProfile(fold: string -> string, users: Table, p: Profile, locked: Option<bool>, now: Time): Table {
    var row := if p.id in users then Some(users[p.id]) else None;
    if !Usable(p) || (row.Some? && row.value.status == Deleted) then users
    else
      var next := NextUserState(row, p, locked, now);
      Demote(fold, users[p.id := next], next, now)
  }

  /** ListUsersToVerify's condition on a row. */
  predicate Due(u: User, syncedBefore: Time) {
    u.status != Deleted && u.lastSynced < syncedBefore
  }

  predicate Less(a: Cursor, b: Cursor) {
    a.lastSynced < b.lastSynced || (a.lastSynced == b.lastSynced && a.id < b.id)
  }

  predicate AtMost(a: Cursor, b: Cursor) {
    a == b || Less(a, b)
  }

  function At(u: User): Cursor {
    Cursor(u.lastSynced, u.id)
  }

  // --- What a run keeps --------------------------------------------------------

  /** A directory whose usernames are unique. */
  predicate UniqueNames(fold: string -> string, directory: Directory) {
    forall a, b :: a in directory && b in directory && a != b ==>
      fold(directory[a].username) != fold(directory[b].username)
  }

  predicate Known(directory: Directory, id: int) {
    id in directory && !Blank(directory[id].username)
  }

  /** The row carries what the directory says, or is a tombstone of an unknown user. */
  predicate Settled(directory: Directory, id: int, u: User, syncedBefore: Time) {
    if u.status == Deleted then id !in directory
    else
      && Known(directory, id) && u.username == directory[id].username
      && u.avatar == (if directory[id].avatarURL == "" then None else Some(directory[id].avatarURL))
      && u.lastSynced >= syncedBefore
  }

  /** The rows erased by a deletion. */
  function Tombs(users: Table): set<int> {
    set id | id in users && users[id].status == Deleted
  }

  ghost predicate RowsSound(users: Table, clock: Time) {
    forall id :: id in users ==>
      && id > 0 && users[id].id == id && EPOCH <= users[id].lastSynced
      && (users[id].profileObserved.Some? ==> users[id].profileObserved.value <= clock)
  }

  /** `done` holds the rows this run confirmed or deleted; they stay settled, and
      no other row was deleted. `was` is the table the run started from. */
  ghost predicate Sound(directory: Directory, was: Table, users: Table, done: set<int>, syncedBefore: Time,
                        clock: Time) {
    && RowsSound(users, clock) && users.Keys == was.Keys && done <= users.Keys
    && (forall id :: id in done ==> Settled(directory, id, users[id], syncedBefore))
    && (forall id :: id in users && id !in done ==> (users[id].status == Deleted <==> was[id].status == Deleted))
  }

  /** A row still waiting to be confirmed or deleted in this pass. */
  predicate Waiting(users: Table, done: set<int>, syncedBefore: Time, cursor: Cursor, id: int) {
    id in users && id !in done && Due(users[id], syncedBefore) && AtMost(At(users[id]), cursor)
  }

  function FromDirectory(directory: Directory, id: int, at: Time): Profile
    requires id in directory
  {
    Profile(id, directory[id].username, directory[id].avatarURL, Some(at))
  }

  /** What demotion may do to a row: it stays what it is, or goes to the front. */
  predicate Stays(u: User, v: User) {
    && v.id == u.id && v.username == u.username && v.avatar == u.avatar && v.profileObserved == u.profileObserved
    && (v.status == Deleted <==> u.status == Deleted)
    && (v.lastSynced == u.lastSynced || v.lastSynced == EPOCH)
  }

  lemma DemoteStays(fold: string -> string, users: Table, u: User, now: Time)
    ensures Demote(fold, users, u, now).Keys == users.Keys
    ensures forall id :: id in users ==> Stays(users[id], Demote(fold, users, u, now)[id])
    ensures forall id :: id in users && !StaleHolder(fold, users[id], u) ==>
        Demote(fold, users, u, now)[id] == users[id]
  {
  }

  /** CNS cannot have given a name to two users: whoever else is still active under a
      recorded user's name was observed at least as late, and a holder that loses the
      name goes to the front of the queue. */
  lemma NameGoesToLatest(fold: string -> string, users: Table, p: Profile, locked: Option<bool>, now: Time, id: int)
    requires forall x :: x in users ==> users[x].id == x
    requires Usable(p) && (p.id in users ==> users[p.id].status != Deleted) && id in users && id != p.id
    ensures
      var after := RecordProfile(fold, users, p, locked, now);
      var u, w := after[p.id], after[id];
      && (u.status == Active && w.status == Active && fold(u.username) == fold(w.username) ==>
            u.profileObserved.Some? && w.profileObserved.Some? && u.profileObserved.value <= w.profileObserved.value)
      && (w != users[id] <==>
            && fold(users[id].username) == fold(u.username) && users[id].status == Active && u.status == Active
            && u.profileObserved.Some?
            && (users[id].profileObserved.None? || users[id].profileObserved.value < u.profileObserved.value))
      && (w != users[id] ==> Demoted(users[id], w))
  {
  }

  /** Recording a profile does to its own row what the row's history says, and so does a
      deletion; nothing at all for a tombstone or without an id or a name. */
  lemma RecordIsObservation(fold: string -> string, users: Table, p: Profile, locked: Option<bool>, now: Time)
    requires forall x :: x in users ==> users[x].id == x
    ensures
      var after := RecordProfile(fold, users, p, locked, now);
      && RowOf(after, p.id) == Observe(p.id, RowOf(users, p.id), Seen(p, locked, now))
      && (!(Usable(p) && StandsIn(users, p.id)) ==> after == users)
  {
    hide NextUserState, Usable;
    if Usable(p) && StandsIn(users, p.id) {
      var next := NextUserState(RowOf(users, p.id), p, locked, now);
      RecordedId(RowOf(users, p.id), p, locked, now);
      assert !StaleHolder(fold, next, next);
    }
  }

  /** The row, if there is one, is no tombstone. */
  predicate StandsIn(users: Table, id: int) {
    id in users ==> users[id].status != Deleted
  }

  lemma RecordedId(row: Option<User>, p: Profile, locked: Option<bool>, now: Time)
    requires row.Some? ==> row.value.id == p.id
    ensures NextUserState(row, p, locked, now).id == p.id
  {
  }

  lemma ConfirmedRow(directory: Directory, u: User, syncedBefore: Time, at: Time, now: Time)
    requires Due(u, syncedBefore) && syncedBefore <= at <= now && Known(directory, u.id)
    requires u.profileObserved.Some? ==> u.profileObserved.value <= at
    ensures
      var next := NextUserState(Some(u), FromDirectory(directory, u.id, at), None, now);
      && next.id == u.id && next.username == directory[u.id].username && next.status != Deleted
      && next.lastSynced == at && next.profileObserved == Some(at)
      && Settled(directory, u.id, next, syncedBefore)
  {
  }

  /** Confirming a due row settles it. It may put other rows back at the front of
      the queue, but none that this run has settled, since their names are the
      directory's and those are unique. */
  lemma ConfirmSettles(fold: string -> string, directory: Directory, was: Table, users: Table, done: set<int>,
                       syncedBefore: Time, id: int, at: Time, now: Time)
    requires UniqueNames(fold, directory) && Sound(directory, was, users, done, syncedBefore, at)
    requires syncedBefore <= at <= now
    requires id in users && id !in done && Due(users[id], syncedBefore) && Known(directory, id)
    ensures
      var after := RecordProfile(fold, users, FromDirectory(directory, id, at), None, now);
      && Sound(directory, was, after, done + {id}, syncedBefore, at)
      && (forall x :: x in users && x != id ==> x in after && Stays(users[x], after[x]))
      && after[id].status != Deleted
  {
    hide NextUserState, Blank;
    var p := FromDirectory(directory, id, at);
    var next := NextUserState(Some(users[id]), p, None, now);
    ConfirmedRow(directory, users[id], syncedBefore, at, now);
    assert Usable(p);
    DemoteStays(fold, users[id := next], next, now);
    hide Demote;
    var after := Demote(fold, users[id := next], next, now);
    assert RecordProfile(fold, users, p, None, now) == after;
    forall x | x in done
      ensures after[x] == users[x]
    {
      if users[x].status != Deleted {
        assert fold(directory[x].username) != fold(directory[id].username);
      }
      assert !StaleHolder(fold, users[x], next);
    }
    assert !StaleHolder(fold, next, next);
  }

  lemma DeleteSettles(directory: Directory, was: Table, users: Table, after: Table, done: set<int>,
                      syncedBefore: Time, clock: Time, id: int)
    requires Sound(directory, was, users, done, syncedBefore, clock)
    requires id in users && users[id].status != Deleted && id !in done && id !in directory
    requires after == users[id := DeletedUserState(Some(users[id]), id, clock)]
    ensures Sound(directory, was, after, done + {id}, syncedBefore, clock)
  {
  }

  lemma SoundLater(directory: Directory, was: Table, users: Table, done: set<int>, syncedBefore: Time, clock: Time,
                   later: Time)
    requires Sound(directory, was, users, done, syncedBefore, clock) && clock <= later
    ensures Sound(directory, was, users, done, syncedBefore, later)
  {
  }

  lemma SettledSkips(directory: Directory, was: Table, users: Table, done: set<int>, syncedBefore: Time, clock: Time)
    requires Sound(directory, was, users, done, syncedBefore, clock)
    ensures forall id :: id in done ==> id in users && !Due(users[id], syncedBefore)
  {
  }

  /** Rows of this pass still to be confirmed or deleted: due, and behind the cursor. */
  ghost predicate Pending(users: Table, ids: seq<int>, settled: set<int>, syncedBefore: Time, cursor: Cursor) {
    && (forall i :: 0 <= i < |ids| ==> Waiting(users, settled, syncedBefore, cursor, ids[i]))
    && (forall i, j :: 0 <= i < j < |ids| ==> ids[i] != ids[j])
  }

  function Without(ids: seq<int>, k: nat): seq<int>
    requires k < |ids|
  {
    ids[..k] + ids[k + 1..]
  }

  /** The first due rows after the cursor in order, and all of them if they are fewer. */
  ghost predicate IsPage(users: Table, ids: seq<int>, syncedBefore: Time, after: Cursor, limit: nat) {
    && |ids| <= limit
    && (forall i :: 0 <= i < |ids| ==>
          ids[i] in users && Due(users[ids[i]], syncedBefore) && Less(after, At(users[ids[i]])))
    && (forall i, j :: 0 <= i < j < |ids| ==> Less(At(users[ids[i]]), At(users[ids[j]])))
    && (forall id :: id in users && Due(users[id], syncedBefore) && Less(after, At(users[id])) && id !in ids ==>
          |ids| == limit > 0 && Less(At(users[ids[limit - 1]]), At(users[id])))
  }

  lemma WithoutFirst(ids: seq<int>, k: nat)
    requires k < |ids|
    ensures Without(ids[k..], 0) == ids[k + 1..]
  {
  }

  /** A listed batch joins the pending rows, which are all behind it. */
  lemma PendingJoins(directory: Directory, was: Table, users: Table, missing: seq<int>, ids: seq<int>, done: set<int>,
                     syncedBefore: Time, clock: Time, before: Cursor, limit: nat)
    requires Sound(directory, was, users, done, syncedBefore, clock)
        && Pending(users, missing, done, syncedBefore, before)
    requires ids != [] && IsPage(users, ids, syncedBefore, before, limit)
    ensures ids[|ids| - 1] in users
    ensures Pending(users, missing + ids, done, syncedBefore, At(users[ids[|ids| - 1]]))
  {
    SettledSkips(directory, was, users, done, syncedBefore, clock);
  }

  /** Confirming or deleting the row at k leaves the others pending: a demoted row
      only moves further behind the cursor. */
  lemma PendingKept(ids: seq<int>, k: nat, users: Table, after: Table, done: set<int>, syncedBefore: Time,
                    cursor: Cursor)
    requires k < |ids| && Pending(users, ids, done, syncedBefore, cursor)
    requires forall x :: x in users ==> users[x].id == x && EPOCH <= users[x].lastSynced
    requires forall x :: x in users && x != ids[k] ==> x in after && Stays(users[x], after[x])
    ensures Pending(after, Without(ids, k), done + {ids[k]}, syncedBefore, cursor)
  {
  }

  lemma ConfirmOne(fold: string -> string, directory: Directory, was: Table, users: Table, done: set<int>,
                   syncedBefore: Time, cursor: Cursor, ids: seq<int>, k: nat, at: Time, now: Time)
    requires UniqueNames(fold, directory) && Sound(directory, was, users, done, syncedBefore, at)
    requires k < |ids| && Pending(users, ids, done, syncedBefore, cursor)
    requires syncedBefore <= at <= now && Known(directory, ids[k])
    ensures
      var after := RecordProfile(fold, users, FromDirectory(directory, ids[k], at), None, now);
      && ids[k] !in done && Sound(directory, was, after, done + {ids[k]}, syncedBefore, at)
      && Pending(after, Without(ids, k), done + {ids[k]}, syncedBefore, cursor)
      && Tombs(after) == Tombs(users)
  {
    hide Settled, RecordProfile;
    assert Waiting(users, done, syncedBefore, cursor, ids[k]);
    ConfirmSettles(fold, directory, was, users, done, syncedBefore, ids[k], at, now);
    PendingKept(ids, k, users, RecordProfile(fold, users, FromDirectory(directory, ids[k], at), None, now), done,
                syncedBefore, cursor);
  }

  lemma DeleteOne(directory: Directory, was: Table, users: Table, done: set<int>, syncedBefore: Time, cursor: Cursor,
                  ids: seq<int>, k: nat, clock: Time)
    requires Sound(directory, was, users, done, syncedBefore, clock)
    requires k < |ids| && Pending(users, ids, done, syncedBefore, cursor) && ids[k] !in directory
    ensures ids[k] !in done && ids[k] in users && users[ids[k]].status != Deleted && ids[k] > 0
    ensures
      var after := users[ids[k] := DeletedUserState(Some(users[ids[k]]), ids[k], clock)];
      && Sound(directory, was, after, done + {ids[k]}, syncedBefore, clock)
      && Pending(after, Without(ids, k), done + {ids[k]}, syncedBefore, cursor)
      && Tombs(after) == Tombs(users) + {ids[k]} && ids[k] !in Tombs(users)
  {
    hide Settled;
    assert Waiting(users, done, syncedBefore, cursor, ids[k]);
    var after := users[ids[k] := DeletedUserState(Some(users[ids[k]]), ids[k], clock)];
    DeleteSettles(directory, was, users, after, done, syncedBefore, clock, ids[k]);
    PendingKept(ids, k, users, after, done, syncedBefore, cursor);
  }

  lemma PendingNone(users: Table, done: set<int>, syncedBefore: Time, cursor: Cursor)
    ensures Pending(users, [], done, syncedBefore, cursor)
  {
  }

  lemma ListedAll(directory: Directory, was: Table, users: Table, done: set<int>, syncedBefore: Time, clock: Time)
    requires Sound(directory, was, users, done, syncedBefore, clock)
    ensures forall id :: id in users ==> users[id].id == id && Less(Cursor(ZERO_TIME, 0), At(users[id]))
  {
  }

  lemma RunStarts(directory: Directory, users: Table, syncedBefore: Time, clock: Time)
    requires RowsSound(users, clock)
    ensures Sound(directory, users, users, {}, syncedBefore, clock)
  {
  }

  lemma SettledNow(directory: Directory, was: Table, users: Table, done: set<int>, syncedBefore: Time, clock: Time)
    requires Sound(directory, was, users, done, syncedBefore, clock)
    ensures forall id :: id in done ==> id in users && Settled(directory, id, users[id], syncedBefore)
  {
  }

  lemma RunKeeps(directory: Directory, was: Table, users: Table, done: set<int>, syncedBefore: Time, clock: Time)
    requires Sound(directory, was, users, done, syncedBefore, clock)
    ensures users.Keys == was.Keys && |done| <= |users| == |was|
    ensures forall id :: id in Tombs(users) && id !in Tombs(was) ==> id !in directory
  {
    SubsetSize(done, users.Keys);
    assert |users.Keys| == |users| && |was.Keys| == |was|;
  }

  // --- What a pass does to every row ---------------------------------------------------

  /** The row lost its name to a later observation and went to the front of the queue. */
  predicate Demoted(u: User, v: User) {
    && u.status == Active && v.deactivated.Some?
    && v == u.(status := Inactive, inactiveReason := Some(Stale), lastSynced := EPOCH, deactivated := v.deactivated)
  }

  /** Rows other than these are as before or demoted. */
  ghost predicate OthersKept(users: Table, after: Table, ids: set<int>) {
    forall x | x in users && x !in ids :: x in after && (after[x] == users[x] || Demoted(users[x], after[x]))
  }

  lemma KeptOn(users: Table, between: Table, after: Table, ids: set<int>, more: set<int>)
    requires OthersKept(users, between, ids) && OthersKept(between, after, more)
    ensures OthersKept(users, after, ids + more)
  {
  }

  lemma RecordKeepsOthers(fold: string -> string, users: Table, p: Profile, locked: Option<bool>, now: Time)
    ensures OthersKept(users, RecordProfile(fold, users, p, locked, now), {p.id})
  {
    hide NextUserState, Usable;
  }

  /** The batch lookup leaves this user out: unknown to it, or omitted by a fault. */
  predicate Omits(directory: Directory, omitted: set<int>, id: int) {
    id in omitted || !Known(directory, id)
  }

  /** Those of the ids that the batch lookup leaves out, in order. */
  function LeftOut(directory: Directory, omitted: set<int>, ids: seq<int>): seq<int> {
    if ids == [] then []
    else
      var rest, id := LeftOut(directory, omitted, ids[..|ids| - 1]), ids[|ids| - 1];
      if Omits(directory, omitted, id) then rest + [id] else rest
  }

  /** And those it answers. */
  function Answered(directory: Directory, omitted: set<int>, ids: seq<int>): set<int> {
    set id | id in ids && !Omits(directory, omitted, id)
  }

  function Elements(ids: seq<int>): set<int> {
    set id | id in ids
  }

  lemma {:induction false} LeftOutJoins(directory: Directory, omitted: set<int>, first: seq<int>, second: seq<int>)
    ensures LeftOut(directory, omitted, first + second)
        == LeftOut(directory, omitted, first) + LeftOut(directory, omitted, second)
    ensures Answered(directory, omitted, first + second)
        == Answered(directory, omitted, first) + Answered(directory, omitted, second)
    ensures Elements(first + second) == Elements(first) + Elements(second)
  {
    hide Omits;
    if second == [] {
      assert first + second == first;
    } else {
      var n := |second| - 1;
      LeftOutJoins(directory, omitted, first, second[..n]);
      assert (first + second)[..|first| + n] == first + second[..n];
    }
  }

  lemma {:induction false} LeftOutExactly(directory: Directory, omitted: set<int>, ids: seq<int>)
    ensures Elements(LeftOut(directory, omitted, ids)) + Answered(directory, omitted, ids) == Elements(ids)
    ensures forall id | id in LeftOut(directory, omitted, ids) :: id in ids && Omits(directory, omitted, id)
    ensures forall id | id in ids && Omits(directory, omitted, id) :: id in LeftOut(directory, omitted, ids)
  {
    hide Omits;
    if ids != [] {
      var init, id := ids[..|ids| - 1], ids[|ids| - 1];
      LeftOutExactly(directory, omitted, init);
      assert ids == init + [id] && Elements(ids) == Elements(init) + {id};
      var rest := LeftOut(directory, omitted, init);
      assert Elements(rest + [id]) == Elements(rest) + {id};
    }
  }

  function Unknown(directory: Directory, ids: set<int>): set<int> {
    set id | id in ids && id !in directory
  }

  /** Rows not listed yet are kept, and those still due come after the cursor. */
  ghost predicate Unlisted(was: Table, users: Table, listed: seq<int>, syncedBefore: Time, after: Cursor) {
    && OthersKept(was, users, Elements(listed))
    && forall x | x in was && x !in listed && users[x] == was[x] && Due(was[x], syncedBefore) :: Less(after, At(was[x]))
  }

  /** Every row that was due at the start is listed, unless it was demoted before its turn. */
  ghost predicate AllListed(was: Table, users: Table, listed: seq<int>, syncedBefore: Time) {
    && OthersKept(was, users, Elements(listed))
    && forall x | x in was && Due(was[x], syncedBefore) :: x in listed || Demoted(was[x], users[x])
  }

  lemma UnlistedStep(was: Table, users: Table, listed: seq<int>, ids: seq<int>, syncedBefore: Time, before: Cursor,
                     after: Cursor, limit: nat)
    requires Unlisted(was, users, listed, syncedBefore, before) && ids != []
    requires IsPage(users, ids, syncedBefore, before, limit) && after == At(users[ids[|ids| - 1]])
    ensures Unlisted(was, users, listed + ids, syncedBefore, after)
    ensures |ids| < limit ==> AllListed(was, users, listed + ids, syncedBefore)
  {
    assert Elements(listed) <= Elements(listed + ids);
  }

  lemma UnlistedEnds(was: Table, users: Table, listed: seq<int>, syncedBefore: Time, before: Cursor,
                     limit: nat)
    requires Unlisted(was, users, listed, syncedBefore, before) && limit > 0
    requires IsPage(users, [], syncedBefore, before, limit)
    ensures AllListed(was, users, listed, syncedBefore)
    ensures before == Cursor(ZERO_TIME, 0) && (forall id :: id in users ==> Less(before, At(users[id]))) ==>
              forall id :: id in users ==> !Due(users[id], syncedBefore)
  {
  }

  lemma UnlistedKept(was: Table, users: Table, later: Table, listed: seq<int>, syncedBefore: Time, after: Cursor)
    requires OthersKept(users, later, Elements(listed))
    ensures Unlisted(was, users, listed, syncedBefore, after) ==> Unlisted(was, later, listed, syncedBefore, after)
    ensures AllListed(was, users, listed, syncedBefore) ==> AllListed(was, later, listed, syncedBefore)
  {
  }

  lemma BatchStarts(directory: Directory, omitted: set<int>, users: Table, ids: seq<int>)
    ensures OthersKept(users, users, Elements(ids)) && Elements([]) == {} && Unknown(directory, Elements([])) == {}
    ensures LeftOut(directory, omitted, ids[..0]) == [] && Answered(directory, omitted, ids[..0]) == {}
    ensures LeftOut(directory, omitted, []) == [] && Answered(directory, omitted, []) == {} && ids[..0] == []
  {
  }

  lemma LeftOutNext(directory: Directory, omitted: set<int>, ids: seq<int>, k: nat)
    requires k < |ids|
    ensures
      var rest, answered := LeftOut(directory, omitted, ids[..k]), Answered(directory, omitted, ids[..k]);
      if ids[k] in omitted || !Known(directory, ids[k]) then
        LeftOut(directory, omitted, ids[..k + 1]) == rest + [ids[k]]
        && Answered(directory, omitted, ids[..k + 1]) == answered
      else
        LeftOut(directory, omitted, ids[..k + 1]) == rest
        && Answered(directory, omitted, ids[..k + 1]) == answered + {ids[k]}
  {
    hide Known;
    assert ids[..k + 1] == ids[..k] + [ids[k]];
  }

  /** A batch up to k: who was left out so far, who was confirmed, and the other rows kept. */
  ghost predicate BatchTo(directory: Directory, omitted: set<int>, was: Table, users: Table, ids: seq<int>, k: nat,
                          missing: seq<int>, missed: seq<int>, done: set<int>, settled: set<int>)
    requires k <= |ids|
  {
    && missed == missing + LeftOut(directory, omitted, ids[..k])
    && settled == done + Answered(directory, omitted, ids[..k])
    && OthersKept(was, users, Elements(ids))
  }

  lemma BatchBegins(directory: Directory, omitted: set<int>, users: Table, ids: seq<int>, missing: seq<int>,
                    done: set<int>)
    ensures BatchTo(directory, omitted, users, users, ids, 0, missing, missing, done, done)
  {
    BatchStarts(directory, omitted, users, ids);
    hide LeftOut, Answered;
    assert missing + [] == missing;
  }

  lemma BatchSkips(directory: Directory, omitted: set<int>, was: Table, users: Table, ids: seq<int>, k: nat,
                   missing: seq<int>, missed: seq<int>, done: set<int>, settled: set<int>)
    requires k < |ids| && BatchTo(directory, omitted, was, users, ids, k, missing, missed, done, settled)
    requires ids[k] in omitted || !Known(directory, ids[k])
    ensures BatchTo(directory, omitted, was, users, ids, k + 1, missing, missed + [ids[k]], done, settled)
  {
    LeftOutNext(directory, omitted, ids, k);
    hide LeftOut, Answered, OthersKept, Known;
  }

  lemma BatchConfirms(directory: Directory, omitted: set<int>, was: Table, users: Table, after: Table, ids: seq<int>,
                      k: nat, missing: seq<int>, missed: seq<int>, done: set<int>, settled: set<int>)
    requires k < |ids| && BatchTo(directory, omitted, was, users, ids, k, missing, missed, done, settled)
    requires ids[k] !in omitted && Known(directory, ids[k]) && OthersKept(users, after, {ids[k]})
    ensures BatchTo(directory, omitted, was, after, ids, k + 1, missing, missed, done, settled + {ids[k]})
  {
    LeftOutNext(directory, omitted, ids, k);
    OneOfThem(was, users, after, ids, k);
    hide LeftOut, Answered, OthersKept, Known, Elements;
  }

  lemma BatchEnds(directory: Directory, omitted: set<int>, was: Table, users: Table, ids: seq<int>, k: nat,
                  missing: seq<int>, missed: seq<int>, done: set<int>, settled: set<int>)
    requires k <= |ids| && BatchTo(directory, omitted, was, users, ids, k, missing, missed, done, settled)
    ensures OthersKept(was, users, Elements(ids))
    ensures k == |ids| ==>
              && missed == missing + LeftOut(directory, omitted, ids)
              && settled == done + Answered(directory, omitted, ids)
  {
    assert ids[..|ids|] == ids;
  }

  /** The single lookups up to k: every user looked up is settled, and the unknown are gone. */
  ghost predicate DeletedTo(directory: Directory, was: Table, users: Table, ids: seq<int>, k: nat, done: set<int>,
                            settled: set<int>)
    requires k <= |ids|
  {
    && settled == done + Elements(ids[..k])
    && Tombs(users) == Tombs(was) + Unknown(directory, Elements(ids[..k]))
    && OthersKept(was, users, Elements(ids))
  }

  lemma DeletedNext(directory: Directory, was: Table, users: Table, after: Table, ids: seq<int>, k: nat,
                    done: set<int>, settled: set<int>)
    requires k < |ids| && DeletedTo(directory, was, users, ids, k, done, settled)
    requires OthersKept(users, after, {ids[k]})
    requires Tombs(after) == Tombs(users) + if ids[k] in directory then {} else {ids[k]}
    ensures DeletedTo(directory, was, after, ids, k + 1, done, settled + {ids[k]})
  {
    UnknownNext(directory, ids, k);
    OneOfThem(was, users, after, ids, k);
    hide OthersKept, Elements, Unknown, Tombs;
  }

  lemma DeletedEnds(directory: Directory, was: Table, users: Table, ids: seq<int>, k: nat, done: set<int>,
                    settled: set<int>)
    requires k <= |ids| && DeletedTo(directory, was, users, ids, k, done, settled)
    ensures OthersKept(was, users, Elements(ids))
    ensures k == |ids| ==>
              settled == done + Elements(ids) && Tombs(users) == Tombs(was) + Unknown(directory, Elements(ids))
  {
    assert ids[..|ids|] == ids;
  }

  lemma DeletedNone(directory: Directory, users: Table, ids: seq<int>, done: set<int>)
    ensures DeletedTo(directory, users, users, ids, 0, done, done)
  {
    BatchStarts(directory, {}, users, ids);
  }

  lemma UnknownNext(directory: Directory, ids: seq<int>, k: nat)
    requires k < |ids|
    ensures Elements(ids[..k + 1]) == Elements(ids[..k]) + {ids[k]}
    ensures Unknown(directory, Elements(ids[..k + 1]))
        == Unknown(directory, Elements(ids[..k])) + if ids[k] in directory then {} else {ids[k]}
  {
    assert ids[..k + 1] == ids[..k] + [ids[k]];
  }

  /** A change to one of the ids' rows, and demotions. */
  lemma OneOfThem(users: Table, between: Table, after: Table, ids: seq<int>, k: nat)
    requires k < |ids| && OthersKept(users, between, Elements(ids)) && OthersKept(between, after, {ids[k]})
    ensures OthersKept(users, after, Elements(ids))
  {
    KeptOn(users, between, after, Elements(ids), {ids[k]});
    assert Elements(ids) + {ids[k]} == Elements(ids);
  }

  lemma DeleteKeepsOthers(users: Table, after: Table, id: int)
    requires forall x | x in users && x != id :: x in after && after[x] == users[x]
    ensures OthersKept(users, after, {id})
  {
  }

  lemma KeptMore(users: Table, after: Table, first: seq<int>, ids: seq<int>)
    requires OthersKept(users, after, Elements(ids))
    ensures OthersKept(users, after, Elements(first + ids))
  {
  }

  lemma LastOfPage(users: Table, ids: seq<int>, syncedBefore: Time, after: Cursor, limit: nat)
    requires ids != [] && IsPage(users, ids, syncedBefore, after, limit)
    ensures ids[|ids| - 1] in users
  {
  }

  /** Deletions among those left out are deletions among the listed. */
  lemma MissingAreListed(directory: Directory, omitted: set<int>, users: Table, after: Table, listed: seq<int>)
    ensures OthersKept(users, after, Elements(LeftOut(directory, omitted, listed))) ==>
              OthersKept(users, after, Elements(listed))
    ensures Unknown(directory, Elements(LeftOut(directory, omitted, listed))) == Unknown(directory, Elements(listed))
    ensures Elements(LeftOut(directory, omitted, listed)) + Answered(directory, omitted, listed) == Elements(listed)
  {
    LeftOutExactly(directory, omitted, listed);
  }

  /** The pages so far: who was left out, who was confirmed, and the rows still to come. */
  ghost predicate WalkedTo(directory: Directory, omitted: set<int>, was: Table, users: Table, listed: seq<int>,
                           missing: seq<int>, done: set<int>, settled: set<int>, syncedBefore: Time, after: Cursor)
  {
    && missing == LeftOut(directory, omitted, listed) && settled == done + Answered(directory, omitted, listed)
    && Unlisted(was, users, listed, syncedBefore, after)
  }

  lemma WalkBegins(directory: Directory, omitted: set<int>, users: Table, done: set<int>, syncedBefore: Time)
    requires forall id :: id in users ==> Less(Cursor(ZERO_TIME, 0), At(users[id]))
    ensures WalkedTo(directory, omitted, users, users, [], [], done, done, syncedBefore, Cursor(ZERO_TIME, 0))
  {
    NothingListed(users, syncedBefore);
    BatchStarts(directory, omitted, users, []);
  }

  lemma WalkNext(directory: Directory, omitted: set<int>, was: Table, users: Table, later: Table, listed: seq<int>,
                 ids: seq<int>, missing: seq<int>, missed: seq<int>, done: set<int>, settled: set<int>,
                 more: set<int>, syncedBefore: Time, before: Cursor, limit: nat)
    requires WalkedTo(directory, omitted, was, users, listed, missing, done, settled, syncedBefore, before)
    requires ids != [] && IsPage(users, ids, syncedBefore, before, limit) && OthersKept(users, later, Elements(ids))
    requires missed == missing + LeftOut(directory, omitted, ids) && more == settled + Answered(directory, omitted, ids)
    ensures ids[|ids| - 1] in users
    ensures WalkedTo(directory, omitted, was, later, listed + ids, missed, done, more, syncedBefore,
                     At(users[ids[|ids| - 1]]))
    ensures |ids| < limit ==> AllListed(was, later, listed + ids, syncedBefore)
  {
    LastOfPage(users, ids, syncedBefore, before, limit);
    hide Unlisted, AllListed, OthersKept, LeftOut, Answered, Elements, Less, At, IsPage;
    var after := At(users[ids[|ids| - 1]]);
    UnlistedStep(was, users, listed, ids, syncedBefore, before, after, limit);
    LeftOutJoins(directory, omitted, listed, ids);
    KeptMore(users, later, listed, ids);
    assert missing + LeftOut(directory, omitted, ids) == missed;
    assert done + (Answered(directory, omitted, listed) + Answered(directory, omitted, ids)) == more;
    UnlistedKept(was, users, later, listed + ids, syncedBefore, after);
  }

  lemma WalkEnds(directory: Directory, omitted: set<int>, was: Table, users: Table, listed: seq<int>,
                 missing: seq<int>, done: set<int>, settled: set<int>, syncedBefore: Time, after: Cursor, limit: nat)
    requires WalkedTo(directory, omitted, was, users, listed, missing, done, settled, syncedBefore, after)
    requires limit > 0 && IsPage(users, [], syncedBefore, after, limit)
    ensures AllListed(was, users, listed, syncedBefore)
    ensures after == Cursor(ZERO_TIME, 0) && (forall id :: id in users ==> Less(after, At(users[id]))) ==>
              NoneDue(users, syncedBefore)
  {
    UnlistedEnds(was, users, listed, syncedBefore, after, limit);
  }

  ghost predicate NoneDue(users: Table, syncedBefore: Time) {
    forall id :: id in users ==> !Due(users[id], syncedBefore)
  }

  /** The directory knows a user without a name, whom no lookup can confirm. */
  predicate Nameless(directory: Directory) {
    exists id | id in directory :: Blank(directory[id].username)
  }

  lemma NothingListed(users: Table, syncedBefore: Time)
    requires forall id :: id in users ==> Less(Cursor(ZERO_TIME, 0), At(users[id]))
    ensures Unlisted(users, users, [], syncedBefore, Cursor(ZERO_TIME, 0))
  {
  }

  // --- The cache and its jobs -----------------------------------------------------

  datatype Result = Result(confirmed: nat, deleted: nat, missing: nat, held: bool, failed: bool, interrupted: bool)

  class UserCache {
    const fold: string -> string
    const directory: Directory
    const fails: nat -> bool
    const deadline: Time
    var users: Table
    var clock: Time
    var calls: nat

    /** `fails` says which calls of a job to the database and the directory fail, in order,
        and `deadline` when its context ends. */
    constructor (fold: string -> string, directory: Directory, fails: nat -> bool, deadline: Time, users: Table,
                 clock: Time)
      ensures this.fold == fold && this.directory == directory && this.users == users && this.clock == clock
      ensures this.fails == fails && this.deadline == deadline && calls == 0
    {
      this.fold, this.directory, this.fails, this.deadline := fold, directory, fails, deadline;
      this.users, this.clock, calls := users, clock, 0;
    }

    method Call() returns (ok: bool)
      modifies this`calls
      ensures calls == old(calls) + 1 && (ok <==> !fails(old(calls)))
    {
      ok := !fails(calls);
      calls := calls + 1;
    }

    method Now() returns (t: Time)
      modifies this`clock
      ensures t == clock >= old(clock)
    {
      var passed :| passed >= 0;
      clock := clock + passed;
      return clock;
    }

    method RecordCNSProfile(p: Profile, locked: Option<bool>) returns (ok: bool)
      modifies this`users, this`clock
      ensures clock >= old(clock) && (ok <==> Usable(p))
      ensures users == RecordProfile(fold, old(users), p, locked, clock)
    {
      var now := Now();
      if !Usable(p) { return false; }
      var cur := if p.id in users then Some(users[p.id]) else None;
      if cur.Some? && cur.value.status == Deleted { return true; }
      var next := NextUserState(cur, p, locked, now);
      users := users[p.id := next];
      users := Demote(fold, users, next, now);
      return true;
    }

    /** Reports whether the row was newly deleted. */
    method MarkUserDeleted(id: int) returns (deleted: bool)
      modifies this`users, this`clock
      ensures clock >= old(clock)
      ensures deleted <==> id > 0 && !(id in old(users) && old(users)[id].status == Deleted)
      ensures users == if deleted
                       then old(users)[id := DeletedUserState(RowOf(old(users), id), id, clock)]
                       else old(users)
    {
      var now := Now();
      if id <= 0 { return false; }
      var cur := if id in users then Some(users[id]) else None;
      if cur.Some? && cur.value.status == Deleted { return false; }
      users := users[id := DeletedUserState(cur, id, now)];
      return true;
    }

    method Least(ids: set<int>) returns (least: int)
      requires ids != {}
      requires forall id :: id in ids ==> id in users && users[id].id == id
      ensures least in ids && forall id :: id in ids ==> AtMost(At(users[least]), At(users[id]))
    {
      least := Choose(ids);
      var rest := ids - {least};
      while rest != {}
        invariant least in ids && rest <= ids
        invariant forall id :: id in ids && id !in rest ==> AtMost(At(users[least]), At(users[id]))
        decreases rest
      {
        var id := Choose(rest);
        if Less(At(users[id]), At(users[least])) {
          least := id;
        }
        rest := rest - {id};
      }
    }

    /** Due rows after the cursor, least recently confirmed first, up to a limit. */
    method ListUsersToVerify(syncedBefore: Time, after: Cursor, limit: nat) returns (ids: seq<int>)
      requires limit > 0 && forall id :: id in users ==> users[id].id == id
      ensures IsPage(users, ids, syncedBefore, after, limit)
    {
      var due := set id | id in users && Due(users[id], syncedBefore) && Less(after, At(users[id]));
      ids := [];
      while |ids| < limit && due != {}
        invariant |ids| <= limit
        invariant forall id :: id in due ==>
                    id in users && id !in ids && Due(users[id], syncedBefore) && Less(after, At(users[id]))
        invariant forall i :: 0 <= i < |ids| ==>
                    ids[i] in users && Due(users[ids[i]], syncedBefore) && Less(after, At(users[ids[i]]))
        invariant forall i, j :: 0 <= i < j < |ids| ==> Less(At(users[ids[i]]), At(users[ids[j]]))
        invariant forall i, id :: 0 <= i < |ids| && id in due ==> Less(At(users[ids[i]]), At(users[id]))
        invariant forall id :: id in users && Due(users[id], syncedBefore) && Less(after, At(users[id])) ==>
            id in due || id in ids
        decreases limit - |ids|
      {
        var next := Least(due);
        ids := ids + [next];
        due := due - {next};
      }
    }

    /** Records the users one batch lookup returned; the others join the missing. */
    method ConfirmBatch(ids: seq<int>, missing: seq<int>, omitted: set<int>, syncedBefore: Time, ghost cursor: Cursor,
                        ghost was: Table, ghost done: set<int>)
      returns (confirmed: nat, missed: seq<int>, failed: bool, ghost settled: set<int>)
      requires UniqueNames(fold, directory) && syncedBefore <= clock
      requires Sound(directory, was, users, done, syncedBefore, clock)
      requires Pending(users, missing + ids, done, syncedBefore, cursor)
      modifies this
      ensures clock >= old(clock) && Sound(directory, was, users, settled, syncedBefore, clock)
      ensures done <= settled && |settled| == |done| + confirmed && Tombs(users) == Tombs(old(users))
      ensures !failed ==>
                && Pending(users, missed, settled, syncedBefore, cursor)
                && missed == missing + LeftOut(directory, omitted, ids) && confirmed + |missed| == |missing| + |ids|
                && settled == done + Answered(directory, omitted, ids)
      ensures OthersKept(old(users), users, Elements(ids))
      ensures calls >= old(calls) && (failed <==> Faulty(fails, old(calls), calls))
    {
      hide RecordProfile, Sound, Pending, UniqueNames, Tombs, BatchTo, OthersKept, LeftOut, Answered, Elements, Faulty;
      FaultyNext(fails, calls, calls);
      confirmed, missed, failed, settled := 0, missing, false, done;
      BatchBegins(directory, omitted, users, ids, missing, done);
      BatchEnds(directory, omitted, users, users, ids, 0, missing, missing, done, done);
      var start := clock;
      var at := Now();
      SoundLater(directory, was, users, settled, syncedBefore, start, at);
      var found := Call();
      if !found { return confirmed, missed, true, settled; }
      var k := 0;
      assert ids[0..] == ids;
      while k < |ids|
        invariant k <= |ids| && syncedBefore <= at <= clock && clock >= old(clock)
        invariant Sound(directory, was, users, settled, syncedBefore, at)
        invariant done <= settled && |settled| == |done| + confirmed && Tombs(users) == Tombs(old(users))
        invariant Pending(users, missed + ids[k..], settled, syncedBefore, cursor)
        invariant confirmed + |missed| == |missing| + k
        invariant BatchTo(directory, omitted, old(users), users, ids, k, missing, missed, done, settled)
        invariant calls >= old(calls) && !Faulty(fails, old(calls), calls)
      {
        var id := ids[k];
        ghost var waiting := missed + ids[k..];
        assert waiting[|missed|] == id;
        // The batch answer leaves unknown users out, and a fault may leave out others.
        if id in omitted || !Known(directory, id) {
          assert waiting == (missed + [id]) + ids[k + 1..];
          BatchSkips(directory, omitted, old(users), users, ids, k, missing, missed, done, settled);
          missed := missed + [id];
        } else {
          FaultyNext(fails, old(calls), calls);
          var stored := Call();
          if !stored {
            BatchEnds(directory, omitted, old(users), users, ids, k, missing, missed, done, settled);
            SoundLater(directory, was, users, settled, syncedBefore, at, clock);
            return confirmed, missed, true, settled;
          }
          ghost var before := users;
          var ok := RecordCNSProfile(FromDirectory(directory, id, at), None);
          ConfirmOne(fold, directory, was, before, settled, syncedBefore, cursor, waiting, |missed|, at, clock);
          RecordKeepsOthers(fold, before, FromDirectory(directory, id, at), None, clock);
          BatchConfirms(directory, omitted, old(users), before, users, ids, k, missing, missed, done, settled);
          assert missed + ids[k + 1..] == Without(waiting, |missed|);
          settled := settled + {id};
          confirmed := confirmed + 1;
        }
        k := k + 1;
      }
      assert missed + ids[k..] == missed;
      BatchEnds(directory, omitted, old(users), users, ids, k, missing, missed, done, settled);
      SoundLater(directory, was, users, settled, syncedBefore, at, clock);
    }

    /** Looks each missing user up alone: only a user the directory denies is deleted. */
    method DeleteMissing(missing: seq<int>, syncedBefore: Time, ghost cursor: Cursor, ghost was: Table,
                         ghost done: set<int>)
      returns (confirmed: nat, deleted: nat, failed: bool, ghost settled: set<int>)
      requires UniqueNames(fold, directory) && syncedBefore <= clock
      requires Sound(directory, was, users, done, syncedBefore, clock)
      requires Pending(users, missing, done, syncedBefore, cursor)
      modifies this
      ensures clock >= old(clock) && Sound(directory, was, users, settled, syncedBefore, clock)
      ensures done <= settled && |settled| == |done| + confirmed + deleted
      ensures deleted <= |missing| && (!failed ==> confirmed + deleted == |missing|)
      ensures |Tombs(users)| == |Tombs(old(users))| + deleted
      ensures missing == [] ==> users == old(users)
      ensures !failed ==>
                && settled == done + Elements(missing)
                && Tombs(users) == Tombs(old(users)) + Unknown(directory, Elements(missing))
      ensures OthersKept(old(users), users, Elements(missing))
      ensures calls >= old(calls) && (!failed ==> !Faulty(fails, old(calls), calls))
      ensures failed ==> Faulty(fails, old(calls), calls) || Nameless(directory)
    {
      hide RecordProfile, Sound, Pending, UniqueNames, Tombs, DeletedTo, OthersKept, Elements, Unknown, Faulty;
      hide DeletedUserState, Blank, Without;
      FaultyNext(fails, calls, calls);
      confirmed, deleted, failed, settled := 0, 0, false, done;
      var k := 0;
      assert missing[0..] == missing;
      DeletedNone(directory, users, missing, done);
      while k < |missing|
        invariant k <= |missing| && clock >= old(clock) && syncedBefore <= clock
        invariant Sound(directory, was, users, settled, syncedBefore, clock)
        invariant done <= settled && |settled| == |done| + k && confirmed + deleted == k
        invariant Pending(users, missing[k..], settled, syncedBefore, cursor)
        invariant |Tombs(users)| == |Tombs(old(users))| + deleted
        invariant k == 0 ==> users == old(users)
        invariant DeletedTo(directory, old(users), users, missing, k, done, settled)
        invariant calls >= old(calls) && !Faulty(fails, old(calls), calls)
      {
        var id := missing[k];
        ghost var waiting := missing[k..];
        assert waiting[0] == id;
        var start := clock;
        var at := Now();
        SoundLater(directory, was, users, settled, syncedBefore, start, at);
        DeletedEnds(directory, old(users), users, missing, k, done, settled);
        FaultyNext(fails, old(calls), calls);
        var answered := Call();
        if !answered { return confirmed, deleted, true, settled; }
        ghost var before := users;
        if id !in directory {
          var gone := MarkUserDeleted(id);
          SoundLater(directory, was, before, settled, syncedBefore, at, clock);
          DeleteOne(directory, was, before, settled, syncedBefore, cursor, waiting, 0, clock);
          DeleteKeepsOthers(before, users, id);
          deleted := deleted + if gone then 1 else 0;
        } else if Blank(directory[id].username) {
          return confirmed, deleted, true, settled;
        } else {
          var ok := RecordCNSProfile(FromDirectory(directory, id, at), None);
          ConfirmOne(fold, directory, was, before, settled, syncedBefore, cursor, waiting, 0, at, clock);
          RecordKeepsOthers(fold, before, FromDirectory(directory, id, at), None, clock);
          SoundLater(directory, was, users, settled + {id}, syncedBefore, at, clock);
          confirmed := confirmed + 1;
        }
        WithoutFirst(missing, k);
        DeletedNext(directory, old(users), before, users, missing, k, done, settled);
        settled := settled + {id};
        k := k + 1;
      }
      DeletedEnds(directory, old(users), users, missing, k, done, settled);
    }

    /** Walks the due rows batch by batch. `interrupted` when the context ran out. */
    method ConfirmDue(syncedBefore: Time, omitted: set<int>, ghost was: Table, ghost done: set<int>)
      returns (confirmed: nat, missing: seq<int>, failed: bool, interrupted: bool, ghost cursor: Cursor,
               ghost settled: set<int>, ghost listed: seq<int>)
      requires UniqueNames(fold, directory) && syncedBefore <= clock
      requires Sound(directory, was, users, done, syncedBefore, clock)
      modifies this
      ensures clock >= old(clock) && Sound(directory, was, users, settled, syncedBefore, clock)
      ensures done <= settled && |settled| == |done| + confirmed && Tombs(users) == Tombs(old(users))
      ensures !failed ==>
                && Pending(users, missing, settled, syncedBefore, cursor)
                && WalkedTo(directory, omitted, old(users), users, listed, missing, done, settled, syncedBefore, cursor)
                && (interrupted || |listed| == 2000 || AllListed(old(users), users, listed, syncedBefore))
      ensures !failed && !interrupted && confirmed + |missing| == 0 ==>
                NoneDue(users, syncedBefore)
      ensures calls >= old(calls) && (failed <==> Faulty(fails, old(calls), calls))
      ensures interrupted ==> clock > deadline
    {
      hide Sound, Pending, UniqueNames, Due, Less, At, Tombs, WalkedTo, AllListed, OthersKept, Elements, LeftOut;
      hide Answered, IsPage, NoneDue, Faulty;
      FaultyNext(fails, calls, calls);
      confirmed, missing, failed, interrupted, settled, listed := 0, [], false, false, done, [];
      var after := Cursor(ZERO_TIME, 0);
      ListedAll(directory, was, users, settled, syncedBefore, clock);
      WalkBegins(directory, omitted, users, done, syncedBefore);
      var batch := 0;
      PendingNone(users, settled, syncedBefore, after);
      while batch < MAX_BATCHES
        invariant clock >= old(clock) && Sound(directory, was, users, settled, syncedBefore, clock)
        invariant done <= settled && |settled| == |done| + confirmed && Tombs(users) == Tombs(old(users))
        invariant Pending(users, missing, settled, syncedBefore, after)
        invariant if batch == 0 then after == Cursor(ZERO_TIME, 0) else confirmed + |missing| > 0
        invariant WalkedTo(directory, omitted, old(users), users, listed, missing, done, settled, syncedBefore, after)
        invariant batch <= MAX_BATCHES && |listed| == batch * BATCH_MAX
        invariant calls >= old(calls) && !Faulty(fails, old(calls), calls)
        decreases MAX_BATCHES - batch
      {
        if clock > deadline { return confirmed, missing, false, true, after, settled, listed; }
        FaultyNext(fails, old(calls), calls);
        var queried := Call();
        if !queried { return confirmed, missing, true, false, after, settled, listed; }
        ListedAll(directory, was, users, settled, syncedBefore, clock);
        var ids := ListUsersToVerify(syncedBefore, after, BATCH_MAX);
        if |ids| == 0 {
          WalkEnds(directory, omitted, old(users), users, listed, missing, done, settled, syncedBefore, after,
                   BATCH_MAX);
          break;
        }
        ghost var before, rows, lost, known := after, users, missing, settled;
        PendingJoins(directory, was, users, missing, ids, settled, syncedBefore, clock, before, BATCH_MAX);
        after := At(users[ids[|ids| - 1]]);
        var found;
        FaultyJoins(fails, old(calls), calls);
        found, missing, failed, settled := ConfirmBatch(ids, missing, omitted, syncedBefore, after, was, settled);
        confirmed := confirmed + found;
        batch := batch + 1;
        if failed { return confirmed, missing, true, false, after, settled, listed; }
        WalkNext(directory, omitted, old(users), rows, users, listed, ids, lost, missing, done, known, settled,
                 syncedBefore, before, BATCH_MAX);
        listed := listed + ids;
        if |ids| < BATCH_MAX { break; }
      }
      cursor := after;
    }

    /** One pass. `done` is what the run has confirmed or deleted before, and `settled`
        after; `was` is the table the run started from, `listed` what the pass looked up, and
        `omitted` whom a fault leaves out of the batch answers. A pass holds back all its
        deletions when there would be more than allowed. */
    method VerifyWithDirectory(syncedBefore: Time, maxDeletions: int, omitted: set<int>, ghost was: Table,
                               ghost done: set<int>)
      returns (result: Result, ghost settled: set<int>, ghost listed: seq<int>)
      requires UniqueNames(fold, directory) && syncedBefore <= clock
      requires Sound(directory, was, users, done, syncedBefore, clock)
      modifies this
      ensures clock >= old(clock) && Sound(directory, was, users, settled, syncedBefore, clock)
      ensures done <= settled && |settled| == |done| + result.confirmed + result.deleted
      ensures |Tombs(users)| == |Tombs(old(users))| + result.deleted
      ensures maxDeletions >= 0 ==> result.deleted <= maxDeletions
      ensures !result.failed ==>
                && result.missing == |LeftOut(directory, omitted, listed)|
                && (result.held <==> 0 <= maxDeletions < result.missing)
                && (result.interrupted || |listed| == 2000 || AllListed(old(users), users, listed, syncedBefore))
      ensures result.held ==>
                !result.failed && Tombs(users) == Tombs(old(users))
                && settled == done + Answered(directory, omitted, listed)
      ensures !result.held && !result.failed ==>
                && settled == done + Elements(listed)
                && Tombs(users) == Tombs(old(users)) + Unknown(directory, Elements(listed))
      ensures !result.held && !result.failed && !result.interrupted && result.confirmed + result.deleted == 0 ==>
                NoneDue(users, syncedBefore)
      ensures calls >= old(calls) && (!result.failed ==> !Faulty(fails, old(calls), calls))
      ensures result.failed ==> Faulty(fails, old(calls), calls) || Nameless(directory)
      ensures result.interrupted ==> clock > deadline
    {
      hide Sound, Pending, UniqueNames, Due, Less, At, Tombs, AllListed, OthersKept, Elements, LeftOut, Answered;
      hide Unknown, NoneDue, Unlisted, Faulty, Nameless;
      var confirmed, missing, failed, interrupted;
      ghost var cursor;
      confirmed, missing, failed, interrupted, cursor, settled, listed := ConfirmDue(syncedBefore, omitted, was, done);
      if failed {
        return Result(confirmed, 0, 0, false, true, false), settled, listed;
      }
      if maxDeletions >= 0 && |missing| > maxDeletions {
        return Result(confirmed, 0, |missing|, true, false, interrupted), settled, listed;
      }
      ghost var rows := users;
      FaultyJoins(fails, old(calls), calls);
      var alone, deleted;
      alone, deleted, failed, settled := DeleteMissing(missing, syncedBefore, cursor, was, settled);
      MissingAreListed(directory, omitted, rows, users, listed);
      UnlistedKept(old(users), rows, users, listed, syncedBefore, cursor);
      result := Result(confirmed + alone, deleted, |missing|, false, failed, interrupted);
    }

    /** sync-users: passes until one makes no progress. Each pass that continues
        settles rows that stay settled, so the run ends although demotion puts rows
        back in the queue; the allowance left never turns into "no limit". */
    method SyncUsers(syncedBefore: Time, maxDeletions: int)
      returns (confirmed: nat, deleted: nat, last: Result, ghost done: set<int>)
      requires UniqueNames(fold, directory) && syncedBefore <= clock && RowsSound(users, clock)
      modifies this
      ensures users.Keys == old(users).Keys && confirmed + deleted <= |users|
      ensures |Tombs(users)| == |Tombs(old(users))| + deleted
      ensures maxDeletions >= 0 ==> deleted <= maxDeletions
      ensures forall id :: id in Tombs(users) && id !in Tombs(old(users)) ==> id !in directory
      ensures |done| == confirmed + deleted
      ensures forall id :: id in done ==> id in users && Settled(directory, id, users[id], syncedBefore)
      ensures last.held ==> 0 <= maxDeletions - deleted < last.missing
      ensures !last.held && !last.failed && !last.interrupted ==> NoneDue(users, syncedBefore)
      ensures last.failed ==> Faulty(fails, old(calls), calls) || Nameless(directory)
      ensures last.interrupted ==> clock > deadline
    {
      hide UniqueNames, Tombs, NoneDue, Settled, Faulty, Nameless;
      confirmed, deleted, done := 0, 0, {};
      var allowance := maxDeletions;
      ghost var was := users;
      RunStarts(directory, users, syncedBefore, clock);
      hide Sound;
      while true
        invariant clock >= old(clock) && Sound(directory, was, users, done, syncedBefore, clock)
        invariant |done| == confirmed + deleted <= |was|
        invariant |Tombs(users)| == |Tombs(was)| + deleted
        invariant calls >= old(calls)
        invariant if maxDeletions >= 0 then allowance == maxDeletions - deleted >= 0 else allowance == maxDeletions
        decreases |was| - |done|
      {
        var omitted: set<int> := *;
        FaultyJoins(fails, old(calls), calls);
        ghost var listed;
        last, done, listed := VerifyWithDirectory(syncedBefore, allowance, omitted, was, done);
        RunKeeps(directory, was, users, done, syncedBefore, clock);
        SettledNow(directory, was, users, done, syncedBefore, clock);
        confirmed, deleted := confirmed + last.confirmed, deleted + last.deleted;
        if last.held || last.failed || last.confirmed + last.deleted == 0 { break; }
        if allowance >= 0 { allowance := allowance - last.deleted; }
      }
    }
  }
}
