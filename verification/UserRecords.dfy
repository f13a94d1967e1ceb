/** One row of the local CNS user cache and what an observation makes of it. */
module UserRecords {
  import opened Prelude

  type Time = int

  datatype Status = Active | Inactive | Deleted

  datatype Reason = Locked | Stale

  datatype User = User(
    id: int,
    username: string,
    avatar: Option<string>,
    status: Status,
    inactiveReason: Option<Reason>,
    lastSynced: Time,
    profileObserved: Option<Time>,
    deactivated: Option<Time>,
    deleted: Option<Time>)

  /** What CNS said about a user; `observed` is None for a zero time. */
  datatype Profile = Profile(id: int, username: string, avatarURL: string, observed: Option<Time>)

  predicate Blank(s: string) {
    forall c :: c in s ==> c in {' ', '\t', '\n', '\r'}
  }

  predicate Usable(p: Profile) {
    p.id > 0 && !Blank(p.username)
  }

  function AvatarOf(p: Profile): Option<string> {
    if p.avatarURL == "" then None else Some(p.avatarURL)
  }

  /** The confirmed time: a clock ahead of ours does not get to confirm the future. */
  function ConfirmedAt(p: Profile, now: Time): Time {
    if p.observed.None? || p.observed.value > now then now else p.observed.value
  }

  /** `cur` (None for a user not seen before) after taking in a profile; `locked` is
      the account state when the source reports one. */
  function NextUserState(cur: Option<User>, p: Profile, locked: Option<bool>, now: Time): User {
    var at := ConfirmedAt(p, now);
    var base := if cur.Some? then cur.value else User(p.id, "", None, Active, None, at, None, None, None);
    var named :=
      if base.profileObserved.None? || at >= base.profileObserved.value
      then base.(username := p.username, avatar := AvatarOf(p), profileObserved := Some(at))
      else base;
    var newer := cur.None? || at > cur.value.lastSynced;
    var synced := if newer then named.(lastSynced := at) else named;
    var judged :=
      match locked
      case Some(true) => synced.(status := Inactive, inactiveReason := Some(Locked))
      case Some(false) => synced.(status := Active)
      case None =>
        if synced.status == Inactive && synced.inactiveReason == Some(Stale) && newer
        then synced.(status := Active) else synced;
    if judged.status == Active then judged.(inactiveReason := None, deactivated := None)
    else if judged.deactivated.None? then judged.(deactivated := Some(now))
    else judged
  }

  /** A tombstone with the profile erased. */
  function DeletedUserState(cur: Option<User>, id: int, now: Time): User {
    User(id, "", None, Deleted, None,
         if cur.Some? then cur.value.lastSynced else now,
         None,
         if cur.Some? && cur.value.deactivated.Some? then cur.value.deactivated else Some(now),
         Some(now))
  }

  // --- One user's history -----------------------------------------------------

  datatype Observation = Seen(profile: Profile, locked: Option<bool>, at: Time) | Gone(at: Time)

  /** recordProfile and markDeleted on the row of one user. */
  function Observe(id: int, row: Option<User>, o: Observation): Option<User> {
    match o
    case Seen(profile, locked, at) =>
      if !Usable(profile) || profile.id != id || (row.Some? && row.value.status == Deleted) then row
      else Some(NextUserState(row, profile, locked, at))
    case Gone(at) =>
      if id <= 0 || (row.Some? && row.value.status == Deleted) then row else Some(DeletedUserState(row, id, at))
  }

  function Fold(id: int, history: seq<Observation>): Option<User> {
    if history == [] then None
    else Observe(id, Fold(id, history[..|history| - 1]), history[|history| - 1])
  }

  /** Observations of this user that are not from the future. */
  predicate Timely(id: int, history: seq<Observation>) {
    forall o :: o in history && o.Seen? ==>
      Usable(o.profile) && o.profile.id == id && o.profile.observed.Some? && o.profile.observed.value <= o.at
  }

  function Profiles(history: seq<Observation>): set<Profile> {
    set o | o in history && o.Seen? :: o.profile
  }

  /** The time of an observation identifies the profile. */
  predicate Consistent(profiles: set<Profile>) {
    forall p, q :: p in profiles && q in profiles && p.observed == q.observed ==>
      p.username == q.username && p.avatarURL == q.avatarURL
  }

  predicate Shows(u: User, p: Profile) {
    u.username == p.username && u.avatar == AvatarOf(p) && u.profileObserved == p.observed
    && p.observed == Some(u.lastSynced)
  }

  predicate LatestOf(p: Profile, profiles: set<Profile>) {
    p in profiles && p.observed.Some?
    && forall q :: q in profiles && q.observed.Some? ==> q.observed.value <= p.observed.value
  }

  /** What a profile does to the row's fields, also one that comes late or from the future:
      its time is at most now, and its name and avatar are shown unless the row's are newer. */
  lemma NameFollows(row: Option<User>, p: Profile, locked: Option<bool>, now: Time)
    ensures
      var next, at := NextUserState(row, p, locked, now), if p.observed.Some? then Min(p.observed.value, now) else now;
      var shown := row.None? || row.value.profileObserved.None? || row.value.profileObserved.value <= at;
      && next.username == (if shown then p.username else row.value.username)
      && next.avatar == (if !shown then row.value.avatar else if p.avatarURL == "" then None else Some(p.avatarURL))
      && next.profileObserved == (if shown then Some(at) else row.value.profileObserved)
      && next.lastSynced == if row.None? then at else Max(row.value.lastSynced, at)
  {
  }

  /** Of two observations the row shows the later; at equal times they agree. */
  lemma ShowsLater(row: Option<User>, shown: Profile, o: Profile, locked: Option<bool>, now: Time)
    requires o.observed.Some? && o.observed.value <= now
    requires row.Some? ==> shown.observed.Some? && Shows(row.value, shown)
    requires row.Some? && shown.observed == o.observed ==>
        shown.username == o.username && shown.avatarURL == o.avatarURL
    ensures Shows(NextUserState(row, o, locked, now),
                  if row.Some? && shown.observed.value > o.observed.value then shown else o)
    ensures (row.Some? ==> row.value.status != Deleted) ==> NextUserState(row, o, locked, now).status != Deleted
  {
  }

  lemma {:induction false} FoldShowsLatest(id: int, history: seq<Observation>) returns (p: Profile)
    requires history != [] && Timely(id, history) && Consistent(Profiles(history))
    requires forall o :: o in history ==> o.Seen?
    ensures Fold(id, history).Some? && Fold(id, history).value.status != Deleted
    ensures LatestOf(p, Profiles(history)) && Shows(Fold(id, history).value, p)
  {
    hide NextUserState, Shows, Blank;
    var before, o := history[..|history| - 1], history[|history| - 1];
    assert history == before + [o];
    assert Profiles(history) == Profiles(before) + {o.profile};
    if before == [] {
      p := o.profile;
      ShowsLater(None, p, p, o.locked, o.at);
    } else {
      var q := FoldShowsLatest(id, before);
      p := if q.observed.value > o.profile.observed.value then q else o.profile;
      ShowsLater(Fold(id, before), q, o.profile, o.locked, o.at);
    }
  }

  /** Whatever order observations arrive in, and however often, rows that took in
      the same profiles show the same name, avatar, profile and sync time. Account
      locks and the times of receipt do not matter. */
  lemma CacheConverges(id: int, first: seq<Observation>, second: seq<Observation>)
    requires first != [] && second != []
    requires Timely(id, first) && Timely(id, second)
    requires forall o :: o in first + second ==> o.Seen?
    requires Profiles(first) == Profiles(second) && Consistent(Profiles(first))
    ensures Fold(id, first).Some? && Fold(id, second).Some?
    ensures
      var u, v := Fold(id, first).value, Fold(id, second).value;
      && u.username == v.username && u.avatar == v.avatar
      && u.profileObserved == v.profileObserved && u.lastSynced == v.lastSynced
  {
    assert forall o :: o in first || o in second ==> o in first + second;
    var p := FoldShowsLatest(id, first);
    var q := FoldShowsLatest(id, second);
  }

  predicate Erased(u: User) {
    u.status == Deleted && u.username == "" && u.avatar.None? && u.profileObserved.None?
    && u.inactiveReason.None? && u.deleted.Some?
  }

  /** Deletion is final: a history that contains one, anywhere, ends erased, and
      one that does not never does. */
  lemma {:induction false} DeletionIsFinal(id: int, history: seq<Observation>)
    requires id > 0
    ensures (exists o :: o in history && o.Gone?)
        <==> (Fold(id, history).Some? && Fold(id, history).value.status == Deleted)
    ensures Fold(id, history).Some? && Fold(id, history).value.status == Deleted ==> Erased(Fold(id, history).value)
  {
    if history != [] {
      var before, o := history[..|history| - 1], history[|history| - 1];
      DeletionIsFinal(id, before);
      assert history == before + [o];
    }
  }

  /** Only the user's own profile unlocks: sources that do not report the account
      state leave a locked row locked. */
  lemma {:induction false} LockedStaysLocked(id: int, history: seq<Observation>, more: seq<Observation>)
    requires
      var row := Fold(id, history);
      row.Some? && row.value.status == Inactive && row.value.inactiveReason == Some(Locked)
    requires forall o :: o in more ==> o.Seen? && o.locked.None?
    ensures
      var row := Fold(id, history + more);
      row.Some? && row.value.status == Inactive && row.value.inactiveReason == Some(Locked)
  {
    if more == [] {
      assert history + more == history;
    } else {
      var init, o := more[..|more| - 1], more[|more| - 1];
      assert (history + more)[..|history + more| - 1] == history + init;
      assert o in more;
      LockedStaysLocked(id, history, init);
    }
  }

  /** An observation is taken in exactly when it names this user and the row is not a
      tombstone: a profile with a positive id and a name that is not all space, or a deletion. */
  lemma TakesInExactly(id: int, row: Option<User>, o: Observation)
    ensures
      var next := Observe(id, row, o);
      var standing := row.None? || row.value.status != Deleted;
      var named := o.Seen? && o.profile.id == id && id > 0
                   && exists i | 0 <= i < |o.profile.username| :: o.profile.username[i] !in {' ', '\t', '\n', '\r'};
      && (!standing || (o.Seen? && !named) || (o.Gone? && id <= 0) ==> next == row)
      && (standing && named ==>
            next.Some? && next.value.status != Deleted && next.value.id == if row.Some? then row.value.id else id)
      && (standing && o.Gone? && id > 0 ==>
            && next.Some? && Erased(next.value) && next.value.id == id
            && next.value.deleted == Some(o.at)
            && next.value.lastSynced == (if row.Some? then row.value.lastSynced else o.at)
            && next.value.deactivated == if row.Some? && row.value.deactivated.Some? then row.value.deactivated
                                         else Some(o.at))
  {
    if o.Seen? {
      var name := o.profile.username;
      assert forall i | 0 <= i < |name| :: name[i] in name;
      assert (exists i | 0 <= i < |name| :: name[i] !in {' ', '\t', '\n', '\r'}) <==> !Blank(name);
    }
  }

  /** An active row has no reason and no time of deactivation; any other has one. */
  predicate Coherent(u: User) {
    if u.status == Active then u.inactiveReason.None? && u.deactivated.None? else u.deactivated.Some?
  }

  lemma {:induction false} RowsAreCoherent(id: int, history: seq<Observation>)
    ensures Fold(id, history).Some? ==> Coherent(Fold(id, history).value)
  {
    if history != [] {
      RowsAreCoherent(id, history[..|history| - 1]);
    }
  }

  /** Who is active after a profile: the source that knows about locks decides, and
      without one only a stale row comes back, by a confirmation newer than its last. */
  lemma StatusAfterProfile(u: User, p: Profile, locked: Option<bool>, now: Time)
    requires Coherent(u) && u.status != Deleted
    ensures
      var next := NextUserState(Some(u), p, locked, now);
      && (next.status == Active <==>
            locked == Some(false)
            || (locked.None? && (u.status == Active
                                 || (u.inactiveReason == Some(Stale) && ConfirmedAt(p, now) > u.lastSynced))))
      && (next.status != Active ==>
          next.inactiveReason == if locked == Some(true) then Some(Locked) else u.inactiveReason)
      && (next.status != Active ==>
            next.deactivated == if u.status == Active then Some(now) else u.deactivated)
  {
  }

  /** What the latest source that knows about locks says, if there was one. */
  function LastLock(id: int, history: seq<Observation>): Option<bool> {
    if history == [] then None
    else
      var o := history[|history| - 1];
      if o.Seen? && Usable(o.profile) && o.profile.id == id && o.locked.Some? then o.locked
      else LastLock(id, history[..|history| - 1])
  }

  /** Who is active, from the history alone: everyone but those whom the latest source that
      knows about locks calls locked. */
  lemma {:induction false} ActiveExactly(id: int, history: seq<Observation>)
    requires forall o | o in history :: o.Seen?
    ensures Fold(id, history).None? ==> LastLock(id, history).None?
    ensures
      var row := Fold(id, history);
      row.Some? ==>
        && (row.value.status == Active <==> LastLock(id, history) != Some(true))
        && row.value.status != Deleted
        && (row.value.status == Inactive ==> row.value.inactiveReason == Some(Locked))
  {
    if history != [] {
      var before, o := history[..|history| - 1], history[|history| - 1];
      ActiveExactly(id, before);
      RowsAreCoherent(id, before);
      if Fold(id, before).Some? {
        StatusAfterProfile(Fold(id, before).value, o.profile, o.locked, o.at);
        NeverDeleted(Fold(id, before).value, o.profile, o.locked, o.at);
        hide NextUserState;
      }
    }
  }

  lemma NeverDeleted(u: User, p: Profile, locked: Option<bool>, now: Time)
    requires u.status != Deleted
    ensures NextUserState(Some(u), p, locked, now).status != Deleted
  {
  }
}
