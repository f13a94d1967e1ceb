/** One refresh token redeemed on behalf of all replicas: a caller's transaction fixes
    its NOW() when it begins, then waits for the token's lock. */
module SharedRefresh {
  import opened Prelude

  type CallerId = nat

  /** The row of token_refresh_results. */
  datatype Stored = Stored(sealed: string, expiresAt: int)

  /** A redemption of the token: the begin of the caller's transaction, and whether its
      result was stored for the others. */
  datatype Redemption = Redemption(begin: int, kept: bool)

  /** `begun` are callers waiting for the lock, with their transactions' NOW(). The last
      fields observe the run: the latest redemption, the latest one that was stored with
      its result, and when a purge removed that. */
  datatype Token = Token(
    stored: Option<Stored>,
    begun: map<CallerId, int>,
    holder: Option<CallerId>,
    holderBegin: int,
    latest: Option<Redemption>,
    keptResult: string,
    keptBegin: Option<int>,
    purgedAt: Option<int>,
    now: int)

  /** The lock's holder redeems and stores (`Commit`), redeems and fails to store
      (`Lose`), or fails to redeem (`Fail`). A caller whose store fails before it has an
      answer redeems without it (`Alone`). */
  datatype Event =
    | Begin(caller: CallerId)
    | Enter(caller: CallerId)
    | Commit(result: string)
    | Lose
    | Fail
    | Alone(caller: CallerId)
    | PurgeResults
    | Tick(passed: nat)

  const TTL: nat := 10
  const TIMEOUT: nat := 5

  predicate MayEnter(t: Token, c: CallerId) {
    c in t.begun && t.holder.None?
  }

  /** The stored result the caller gets, if it has not expired by the caller's NOW(). */
  function Cached(t: Token, c: CallerId): Option<string>
    requires c in t.begun
  {
    if t.stored.Some? && t.stored.value.expiresAt > t.begun[c] then Some(t.stored.value.sealed) else None
  }

  predicate Redeems(t: Token, c: CallerId) {
    MayEnter(t, c) && Cached(t, c).None?
  }

  function Apply(t: Token, e: Event, ttl: nat): Token {
    match e
    case Begin(c) => if c in t.begun || t.holder == Some(c) then t else t.(begun := t.begun[c := t.now])
    case Enter(c) =>
      if !MayEnter(t, c) then t
      else if Cached(t, c).Some? then t.(begun := t.begun - {c})
      else t.(begun := t.begun - {c}, holder := Some(c), holderBegin := t.begun[c])
    case Commit(result) =>
      if t.holder.None? then t
      else
        t.(stored := Some(Stored(result, t.holderBegin + ttl)), holder := None,
           latest := Some(Redemption(t.holderBegin, true)), keptResult := result,
           keptBegin := Some(t.holderBegin), purgedAt := None)
    case Lose =>
      if t.holder.None? then t else t.(holder := None, latest := Some(Redemption(t.holderBegin, false)))
    case Fail => t.(holder := None)
    case Alone(c) =>
      if c !in t.begun then t
      else t.(begun := t.begun - {c}, latest := Some(Redemption(t.begun[c], false)))
    case PurgeResults =>
      if t.stored.Some? && t.stored.value.expiresAt < t.now then t.(stored := None, purgedAt := Some(t.now)) else t
    case Tick(passed) => t.(now := t.now + passed)
  }

  function Run(t: Token, events: seq<Event>, ttl: nat): Token {
    if events == [] then t else Apply(Run(t, events[..|events| - 1], ttl), events[|events| - 1], ttl)
  }

  function Fresh(now: int): Token {
    Token(None, map[], None, now, None, "", None, None, now)
  }

  class RefreshStore {
    var stored: Option<Stored>
    var begun: map<CallerId, int>
    var holder: Option<CallerId>
    var holderBegin: int
    var now: int
    ghost var latest: Option<Redemption>
    ghost var keptResult: string
    ghost var keptBegin: Option<int>
    ghost var purgedAt: Option<int>

    ghost function State(): Token
      reads this
    {
      Token(stored, begun, holder, holderBegin, latest, keptResult, keptBegin, purgedAt, now)
    }

    /** Takes the lock and looks for a stored result; without one the lock is kept for
        the redemption. */
    method Look(c: CallerId, ttl: nat) returns (sealed: Option<string>)
      requires MayEnter(State(), c)
      modifies this
      ensures State() == Apply(old(State()), Enter(c), ttl)
      ensures sealed == Cached(old(State()), c) && (sealed.None? <==> Redeems(old(State()), c))
    {
      var before := holderBegin;
      holder, holderBegin, begun := Some(c), begun[c], begun - {c};
      if stored.Some? && stored.value.expiresAt > holderBegin {
        holder, holderBegin := None, before;
        return Some(stored.value.sealed);
      }
      return None;
    }

    /** Stores a redemption; it expires ttl after its transaction began. */
    method Keep(result: string, ttl: nat)
      requires holder.Some?
      modifies this
      ensures State() == Apply(old(State()), Commit(result), ttl)
    {
      stored := Some(Stored(result, holderBegin + ttl));
      latest, keptResult, keptBegin := Some(Redemption(holderBegin, true)), result, Some(holderBegin);
      holder, purgedAt := None, None;
    }
  }

  /** What every event changes: who waits since when, who holds the lock, what is stored,
      and what the latest redemption was. */
  lemma TokenChangesExactly(t: Token, e: Event, ttl: nat, c: CallerId)
    ensures
      var u := Apply(t, e, ttl);
      var held := t.holder.Some?;
      var enters := e == Enter(c) && c in t.begun && !held;
      var misses := enters && (t.stored.None? || t.stored.value.expiresAt <= t.begun[c]);
      && (c in u.begun <==>
            (c in t.begun && !enters && e != Alone(c)) || (e == Begin(c) && c !in t.begun && t.holder != Some(c)))
      && (c in u.begun ==> u.begun[c] == if c in t.begun then t.begun[c] else t.now)
      && (u.holder == Some(c) <==> misses || (t.holder == Some(c) && !e.Commit? && e != Lose && e != Fail))
      && (misses ==> u.holderBegin == t.begun[c])
      && (!e.Enter? ==> u.holderBegin == t.holderBegin)
      && u.stored == (if e.Commit? && held then Some(Stored(e.result, t.holderBegin + ttl))
                      else if e == PurgeResults && t.stored.Some? && t.stored.value.expiresAt < t.now then None
                      else t.stored)
      && (e == Alone(c) ==>
            u.latest == if c in t.begun then Some(Redemption(t.begun[c], false)) else t.latest)
      && (!e.Alone? ==>
            u.latest == if held && (e.Commit? || e == Lose) then Some(Redemption(t.holderBegin, e.Commit?))
                        else t.latest)
      && u.now == t.now + if e.Tick? then e.passed else 0
  {
  }

  predicate Inv(t: Token, ttl: nat) {
    && (t.stored.Some? ==>
          t.keptBegin.Some? && t.purgedAt.None? && t.stored.value == Stored(t.keptResult, t.keptBegin.value + ttl))
    && (t.stored.None? && t.keptBegin.Some? ==>
          t.purgedAt.Some? && t.keptBegin.value + ttl < t.purgedAt.value <= t.now)
    && (t.keptBegin.None? ==> t.purgedAt.None?)
    && (t.latest.Some? && t.latest.value.kept ==> t.keptBegin == Some(t.latest.value.begin))
    && (t.latest.None? ==> t.keptBegin.None?)
    && (forall c | c in t.begun :: t.begun[c] <= t.now)
  }

  lemma StepInv(t: Token, e: Event, ttl: nat)
    requires Inv(t, ttl)
    ensures Inv(Apply(t, e, ttl), ttl)
  {
  }

  lemma {:induction false} RunInv(now: int, events: seq<Event>, ttl: nat)
    ensures Inv(Run(Fresh(now), events, ttl), ttl)
  {
    hide Apply;
    if events != [] {
      RunInv(now, events[..|events| - 1], ttl);
      StepInv(Run(Fresh(now), events[..|events| - 1], ttl), events[|events| - 1], ttl);
    }
  }

  /** A stored result is fresh for the caller: not purged, and begun within ttl of it. */
  predicate FreshFor(t: Token, c: CallerId, ttl: nat) {
    t.keptBegin.Some? && t.purgedAt.None? && c in t.begun && t.begun[c] < t.keptBegin.value + ttl
  }

  /** Who redeems: exactly the callers for whom no stored result is fresh. The others get
      the latest stored result. A purge only takes it from callers that waited while it ran. */
  lemma RedeemsExactly(now: int, events: seq<Event>, ttl: nat, c: CallerId)
    requires MayEnter(Run(Fresh(now), events, ttl), c)
    ensures
      var t := Run(Fresh(now), events, ttl);
      && (Redeems(t, c) <==> !FreshFor(t, c, ttl))
      && (!Redeems(t, c) ==> Cached(t, c) == Some(t.keptResult))
      && (t.purgedAt.Some? && t.keptBegin.Some? && t.begun[c] < t.keptBegin.value + ttl ==>
          t.begun[c] < t.purgedAt.value)
  {
    RunInv(now, events, ttl);
    hide Run;
  }

  /** The token is redeemed again by a caller that began within ttl of the latest redemption
      exactly when that one's result was purged meanwhile, or was never stored and no
      older stored result is fresh for the caller. */
  lemma TooEarlyExactly(now: int, events: seq<Event>, ttl: nat, c: CallerId)
    requires
      var t := Run(Fresh(now), events, ttl);
      MayEnter(t, c) && t.latest.Some? && t.begun[c] < t.latest.value.begin + ttl
    ensures
      var t := Run(Fresh(now), events, ttl);
      Redeems(t, c) <==> if t.latest.value.kept then t.purgedAt.Some? else !FreshFor(t, c, ttl)
  {
    RunInv(now, events, ttl);
    hide Run;
  }

  /** Every redemption is stored, and no purge runs. */
  predicate Undisturbed(events: seq<Event>) {
    forall e | e in events :: e != PurgeResults && e != Lose && !e.Alone?
  }

  lemma UndisturbedBefore(events: seq<Event>)
    requires Undisturbed(events) && events != []
    ensures Undisturbed(events[..|events| - 1])
    ensures
      var e := events[|events| - 1];
      e != PurgeResults && e != Lose && !e.Alone?
  {
    forall e | e in events[..|events| - 1]
      ensures e != PurgeResults && e != Lose && !e.Alone?
    {
      assert e in events;
    }
    assert events[|events| - 1] in events;
  }

  lemma {:induction false} HolderIsLate(now: int, events: seq<Event>, ttl: nat)
    requires Undisturbed(events)
    ensures
      var t := Run(Fresh(now), events, ttl);
      && t.purgedAt.None? && (t.latest.Some? ==> t.latest.value.kept)
      && (t.holder.Some? && t.latest.Some? ==> t.latest.value.begin + ttl <= t.holderBegin)
  {
    hide Undisturbed;
    if events != [] {
      UndisturbedBefore(events);
      HolderIsLate(now, events[..|events| - 1], ttl);
      RunInv(now, events[..|events| - 1], ttl);
    }
  }

  /** Without a purge and with every redemption stored, each redemption's caller began at
      least ttl after the one before, and while one is under way nobody else enters. */
  lemma RedemptionsApart(now: int, events: seq<Event>, ttl: nat)
    requires Undisturbed(events) && Run(Fresh(now), events, ttl).holder.Some?
    ensures
      var t := Run(Fresh(now), events, ttl);
      && (t.latest.Some? ==> t.latest.value.begin + ttl <= t.holderBegin)
      && forall c :: !MayEnter(t, c)
  {
    HolderIsLate(now, events, ttl);
  }

  // --- How early, when transactions are short ------------------------------------------------

  /** Every caller so far got the lock, and every redemption ended, within the bound. */
  predicate Prompt(now: int, events: seq<Event>, ttl: nat, bound: nat) {
    events == []
    || (var init, e := events[..|events| - 1], events[|events| - 1];
        var t := Run(Fresh(now), init, ttl);
        && Prompt(now, init, ttl, bound)
        && (e.Enter? && e.caller in t.begun ==> t.now <= t.begun[e.caller] + bound)
        && ((e.Commit? || e.Lose? || e.Fail?) && t.holder.Some? ==> t.now <= t.holderBegin + bound))
  }

  /** The caller may enter within the bound, and redeems a token whose latest redemption
      was stored, having begun `gap` after it. */
  ghost predicate EarlyBy(now: int, events: seq<Event>, ttl: nat, bound: nat, c: CallerId, gap: int) {
    var t := Run(Fresh(now), events, ttl);
    && Prompt(now, events, ttl, bound) && Redeems(t, c) && t.now <= t.begun[c] + bound
    && t.latest.Some? && t.latest.value.kept && t.begun[c] == t.latest.value.begin + gap
  }

  lemma EarlyIsNarrow(now: int, events: seq<Event>, ttl: nat, bound: nat, c: CallerId, gap: int)
    requires EarlyBy(now, events, ttl, bound, c, gap)
    ensures gap > ttl - bound || gap >= ttl
  {
    RunInv(now, events, ttl);
    hide Run, Prompt;
  }

  lemma Extended(events: seq<Event>, e: Event, ttl: nat, bound: nat) returns (longer: seq<Event>)
    requires Prompt(0, events, ttl, bound)
    requires
      var t := Run(Fresh(0), events, ttl);
      && (e.Enter? && e.caller in t.begun ==> t.now <= t.begun[e.caller] + bound)
      && ((e.Commit? || e.Lose? || e.Fail?) && t.holder.Some? ==> t.now <= t.holderBegin + bound)
    ensures longer == events + [e] && Run(Fresh(0), longer, ttl) == Apply(Run(Fresh(0), events, ttl), e, ttl)
    ensures Prompt(0, longer, ttl, bound)
  {
    longer := events + [e];
    assert longer[..|events|] == events;
  }

  /** The first caller has redeemed at once, and nobody waits. */
  predicate JustStored(t: Token, ttl: nat) {
    && t.stored == Some(Stored("a", ttl)) && t.begun == map[] && t.holder.None? && t.now == 0
    && t.latest == Some(Redemption(0, true))
  }

  lemma FirstStores(ttl: nat, bound: nat) returns (events: seq<Event>)
    ensures JustStored(Run(Fresh(0), events, ttl), ttl) && Prompt(0, events, ttl, bound)
  {
    hide Run, Prompt;
    NothingYet(ttl, bound);
    events := Extended([], Begin(1), ttl, bound);
    events := Extended(events, Enter(1), ttl, bound);
    events := Extended(events, Commit("a"), ttl, bound);
  }

  lemma SecondArrives(before: seq<Event>, ttl: nat, bound: nat, gap: nat) returns (events: seq<Event>)
    requires JustStored(Run(Fresh(0), before, ttl), ttl) && Prompt(0, before, ttl, bound)
    ensures
      var t := Run(Fresh(0), events, ttl);
      && Prompt(0, events, ttl, bound) && t.stored == Some(Stored("a", ttl)) && t.begun == map[2 := gap]
      && t.holder.None? && t.now == gap && t.latest == Some(Redemption(0, true))
  {
    hide Run, Prompt;
    events := Extended(before, Tick(gap), ttl, bound);
    events := Extended(events, Begin(2), ttl, bound);
  }

  /** A purge just after the expiry catches a caller that began just before it. */
  lemma EarlyRun(ttl: nat, bound: nat, gap: nat) returns (events: seq<Event>)
    requires ttl - bound < gap < ttl
    ensures EarlyBy(0, events, ttl, bound, 2, gap)
  {
    hide Run, Prompt;
    events := FirstStores(ttl, bound);
    events := SecondArrives(events, ttl, bound, gap);
    events := Extended(events, Tick(ttl + 1 - gap), ttl, bound);
    events := Extended(events, PurgeResults, ttl, bound);
  }

  lemma NothingYet(ttl: nat, bound: nat)
    ensures Prompt(0, [], ttl, bound) && Run(Fresh(0), [], ttl) == Fresh(0)
  {
  }

  /** How close two redemptions can come although the first was stored, when every
      transaction lasts at most `bound`: closer than ttl, but by less than the bound. */
  lemma EarlyGapsExactly(ttl: nat, bound: nat, gap: int)
    requires bound <= ttl && gap < ttl
    ensures (exists events: seq<Event>, c :: EarlyBy(0, events, ttl, bound, c, gap)) <==> gap > ttl - bound
  {
    hide EarlyBy;
    if gap > ttl - bound {
      var events := EarlyRun(ttl, bound, gap);
    }
    forall events: seq<Event>, c | EarlyBy(0, events, ttl, bound, c, gap)
      ensures gap > ttl - bound
    {
      EarlyIsNarrow(0, events, ttl, bound, c, gap);
    }
  }

  /** With the service's ten seconds and five second timeouts a stored redemption is never
      repeated by a caller that began within five seconds of it. */
  lemma FiveSecondsApart(events: seq<Event>, c: CallerId, gap: int)
    requires EarlyBy(0, events, TTL, TIMEOUT, c, gap)
    ensures gap > 5
  {
    EarlyIsNarrow(0, events, TTL, TIMEOUT, c, gap);
  }
}
