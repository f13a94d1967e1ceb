/** One row of upload_sessions and what each guarded UPDATE or DELETE does to it.
    `None` stands for "no row matched", which the callers see as a lost lease,
    a closed session or nothing to do. */
module UploadSessions {
  import opened Prelude

  type Time = int

  /** The name of a replica, as written into assembly leases. */
  type Replica = nat

  datatype State = Uploading | Assembling | Assembled | Finalized | Failed

  /** `recorded` holds the session's rows of upload_chunks. */
  datatype Session = Session(
    state: State,
    owner: Option<Replica>,
    leaseUntil: Option<Time>,
    expiresAt: Time,
    recorded: set<nat>)

  // Durations in seconds.
  const SESSION_TTL: nat := 3600
  const PENDING_TTL: nat := 600
  const ASSEMBLY_LEASE: nat := 30

  /** SQL conditions have three truth values; a comparison with NULL is Unknown,
      and WHERE keeps a row only when its condition is Yes. */
  datatype Truth = Yes | No | Unknown {
    function And(other: Truth): Truth {
      if No? || other.No? then No else if Yes? && other.Yes? then Yes else Unknown
    }

    function Or(other: Truth): Truth {
      if Yes? || other.Yes? then Yes else if No? && other.No? then No else Unknown
    }

    function Not(): Truth {
      match this
      case Yes => No
      case No => Yes
      case Unknown => Unknown
    }
  }

  function Holds(b: bool): Truth {
    if b then Yes else No
  }

  function Later(t: Option<Time>, now: Time): Truth {
    if t.None? then Unknown else Holds(t.value > now)
  }

  function Earlier(t: Option<Time>, now: Time): Truth {
    if t.None? then Unknown else Holds(t.value < now)
  }

  function OwnedBy(owner: Option<Replica>, r: Replica): Truth {
    if owner.None? then Unknown else Holds(owner.value == r)
  }

  /** What GetUploadSession still reports. */
  predicate Live(s: Session, now: Time) {
    Holds(s.expiresAt > now).Or(Holds(s.state == Assembling).And(Later(s.leaseUntil, now))).Yes?
  }

  function Fresh(now: Time): Session {
    Session(Uploading, None, None, now + SESSION_TTL, {})
  }

  function Recorded(s: Session, now: Time, index: nat): Option<Session> {
    if s.state == Uploading && s.expiresAt > now
    then Some(s.(recorded := s.recorded + {index}, expiresAt := now + SESSION_TTL))
    else None
  }

  datatype StartResult = NotFound | Incomplete | Returned(session: Session)

  function Started(s: Session, now: Time, totalChunks: nat): StartResult {
    if s.expiresAt <= now then NotFound
    else if s.state != Uploading && s.state != Failed then Returned(s)
    else if |s.recorded| != totalChunks then Incomplete
    else Returned(s.(state := Assembling, owner := None, leaseUntil := None, expiresAt := now + PENDING_TTL))
  }

  predicate Claimable(s: Session, now: Time, r: Replica) {
    && s.state == Assembling
    && Holds(s.leaseUntil.None?).Or(Earlier(s.leaseUntil, now)).Or(OwnedBy(s.owner, r)).Yes?
  }

  function Claimed(s: Session, now: Time, r: Replica): Option<Session> {
    if Claimable(s, now, r)
    then Some(s.(owner := Some(r), leaseUntil := Some(now + ASSEMBLY_LEASE)))
    else None
  }

  /** The fence shared by renew, finish, fail and release. */
  predicate Fenced(s: Session, r: Replica) {
    s.state == Assembling && OwnedBy(s.owner, r).Yes?
  }

  function Renewed(s: Session, now: Time, r: Replica): Option<Session> {
    if Fenced(s, r) then Some(s.(leaseUntil := Some(now + ASSEMBLY_LEASE))) else None
  }

  function Finished(s: Session, now: Time, r: Replica): Option<Session> {
    if Fenced(s, r)
    then Some(s.(state := Assembled, owner := None, leaseUntil := None,
                 expiresAt := Max(s.expiresAt, now + PENDING_TTL / 2)))
    else None
  }

  function FailedBy(s: Session, r: Replica): Option<Session> {
    if Fenced(s, r) then Some(s.(state := Failed, owner := None, leaseUntil := None)) else None
  }

  function Released(s: Session, r: Replica): Option<Session> {
    if Fenced(s, r) then Some(s.(owner := None, leaseUntil := None)) else None
  }

  /** The WHERE clause of TakeExpiredUploadSessions. */
  predicate Expired(s: Session, now: Time) {
    Holds(s.expiresAt < now).And(Holds(s.state == Assembling).And(Later(s.leaseUntil, now)).Not()).Yes?
  }
}
