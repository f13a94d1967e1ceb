/** Periodic jobs that run once per interval across all replicas. */
module ReplicaJobs {
  import opened Prelude

  type Replica = nat

  /** One job: its row, which replica's connection holds its lock, where it is being
      executed, and the time. */
  datatype Job = Job(lastRun: Option<int>, holder: Option<Replica>, executing: set<Replica>, now: int)

  /** `Disconnect` loses the connection, and with it the lock, while the job goes on. */
  datatype Event =
    | TryRun(replica: Replica)
    | Finish(replica: Replica)
    | Disconnect(replica: Replica)
    | Tick(passed: nat)

  /** The lock is free, the interval since the recorded start is over, and this replica,
      which runs the job in one loop, is not still executing it. */
  predicate Starts(j: Job, r: Replica, interval: nat) {
    j.holder.None? && r !in j.executing && (j.lastRun.None? || j.lastRun.value <= j.now - interval)
  }

  /** A replica that finishes or dies stops executing and gives the lock back. */
  function Apply(j: Job, e: Event, interval: nat): Job {
    match e
    case TryRun(r) => if Starts(j, r, interval) then Job(Some(j.now), Some(r), j.executing + {r}, j.now) else j
    case Finish(r) => j.(holder := if j.holder == Some(r) then None else j.holder, executing := j.executing - {r})
    case Disconnect(r) => if j.holder == Some(r) then j.(holder := None) else j
    case Tick(passed) => j.(now := j.now + passed)
  }

  function Run(start: Job, events: seq<Event>, interval: nat): Job {
    if events == [] then start else Apply(Run(start, events[..|events| - 1], interval), events[|events| - 1], interval)
  }

  function Before(start: Job, events: seq<Event>, interval: nat, i: nat): Job
    requires i <= |events|
  {
    Run(start, events[..i], interval)
  }

  predicate StartsAt(start: Job, events: seq<Event>, interval: nat, i: nat) {
    i < |events| && events[i].TryRun? && Starts(Before(start, events, interval, i), events[i].replica, interval)
  }

  /** Before any replica has tried. */
  predicate Initial(j: Job) {
    j.holder.None? && j.executing == {}
  }

  class JobStore {
    var lastRun: Option<int>
    var holder: Option<Replica>
    var executing: set<Replica>
    var now: int

    ghost function State(): Job
      reads this
    {
      Job(lastRun, holder, executing, now)
    }

    /** The try-lock and the guarded claim; the lock stays with a job that may run. */
    method Claim(r: Replica, interval: nat) returns (mayRun: bool)
      requires r !in executing
      modifies this
      ensures mayRun <==> Starts(old(State()), r, interval)
      ensures State() == Apply(old(State()), TryRun(r), interval)
    {
      if holder.Some? { return false; }
      holder := Some(r);
      if lastRun.Some? && !(lastRun.value <= now - interval) {
        holder := None;
        return false;
      }
      lastRun, executing := Some(now), executing + {r};
      return true;
    }
  }

  lemma BeforeNext(start: Job, events: seq<Event>, interval: nat, i: nat)
    requires i < |events|
    ensures Before(start, events, interval, i + 1) == Apply(Before(start, events, interval, i), events[i], interval)
  {
    assert events[..i + 1][..i] == events[..i];
  }

  /** Some event between i and j gives the lock of this replica back. */
  predicate LetsGo(events: seq<Event>, r: Replica, i: nat, j: nat) {
    j <= |events| && exists k | i < k < j :: events[k] == Finish(r) || events[k] == Disconnect(r)
  }

  predicate Finishes(events: seq<Event>, r: Replica, i: nat, j: nat) {
    j <= |events| && exists k | i < k < j :: events[k] == Finish(r)
  }

  /** What a start at i still means at j. */
  lemma {:induction false} StartIsRecorded(start: Job, events: seq<Event>, interval: nat, i: nat, j: nat)
    requires StartsAt(start, events, interval, i) && i < j <= |events|
    ensures
      var s, t, r := Before(start, events, interval, i), Before(start, events, interval, j), events[i].replica;
      && s.now <= t.now && t.lastRun.Some? && s.now <= t.lastRun.value <= t.now
      && (!LetsGo(events, r, i, j) ==> t.holder == Some(r))
      && (!Finishes(events, r, i, j) ==> r in t.executing)
    decreases j
  {
    BeforeNext(start, events, interval, j - 1);
    if i < j - 1 {
      StartIsRecorded(start, events, interval, i, j - 1);
    }
  }

  /** Two runs of a job start at least an interval apart, and the later only after the
      earlier replica has finished or lost its connection. */
  lemma RunsApart(start: Job, events: seq<Event>, interval: nat, i: nat, j: nat)
    requires StartsAt(start, events, interval, i) && StartsAt(start, events, interval, j) && i < j
    ensures Before(start, events, interval, i).now + interval <= Before(start, events, interval, j).now
    ensures LetsGo(events, events[i].replica, i, j)
  {
    StartIsRecorded(start, events, interval, i, j);
  }

  /** Some replica starts the job at j while the run that started at i is still going. */
  predicate Overlaps(start: Job, events: seq<Event>, interval: nat, i: nat, j: nat) {
    && StartsAt(start, events, interval, i) && StartsAt(start, events, interval, j) && i < j
    && !Finishes(events, events[i].replica, i, j)
  }

  /** Runs only overlap when a replica lost its connection in the middle of a run, and the
      run has by then lasted for the interval. */
  lemma OverlapNeedsDisconnect(start: Job, events: seq<Event>, interval: nat, i: nat, j: nat)
    requires Overlaps(start, events, interval, i, j)
    ensures exists k :: i < k < j && events[k] == Disconnect(events[i].replica)
    ensures Before(start, events, interval, i).now + interval <= Before(start, events, interval, j).now
    ensures events[i].replica in Before(start, events, interval, j).executing && events[j].replica != events[i].replica
  {
    StartIsRecorded(start, events, interval, i, j);
  }

  /** A lost connection in a run that lasts for the interval does let another one in. */
  lemma OverlapHappens(now: int, interval: nat, r: Replica, other: Replica)
    requires r != other
    ensures
      var events := [TryRun(r), Disconnect(r), Tick(interval), TryRun(other)];
      Overlaps(Job(None, None, {}, now), events, interval, 0, 3)
  {
    var start := Job(None, None, {}, now);
    var events := [TryRun(r), Disconnect(r), Tick(interval), TryRun(other)];
    assert Before(start, events, interval, 0) == start;
    BeforeNext(start, events, interval, 0);
    BeforeNext(start, events, interval, 1);
    BeforeNext(start, events, interval, 2);
  }

  /** The next try starts the job exactly when the last run has let its lock go, its
      interval is over, and the trying replica is not still executing the job. */
  lemma NextRunIsOpen(start: Job, events: seq<Event>, interval: nat, i: nat, j: nat)
    requires StartsAt(start, events, interval, i) && i < j < |events| && events[j].TryRun?
    requires forall k | i < k < j :: !StartsAt(start, events, interval, k)
    ensures StartsAt(start, events, interval, j) <==>
              && LetsGo(events, events[i].replica, i, j)
              && events[j].replica !in Before(start, events, interval, j).executing
              && Before(start, events, interval, j).now >= Before(start, events, interval, i).now + interval
  {
    LastStartStands(start, events, interval, i, j);
  }

  lemma {:induction false} LastStartStands(start: Job, events: seq<Event>, interval: nat, i: nat, j: nat)
    requires StartsAt(start, events, interval, i) && i < j <= |events|
    requires forall k | i < k < j :: !StartsAt(start, events, interval, k)
    ensures
      var s, t, r := Before(start, events, interval, i), Before(start, events, interval, j), events[i].replica;
      t.lastRun == Some(s.now) && t.holder == if LetsGo(events, r, i, j) then None else Some(r)
    decreases j
  {
    BeforeNext(start, events, interval, j - 1);
    if i < j - 1 {
      LastStartStands(start, events, interval, i, j - 1);
      assert !StartsAt(start, events, interval, j - 1);
    }
  }

  /** An executing replica is one whose run has started and not finished. */
  lemma {:induction false} ExecutingStarted(start: Job, events: seq<Event>, interval: nat, r: Replica)
    requires Initial(start)
    ensures r in Run(start, events, interval).executing <==>
              exists i: nat :: StartsAt(start, events, interval, i) && events[i].replica == r
                               && !Finishes(events, r, i, |events|)
  {
    if events != [] {
      var n := |events| - 1;
      var init, e := events[..n], events[n];
      ExecutingStarted(start, init, interval, r);
      assert Before(start, events, interval, n) == Run(start, init, interval);
      assert forall i | 0 <= i <= n :: init[..i] == events[..i];
      forall i: nat | i < n
        ensures StartsAt(start, events, interval, i) == StartsAt(start, init, interval, i)
        ensures Finishes(events, r, i, |events|) <==> Finishes(init, r, i, n) || (e == Finish(r))
      {
      }
      if StartsAt(start, events, interval, n) && e.replica == r {
        assert !Finishes(events, r, n, |events|);
      }
      if r in Run(start, init, interval).executing && e != Finish(r) {
        var i: nat :| StartsAt(start, init, interval, i) && init[i].replica == r && !Finishes(init, r, i, n);
        assert StartsAt(start, events, interval, i);
      }
    }
  }
}
