/** The fixed-window request counter of one key, shared by all replicas. */
module RateLimit {
  import opened Prelude

  /** Times are whole units since the zero time that windows are aligned to. */
  datatype Event = Check(at: nat) | Purge(at: nat)

  /** The row of rate_limit_counters; `window` numbers the windows, so it starts at
      window * length. */
  datatype Counter = Counter(window: nat, count: nat)

  const HOUR: nat := 3600

  function Window(at: nat, length: nat): nat
    requires length > 0
  {
    at / length
  }

  /** The counting upsert. */
  function Counted(row: Option<Counter>, window: nat): Counter {
    if row.Some? && row.value.window == window then Counter(window, row.value.count + 1) else Counter(window, 1)
  }

  function Step(row: Option<Counter>, e: Event, length: nat, horizon: nat): Option<Counter>
    requires length > 0
  {
    match e
    case Check(at) => Some(Counted(row, Window(at, length)))
    case Purge(at) => if row.Some? && row.value.window * length < at - horizon then None else row
  }

  function Run(events: seq<Event>, length: nat, horizon: nat): Option<Counter>
    requires length > 0
  {
    if events == [] then None
    else Step(Run(events[..|events| - 1], length, horizon), events[|events| - 1], length, horizon)
  }

  /** The request of the last event is let through. */
  predicate Admitted(events: seq<Event>, length: nat, horizon: nat, limit: nat)
    requires length > 0
  {
    && events != [] && events[|events| - 1].Check?
    && Run(events, length, horizon).Some? && Run(events, length, horizon).value.count <= limit
  }

  class Store {
    var row: Option<Counter>

    method CheckRateLimit(at: nat, limit: nat, length: nat, ghost horizon: nat) returns (ok: bool)
      requires length > 0
      modifies this
      ensures row == Step(old(row), Check(at), length, horizon) && row.Some?
      ensures ok <==> row.value.count <= limit
    {
      var window := at / length;
      var next :=
        match row
        case Some(r) => if r.window == window then Counter(window, r.count + 1) else Counter(window, 1)
        case None => Counter(window, 1);
      row := Some(next);
      return next.count <= limit;
    }

    method PurgeRateLimitCounters(now: nat, horizon: nat, length: nat)
      requires length > 0
      modifies this
      ensures row == Step(old(row), Purge(now), length, horizon)
    {
      if row.Some? && row.value.window * length < now - horizon {
        row := None;
      }
    }
  }

  // --- What the limit means ----------------------------------------------------------

  /** Time never goes back. */
  predicate Ordered(events: seq<Event>) {
    forall i, j | 0 <= i < j < |events| :: events[i].at <= events[j].at
  }

  /** The requests of one window, counted from the history alone. */
  function Checks(events: seq<Event>, window: nat, length: nat): nat
    requires length > 0
  {
    if events == [] then 0
    else
      var last := events[|events| - 1];
      Checks(events[..|events| - 1], window, length) + if last.Check? && Window(last.at, length) == window then 1 else 0
  }

  /** The admitted requests with a time from lo up to but excluding hi. */
  function AdmittedBetween(events: seq<Event>, length: nat, horizon: nat, limit: nat, lo: nat, hi: nat): nat
    requires length > 0
  {
    if events == [] then 0
    else
      AdmittedBetween(events[..|events| - 1], length, horizon, limit, lo, hi)
      + if Admitted(events, length, horizon, limit) && lo <= events[|events| - 1].at < hi then 1 else 0
  }

  function AdmittedIn(events: seq<Event>, length: nat, horizon: nat, limit: nat, window: nat): nat
    requires length > 0
  {
    if events == [] then 0
    else
      AdmittedIn(events[..|events| - 1], length, horizon, limit, window)
      + if Admitted(events, length, horizon, limit) && Window(events[|events| - 1].at, length) == window then 1 else 0
  }

  /** The row is the count of its window, and only a window already over has none. */
  predicate Exact(events: seq<Event>, row: Option<Counter>, length: nat, last: nat)
    requires length > 0
  {
    && (row.Some? ==> row.value.count == Checks(events, row.value.window, length))
    && (row.None? || row.value.window != Window(last, length) ==> Checks(events, Window(last, length), length) == 0)
    && forall i | 0 <= i < |events| :: events[i].at <= last
  }

  lemma TimesGrows(a: nat, b: nat, c: nat)
    requires a <= b
    ensures a * c <= b * c
  {
    assert b * c == a * c + (b - a) * c;
  }

  lemma WindowsGrow(a: nat, b: nat, length: nat)
    requires length > 0 && a <= b
    ensures Window(a, length) <= Window(b, length)
    ensures Window(a, length) * length <= a < Window(a, length) * length + length
  {
    assert a == (a / length) * length + a % length;
    assert b == (b / length) * length + b % length;
    if b / length + 1 <= a / length {
      TimesGrows(b / length + 1, a / length, length);
    }
  }

  lemma {:induction false} NoneLater(events: seq<Event>, window: nat, length: nat, last: nat)
    requires length > 0 && Window(last, length) < window && forall i | 0 <= i < |events| :: events[i].at <= last
    ensures Checks(events, window, length) == 0
  {
    if events != [] {
      WindowsGrow(events[|events| - 1].at, last, length);
      NoneLater(events[..|events| - 1], window, length, last);
    }
  }

  lemma {:induction false} CountIsExact(events: seq<Event>, length: nat, horizon: nat)
    requires 0 < length <= horizon + 1 && Ordered(events) && events != []
    ensures Exact(events, Run(events, length, horizon), length, events[|events| - 1].at)
  {
    var prior, e := events[..|events| - 1], events[|events| - 1];
    var row := Run(prior, length, horizon);
    var now := Window(e.at, length);
    if prior != [] {
      CountIsExact(prior, length, horizon);
      var last := prior[|prior| - 1].at;
      WindowsGrow(last, e.at, length);
      if Window(last, length) < now { NoneLater(prior, now, length, last); }
    }
    if e.Purge? && row.Some? && row.value.window * length < e.at - horizon {
      PurgedIsOver(row.value.window, e.at, length, horizon);
    }
  }

  /** A counter old enough to purge belongs to a window that is over. */
  lemma PurgedIsOver(window: nat, at: nat, length: nat, horizon: nat)
    requires 0 < length <= horizon + 1 && window * length < at - horizon
    ensures window < Window(at, length)
  {
    WindowsGrow(at, at, length);
    if Window(at, length) <= window {
      TimesGrows(Window(at, length), window, length);
    }
  }

  lemma AdmittedByCount(events: seq<Event>, length: nat, horizon: nat, limit: nat)
    requires 0 < length <= horizon + 1 && Ordered(events) && events != [] && events[|events| - 1].Check?
    ensures Admitted(events, length, horizon, limit) <==>
              Checks(events, Window(events[|events| - 1].at, length), length) <= limit
  {
    CountIsExact(events, length, horizon);
    assert Run(events, length, horizon)
        == Step(Run(events[..|events| - 1], length, horizon), events[|events| - 1], length, horizon);
  }

  /** A window lets through all of its requests up to the limit and no more. */
  lemma {:induction false} WindowAdmits(events: seq<Event>, length: nat, horizon: nat, limit: nat, window: nat)
    requires 0 < length <= horizon + 1 && Ordered(events)
    ensures AdmittedIn(events, length, horizon, limit, window) == Min(limit, Checks(events, window, length))
  {
    hide Admitted, Ordered;
    if events != [] {
      OrderedTake(events);
      WindowAdmits(events[..|events| - 1], length, horizon, limit, window);
      if events[|events| - 1].Check? {
        AdmittedByCount(events, length, horizon, limit);
      } else {
        PurgesAdmitNothing(events, length, horizon, limit);
      }
    }
  }

  lemma OrderedTake(events: seq<Event>)
    requires Ordered(events) && events != []
    ensures Ordered(events[..|events| - 1])
  {
  }

  lemma PurgesAdmitNothing(events: seq<Event>, length: nat, horizon: nat, limit: nat)
    requires length > 0 && events != [] && events[|events| - 1].Purge?
    ensures !Admitted(events, length, horizon, limit)
  {
  }

  /** An interval of one window's length meets two windows. */
  lemma IntervalMeetsTwo(lo: nat, at: nat, length: nat)
    requires length > 0 && lo <= at < lo + length
    ensures Window(at, length) == Window(lo, length) || Window(at, length) == Window(lo, length) + 1
  {
    WindowsGrow(lo, at, length);
    WindowsGrow(at, at, length);
    if Window(lo, length) + 2 <= Window(at, length) {
      TimesGrows(Window(lo, length) + 2, Window(at, length), length);
    }
  }

  lemma {:induction false} IntervalSplits(events: seq<Event>, length: nat, horizon: nat, limit: nat, lo: nat)
    requires length > 0
    ensures AdmittedBetween(events, length, horizon, limit, lo, lo + length) <=
              AdmittedIn(events, length, horizon, limit, Window(lo, length))
              + AdmittedIn(events, length, horizon, limit, Window(lo, length) + 1)
  {
    hide Admitted, Window;
    if events != [] {
      IntervalSplits(events[..|events| - 1], length, horizon, limit, lo);
      var at := events[|events| - 1].at;
      if lo <= at < lo + length { IntervalMeetsTwo(lo, at, length); }
    }
  }

  /** At most `limit` requests pass in a window, and at most twice that in any interval
      of a window's length, wherever it starts. */
  lemma AtMostTwiceTheLimit(events: seq<Event>, length: nat, horizon: nat, limit: nat, lo: nat)
    requires 0 < length <= horizon + 1 && Ordered(events)
    ensures AdmittedIn(events, length, horizon, limit, Window(lo, length)) <= limit
    ensures AdmittedBetween(events, length, horizon, limit, lo, lo + length) <= 2 * limit
  {
    IntervalSplits(events, length, horizon, limit, lo);
    WindowAdmits(events, length, horizon, limit, Window(lo, length));
    WindowAdmits(events, length, horizon, limit, Window(lo, length) + 1);
  }

  /** A burst of requests at one moment. */
  function Burst(at: nat, n: nat): seq<Event> {
    seq(n, i => Check(at))
  }

  /** A full window's worth at the end of the first window, and another right after it. */
  function TwoBursts(length: nat, limit: nat): seq<Event>
    requires length > 0
  {
    Burst(length - 1, limit) + Burst(length, limit)
  }

  lemma {:induction false} BurstChecks(at: nat, n: nat, window: nat, length: nat)
    requires length > 0
    ensures Checks(Burst(at, n), window, length) == if Window(at, length) == window then n else 0
  {
    hide Window;
    if n > 0 {
      BurstChecks(at, n - 1, window, length);
      assert Burst(at, n)[..n - 1] == Burst(at, n - 1);
      assert Burst(at, n)[n - 1] == Check(at);
    }
  }

  lemma {:induction false} ChecksJoin(first: seq<Event>, second: seq<Event>, window: nat, length: nat)
    requires length > 0
    ensures Checks(first + second, window, length) == Checks(first, window, length) + Checks(second, window, length)
  {
    hide Window;
    if second == [] {
      assert first + second == first;
    } else {
      var n := |second| - 1;
      ChecksJoin(first, second[..n], window, length);
      assert (first + second)[..|first| + n] == first + second[..n];
      assert (first + second)[|first| + n] == second[n];
    }
  }

  lemma TwoBurstsChecks(length: nat, limit: nat)
    requires length > 0
    ensures Checks(TwoBursts(length, limit), 0, length) == limit
    ensures Checks(TwoBursts(length, limit), 1, length) == limit
  {
    FirstWindows(length);
    hide Window, Checks, Burst;
    var first, second := Burst(length - 1, limit), Burst(length, limit);
    ChecksJoin(first, second, 0, length);
    ChecksJoin(first, second, 1, length);
    BurstChecks(length - 1, limit, 0, length);
    BurstChecks(length - 1, limit, 1, length);
    BurstChecks(length, limit, 0, length);
    BurstChecks(length, limit, 1, length);
  }

  lemma TwoBurstsOrdered(length: nat, limit: nat)
    requires length > 0
    ensures
      var events := TwoBursts(length, limit);
      Ordered(events) && forall e | e in events :: e == Check(length - 1) || e == Check(length)
  {
  }

  lemma FirstWindows(length: nat)
    requires length > 0
    ensures Window(length - 1, length) == 0 && Window(length, length) == 1
  {
  }

  /** Between the bursts' times everything admitted is in one of the two windows. */
  lemma {:induction false} BurstsSplit(events: seq<Event>, length: nat, horizon: nat, limit: nat)
    requires length >= 2 && forall e | e in events :: e == Check(length - 1) || e == Check(length)
    ensures AdmittedBetween(events, length, horizon, limit, length - 1, length - 1 + length)
            == AdmittedIn(events, length, horizon, limit, 0) + AdmittedIn(events, length, horizon, limit, 1)
  {
    FirstWindows(length);
    hide Window, Admitted;
    if events != [] {
      var init := events[..|events| - 1];
      assert forall e | e in init :: e in events;
      assert events[|events| - 1] in events;
      BurstsSplit(init, length, horizon, limit);
    }
  }

  /** With windows of one unit an interval of that length is a window. */
  lemma {:induction false} OneUnit(events: seq<Event>, horizon: nat, limit: nat, lo: nat)
    ensures AdmittedBetween(events, 1, horizon, limit, lo, lo + 1) == AdmittedIn(events, 1, horizon, limit, lo)
  {
    hide Admitted;
    if events != [] {
      OneUnit(events[..|events| - 1], horizon, limit, lo);
    }
  }

  /** The run admits twice the limit within a window's length from lo on. */
  ghost predicate AdmitsTwice(events: seq<Event>, lo: nat, length: nat, horizon: nat, limit: nat)
    requires length > 0
  {
    Ordered(events) && AdmittedBetween(events, length, horizon, limit, lo, lo + length) == 2 * limit
  }

  /** The bound is tight: for every limit and every window of at least two units. */
  lemma TwiceIsReached(length: nat, horizon: nat, limit: nat)
    requires 0 < length <= horizon + 1
    ensures (exists events: seq<Event>, lo: nat :: AdmitsTwice(events, lo, length, horizon, limit))
            <==> length >= 2 || limit == 0
  {
    if length >= 2 {
      var events := TwoBursts(length, limit);
      TwoBurstsChecks(length, limit);
      TwoBurstsOrdered(length, limit);
      BurstsSplit(events, length, horizon, limit);
      WindowAdmits(events, length, horizon, limit, 0);
      WindowAdmits(events, length, horizon, limit, 1);
      assert AdmitsTwice(events, length - 1, length, horizon, limit);
    } else {
      assert limit == 0 ==> AdmitsTwice([], 0, length, horizon, limit);
      forall events: seq<Event>, lo: nat | AdmitsTwice(events, lo, length, horizon, limit)
        ensures limit == 0
      {
        OneUnit(events, horizon, limit, lo);
        WindowAdmits(events, 1, horizon, limit, lo);
      }
    }
  }

  // --- What a purge may take ---------------------------------------------------------

  /** The request at the end is let through exactly when its window holds no more requests
      than the limit so far. */
  predicate Counts(events: seq<Event>, length: nat, horizon: nat, limit: nat)
    requires length > 0 && events != []
  {
    Admitted(events, length, horizon, limit) <==>
    Checks(events, Window(events[|events| - 1].at, length), length) <= limit
  }

  /** A full window, purged at its end, lets one more request through. */
  function PurgedWindow(length: nat, limit: nat): seq<Event>
    requires length > 0
  {
    Burst(0, limit) + [Purge(length - 1), Check(length - 1)]
  }

  lemma PurgedWindowOverruns(length: nat, horizon: nat, limit: nat)
    requires length > horizon + 1 && limit > 0
    ensures Ordered(PurgedWindow(length, limit)) && !Counts(PurgedWindow(length, limit), length, horizon, limit)
  {
    var burst := Burst(0, limit);
    var purged, events := burst + [Purge(length - 1)], PurgedWindow(length, limit);
    assert events[..|events| - 1] == purged && purged[..|purged| - 1] == burst;
    BurstChecks(0, limit, 0, length);
    CountOfBurst(length, horizon, limit);
    FirstWindows(length);
    assert Window(0, length) == 0;
    hide Window, Burst;
    assert Run(purged, length, horizon) == None;
    assert Run(events, length, horizon) == Some(Counter(0, 1));
    assert Checks(purged, 0, length) == limit;
    assert Checks(events, 0, length) == limit + 1;
  }

  lemma {:induction false} CountOfBurst(length: nat, horizon: nat, limit: nat)
    requires length > 0 && limit > 0
    ensures Run(Burst(0, limit), length, horizon) == Some(Counter(0, limit))
  {
    var burst := Burst(0, limit);
    assert burst[..limit - 1] == Burst(0, limit - 1);
    assert Window(0, length) == 0;
    hide Window;
    if limit > 1 { CountOfBurst(length, horizon, limit - 1); }
  }

  /** Whatever is purged between, admission counts the window's requests, in every run, if
      and only if the window is at most a unit longer than the purge horizon, or nothing is
      ever let through. */
  lemma AdmittedExactly(length: nat, horizon: nat, limit: nat)
    requires length > 0
    ensures (forall events: seq<Event> | Ordered(events) && events != [] && events[|events| - 1].Check? ::
               Counts(events, length, horizon, limit))
            <==> length <= horizon + 1 || limit == 0
  {
    hide Ordered;
    if length <= horizon + 1 {
      forall events: seq<Event> | Ordered(events) && events != [] && events[|events| - 1].Check?
        ensures Counts(events, length, horizon, limit)
      {
        AdmittedByCount(events, length, horizon, limit);
      }
    } else if limit > 0 {
      PurgedWindowOverruns(length, horizon, limit);
    } else {
      forall events: seq<Event> | Ordered(events) && events != [] && events[|events| - 1].Check?
        ensures Counts(events, length, horizon, limit)
      {
      }
    }
  }

  /** The longest of the configured windows, and an hour more. */
  function LongestWindow(windows: seq<nat>): nat {
    if windows == [] then 0 else Max(LongestWindow(windows[..|windows| - 1]), windows[|windows| - 1])
  }

  function PurgeHorizon(windows: seq<nat>): nat {
    LongestWindow(windows) + HOUR
  }

  lemma {:induction false} HorizonCovers(windows: seq<nat>, i: nat)
    requires i < |windows|
    ensures windows[i] <= LongestWindow(windows) < PurgeHorizon(windows)
  {
    if i < |windows| - 1 {
      HorizonCovers(windows[..|windows| - 1], i);
    }
  }

  function WithoutPurges(events: seq<Event>): seq<Event> {
    if events == [] then []
    else
      var init, last := WithoutPurges(events[..|events| - 1]), events[|events| - 1];
      if last.Check? then init + [last] else init
  }

  lemma {:induction false} PurgesDoNotCount(events: seq<Event>, window: nat, length: nat)
    requires length > 0
    ensures Checks(WithoutPurges(events), window, length) == Checks(events, window, length)
  {
    hide Window;
    if events != [] {
      PurgesDoNotCount(events[..|events| - 1], window, length);
      var kept := WithoutPurges(events[..|events| - 1]);
      assert (kept + [events[|events| - 1]])[..|kept|] == kept;
    }
  }

  lemma {:induction false} ChecksStayOrdered(events: seq<Event>)
    requires Ordered(events)
    ensures Ordered(WithoutPurges(events)) && forall e | e in WithoutPurges(events) :: e in events
  {
    if events != [] {
      var init, last := events[..|events| - 1], events[|events| - 1];
      ChecksStayOrdered(init);
      assert forall e | e in init :: e.at <= last.at;
      assert forall e | e in WithoutPurges(init) :: e.at <= last.at;
    }
  }

  /** With the configured horizon a purge never touches a live window: every limiter
      decides every request as if nothing were ever purged. */
  lemma PurgesChangeNothing(windows: seq<nat>, i: nat, events: seq<Event>, limit: nat)
    requires i < |windows| && windows[i] > 0
    requires Ordered(events) && events != [] && events[|events| - 1].Check?
    ensures
      var horizon := PurgeHorizon(windows);
      Admitted(events, windows[i], horizon, limit) <==> Admitted(WithoutPurges(events), windows[i], horizon, limit)
  {
    var last := events[|events| - 1];
    HorizonCovers(windows, i);
    PurgesDoNotCount(events, Window(last.at, windows[i]), windows[i]);
    ChecksStayOrdered(events);
    AdmittedByCount(events, windows[i], PurgeHorizon(windows), limit);
    AdmittedByCount(WithoutPurges(events), windows[i], PurgeHorizon(windows), limit);
  }
}
