/** The upload loop of encryptFileChunked: chunks started in order, a set of
    in-flight promises, and a race that should hold back the next chunk. */
module ChunkUploads {
  import opened Prelude

  /** onChunk's promise, and the one derived from it that handles both outcomes. */
  datatype Promise = Raw(index: nat) | Wrapped(index: nat)

  datatype Pool = Pool(
    next: nat,
    inflight: set<Promise>,
    settled: set<nat>,
    errors: seq<nat>,
    aborted: bool,
    ended: bool)

  datatype Event = Advance | Settle(index: nat, ok: bool) | Abort

  const START: Pool := Pool(0, {}, {}, [], false, false)

  predicate Stopped(p: Pool) {
    p.aborted || p.errors != []
  }

  /** Promise.race over the in-flight set resolves. */
  predicate RaceSettled(p: Pool) {
    exists q :: q in p.inflight && q.index in p.settled
  }

  function Apply(total: nat, concurrency: nat, p: Pool, e: Event): Pool {
    match e
    case Abort => p.(aborted := true)
    case Settle(i, ok) =>
      if i >= p.next || i in p.settled then p
      else
        // The handler deletes the raw promise; the set holds the wrapped one.
        p.(settled := p.settled + {i}, inflight := p.inflight - {Raw(i)},
           errors := if ok then p.errors else p.errors + [i])
    case Advance =>
      if p.ended then p
      else if Stopped(p) || p.next >= total then p.(ended := true)
      else if |p.inflight| >= concurrency && !RaceSettled(p) then p
      else p.(next := p.next + 1, inflight := p.inflight + {Wrapped(p.next)})
  }

  function Run(total: nat, concurrency: nat, events: seq<Event>): Pool {
    if events == [] then START
    else Apply(total, concurrency, Run(total, concurrency, events[..|events| - 1]), events[|events| - 1])
  }

  function Running(p: Pool): set<nat> {
    Below(p.next) - p.settled
  }

  /** Every started upload stays in the set for good; a chunk past the limit only
      starts after some upload has settled. */
  ghost predicate Inv(total: nat, concurrency: nat, p: Pool) {
    && p.next <= total
    && (forall q :: q in p.inflight <==> q.Wrapped? && q.index < p.next)
    && |p.inflight| == p.next
    && p.settled <= Below(p.next)
    && (p.next <= concurrency || p.settled != {})
    && (forall i :: i in p.errors ==> i in p.settled)
    && (p.ended && !Stopped(p) ==> p.next == total)
  }

  lemma AdvanceInv(total: nat, concurrency: nat, p: Pool)
    requires Inv(total, concurrency, p)
    ensures Inv(total, concurrency, Apply(total, concurrency, p, Advance))
  {
    hide Below;
    var v := Apply(total, concurrency, p, Advance);
    if v.next > p.next {
      assert Wrapped(p.next) !in p.inflight;
      if p.settled == {} {
        assert !RaceSettled(p);
      }
    }
  }

  lemma SettleInv(total: nat, concurrency: nat, p: Pool, i: nat, ok: bool)
    requires Inv(total, concurrency, p)
    ensures Inv(total, concurrency, Apply(total, concurrency, p, Settle(i, ok)))
  {
    assert p.inflight - {Raw(i)} == p.inflight;
  }

  lemma {:induction false} RunInv(total: nat, concurrency: nat, events: seq<Event>)
    ensures Inv(total, concurrency, Run(total, concurrency, events))
  {
    hide Below;
    if events != [] {
      var before, e := events[..|events| - 1], events[|events| - 1];
      RunInv(total, concurrency, before);
      var p := Run(total, concurrency, before);
      match e
      case Advance => AdvanceInv(total, concurrency, p);
      case Settle(i, ok) => SettleInv(total, concurrency, p, i, ok);
      case Abort =>
    }
  }

  /** What every event changes. The next chunk is started as long as no more than the limit
      have been, and after that once any upload has settled. */
  lemma PoolChangesExactly(total: nat, concurrency: nat, p: Pool, e: Event)
    requires Inv(total, concurrency, p)
    ensures
      var v := Apply(total, concurrency, p, e);
      var stopped := p.aborted || p.errors != [];
      var settles := e.Settle? && e.index < p.next && e.index !in p.settled;
      && (v.next == p.next + 1 <==>
            e == Advance && !p.ended && !stopped && p.next < total && (p.next < concurrency || p.settled != {}))
      && (v.next == p.next || v.next == p.next + 1)
      && (v.ended <==> p.ended || (e == Advance && (stopped || p.next >= total)))
      && (v.aborted <==> p.aborted || e == Abort)
      && v.settled == (if settles then p.settled + {e.index} else p.settled)
      && v.errors == if settles && !e.ok then p.errors + [e.index] else p.errors
  {
    hide Below;
    if i: nat :| i in p.settled {
      InFlight(total, concurrency, p, i);
    }
  }

  lemma InFlight(total: nat, concurrency: nat, p: Pool, i: nat)
    requires Inv(total, concurrency, p) && i in p.settled
    ensures Wrapped(i) in p.inflight && RaceSettled(p)
  {
    assert Wrapped(i) in p.inflight;
  }

  /** A failed chunk or an abort stops the loop: nothing more is started. */
  lemma {:induction false} NothingStartsAfterStop(total: nat, concurrency: nat, first: seq<Event>, more: seq<Event>)
    requires Stopped(Run(total, concurrency, first))
    ensures Stopped(Run(total, concurrency, first + more))
    ensures Run(total, concurrency, first + more).next == Run(total, concurrency, first).next
  {
    if more == [] {
      assert first + more == first;
    } else {
      var init := more[..|more| - 1];
      assert (first + more)[..|first + more| - 1] == first + init;
      NothingStartsAfterStop(total, concurrency, first, init);
    }
  }

  /** The call resolves once the loop has ended and every in-flight upload settled. */
  predicate Resolves(p: Pool) {
    p.ended && (forall q :: q in p.inflight ==> q.index in p.settled) && !Stopped(p)
  }

  /** It resolves only when all chunks were uploaded, each without error. */
  lemma ResolvesMeansAllUploaded(total: nat, concurrency: nat, events: seq<Event>)
    requires Resolves(Run(total, concurrency, events))
    ensures Run(total, concurrency, events).settled == Below(total)
    ensures Run(total, concurrency, events).errors == []
  {
    RunInv(total, concurrency, events);
    var p := Run(total, concurrency, events);
    forall i: nat | i < total
      ensures i in p.settled
    {
      assert Wrapped(i) in p.inflight;
    }
  }

  /** One chunk after another, each uploaded without error. */
  function OneByOne(n: nat): seq<Event> {
    if n == 0 then [] else OneByOne(n - 1) + [Advance, Settle(n - 1, true)]
  }

  lemma {:induction false} OneByOneRuns(total: nat, concurrency: nat, n: nat)
    requires n <= total && concurrency >= 1
    ensures
      var p := Run(total, concurrency, OneByOne(n));
      p.next == n && p.settled == Below(n) && p.errors == [] && !p.aborted && !p.ended
  {
    hide Apply, Run, Inv, RaceSettled;
    if n == 0 {
      assert Run(total, concurrency, OneByOne(0)) == START by { NothingRuns(total, concurrency); }
    } else {
      var prior, more := OneByOne(n - 1), OneByOne(n - 1) + [Advance];
      OneByOneRuns(total, concurrency, n - 1);
      RunInv(total, concurrency, prior);
      RunOneMore(total, concurrency, prior, Advance);
      RunOneMore(total, concurrency, more, Settle(n - 1, true));
      assert OneByOne(n) == more + [Settle(n - 1, true)];
      OneChunk(total, concurrency, Run(total, concurrency, prior));
    }
  }

  lemma OneChunk(total: nat, concurrency: nat, p: Pool)
    requires Inv(total, concurrency, p) && p.next < total && concurrency >= 1
    requires p.settled == Below(p.next) && p.errors == [] && !p.aborted && !p.ended
    ensures
      var v := Apply(total, concurrency, Apply(total, concurrency, p, Advance), Settle(p.next, true));
      v.next == p.next + 1 && v.settled == Below(v.next) && v.errors == [] && !v.aborted && !v.ended
  {
    PoolChangesExactly(total, concurrency, p, Advance);
    var q := Apply(total, concurrency, p, Advance);
    AdvanceInv(total, concurrency, p);
    hide Apply, Inv;
    if p.next > 0 { assert p.next - 1 in Below(p.next); }
    PoolChangesExactly(total, concurrency, q, Settle(p.next, true));
  }

  lemma NothingRuns(total: nat, concurrency: nat)
    ensures Run(total, concurrency, OneByOne(0)) == START
  {
  }

  /** For every file and limit there is a run in which the call resolves. */
  lemma UploadsResolve(total: nat, concurrency: nat)
    requires concurrency >= 1
    ensures Resolves(Run(total, concurrency, OneByOne(total) + [Advance]))
  {
    OneByOneRuns(total, concurrency, total);
    RunInv(total, concurrency, OneByOne(total));
    RunOneMore(total, concurrency, OneByOne(total), Advance);
  }

  function Advances(n: nat): (events: seq<Event>)
    ensures |events| == n
  {
    if n == 0 then [] else Advances(n - 1) + [Advance]
  }

  lemma {:induction false} AdvancesRun(total: nat, concurrency: nat, n: nat)
    requires n <= concurrency && n <= total
    ensures
      var p := Run(total, concurrency, Advances(n));
      p.next == n && p.settled == {} && !Stopped(p) && !p.ended
  {
    if n > 0 {
      AdvancesRun(total, concurrency, n - 1);
      RunInv(total, concurrency, Advances(n - 1));
      assert Advances(n)[..n - 1] == Advances(n - 1);
    }
  }

  lemma RunOneMore(total: nat, concurrency: nat, events: seq<Event>, e: Event)
    ensures Run(total, concurrency, events + [e]) == Apply(total, concurrency, Run(total, concurrency, events), e)
  {
    assert (events + [e])[..|events|] == events;
  }

  lemma RacePasses(total: nat, concurrency: nat, p: Pool)
    requires Inv(total, concurrency, p) && p.settled != {} && !Stopped(p) && !p.ended && p.next < total
    ensures
      var v := Apply(total, concurrency, p, Advance);
      v.next == p.next + 1 && v.settled == p.settled && !Stopped(v) && !v.ended
  {
    var i :| i in p.settled;
    assert Wrapped(i) in p.inflight;
  }

  /** After one upload settles, the race no longer holds anything back. */
  lemma Overrun(total: nat, concurrency: nat) returns (events: seq<Event>)
    requires concurrency >= 1 && total >= concurrency + 2
    ensures |Running(Run(total, concurrency, events))| == concurrency + 1
  {
    hide Below, RaceSettled;
    var s0 := Advances(concurrency);
    AdvancesRun(total, concurrency, concurrency);
    var s1 := s0 + [Settle(0, true)];
    RunOneMore(total, concurrency, s0, Settle(0, true));
    RunInv(total, concurrency, s1);
    RacePasses(total, concurrency, Run(total, concurrency, s1));
    var s2 := s1 + [Advance];
    RunOneMore(total, concurrency, s1, Advance);
    RunInv(total, concurrency, s2);
    RacePasses(total, concurrency, Run(total, concurrency, s2));
    events := s2 + [Advance];
    RunOneMore(total, concurrency, s2, Advance);
    var p := Run(total, concurrency, events);
    assert p.next == concurrency + 2 && p.settled == {0};
    assert Below(p.next) == Running(p) + {0};
  }

  lemma SettledFewer(p: Pool, limit: nat)
    requires p.next <= limit + 1 && p.settled <= Below(p.next) && (p.next <= limit || p.settled != {})
    ensures |Running(p)| <= limit
  {
    assert Below(p.next) == Running(p) + p.settled;
    assert |Below(p.next)| == |Running(p)| + |p.settled|;
  }

  /** "Up to concurrency at a time" holds in every run exactly when the file has at
      most one chunk more than the limit: the set of in-flight uploads never
      shrinks, because the handler deletes a promise that is not in it. */
  lemma ConcurrencyHoldsExactly(total: nat, concurrency: nat)
    requires concurrency >= 1
    ensures (forall events: seq<Event> :: |Running(Run(total, concurrency, events))| <= concurrency)
            <==> total <= concurrency + 1
  {
    if total <= concurrency + 1 {
      forall events: seq<Event>
        ensures |Running(Run(total, concurrency, events))| <= concurrency
      {
        RunInv(total, concurrency, events);
        SettledFewer(Run(total, concurrency, events), concurrency);
      }
    } else {
      var events := Overrun(total, concurrency);
    }
  }
}
