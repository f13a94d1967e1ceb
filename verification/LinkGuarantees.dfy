/** What the link page's download guarantees over every run, and exactly when its
    counter does: workers left over from an attempt that gave up keep counting. */
module LinkGuarantees {
  import opened Prelude
  import opened FileFormat
  import opened LinkDownload

  lemma {:induction false} RunInv(blob: Bytes, events: seq<Event>)
    requires blob != []
    ensures Inv(blob, Run(blob, FRESH, events))
  {
    hide Apply, AttemptsSound, PhaseSound;
    if events == [] {
      FreshInv(blob);
    } else {
      RunInv(blob, events[..|events| - 1]);
      StepInv(blob, Run(blob, FRESH, events[..|events| - 1]), events[|events| - 1]);
    }
  }

  lemma FreshInv(blob: Bytes)
    ensures Inv(blob, FRESH)
  {
  }

  // --- The file -----------------------------------------------------------------------

  /** Whatever attempts went before and whatever their left-over workers still write,
      an attempt that ends delivers the whole blob. */
  lemma DownloadIsWhole(blob: Bytes, events: seq<Event>)
    requires blob != []
    ensures
      var p := Run(blob, FRESH, events);
      p.phase.Delivered? ==> p.phase.blob == blob
  {
    RunInv(blob, events);
    hide Run, AttemptsSound;
  }

  /** A chunk that is in any attempt's array is exactly its range of the file. */
  lemma ChunksAreRanges(blob: Bytes, events: seq<Event>, a: nat, k: nat)
    requires blob != []
    ensures
      var p := Run(blob, FRESH, events);
      a < |p.attempts| ==>
        && |p.attempts[a].chunks| == ChunkCount(|blob|)
        && (k < ChunkCount(|blob|) && p.attempts[a].chunks[k].Some? ==>
              p.attempts[a].chunks[k].value == RangeBytes(blob, k))
  {
    RunInv(blob, events);
    var p := Run(blob, FRESH, events);
    hide Run, PhaseSound;
    if a < |p.attempts| && k < ChunkCount(|blob|) {
      assert DataSound(blob, p.attempts[a], |p.attempts|);
      if p.attempts[a].chunks[k].Some? { HonestIsSlice(blob, k, p.attempts[a].chunks[k].value); }
    }
  }

  /** Within an attempt every index is claimed once: no two of its workers hold the same.
      While the present attempt's workers run, a claimed index that is not in the page's
      array yet is with one of them, and they write to that array. */
  lemma EachIndexOnce(blob: Bytes, events: seq<Event>, a: nat, v: nat, w: nat, k: nat)
    requires blob != []
    requires
      var p := Run(blob, FRESH, events);
      a < |p.attempts| && v < |p.attempts[a].workers| && w < |p.attempts[a].workers|
    ensures
      var p := Run(blob, FRESH, events);
      var t := p.attempts[a];
      && (Holds(t.workers[v], k) ==> 1 <= k < t.next && k < |t.chunks|)
      && (Holds(t.workers[v], k) && Holds(t.workers[w], k) ==> v == w)
      && (p.phase.Running? && a == |p.attempts| - 1 ==>
            && (t.workers[v].Fetching? ==> t.workers[v].into == Some(a))
            && (k < t.next && k < |t.chunks| && t.chunks[k].None? ==>
                  exists u | 0 <= u < |t.workers| :: Holds(t.workers[u], k)))
  {
    RunInv(blob, events);
    hide Run, Honest;
    assert IndicesSound(Run(blob, FRESH, events).attempts[a]);
  }

  lemma RangeOf(total: nat, byte: nat, k: nat)
    requires byte < total
    ensures Start(k) <= byte <= End(total, k) <==> k == byte / DOWNLOAD_CHUNK_SIZE
  {
    var q := byte / DOWNLOAD_CHUNK_SIZE;
    assert q * DOWNLOAD_CHUNK_SIZE <= byte < q * DOWNLOAD_CHUNK_SIZE + DOWNLOAD_CHUNK_SIZE;
  }

  lemma LastRange(total: nat, byte: nat)
    requires byte < total
    ensures byte / DOWNLOAD_CHUNK_SIZE < ChunkCount(total)
  {
    var q, n := byte / DOWNLOAD_CHUNK_SIZE, ChunkCount(total);
    CeilingBounds(total, DOWNLOAD_CHUNK_SIZE, n);
    hide CeilDiv, ChunkCount;
    assert q * DOWNLOAD_CHUNK_SIZE <= byte < total <= n * DOWNLOAD_CHUNK_SIZE;
  }

  /** The requested ranges partition the file. */
  lemma RangesPartition(total: nat, byte: nat)
    requires byte < total
    ensures exists k: nat :: k < ChunkCount(total) && Start(k) <= byte <= End(total, k)
    ensures forall k: nat, m: nat ::
              Start(k) <= byte <= End(total, k) && Start(m) <= byte <= End(total, m) ==> k == m
  {
    LastRange(total, byte);
    forall k: nat
      ensures Start(k) <= byte <= End(total, k) <==> k == byte / DOWNLOAD_CHUNK_SIZE
    {
      RangeOf(total, byte, k);
    }
    hide Start, End, ChunkCount;
    var k := byte / DOWNLOAD_CHUNK_SIZE;
    assert Start(k) <= byte <= End(total, k);
  }

  // --- Bytes --------------------------------------------------------------------------

  function InFlight(w: Worker): nat {
    if w.Fetching? then |w.data| else 0
  }

  function Completed(chunks: seq<Option<Bytes>>): nat {
    if chunks == [] then 0
    else Completed(chunks[..|chunks| - 1]) + |Present(chunks[|chunks| - 1])|
  }

  function Flying(workers: seq<Worker>): nat {
    if workers == [] then 0 else Flying(workers[..|workers| - 1]) + InFlight(workers[|workers| - 1])
  }

  lemma {:induction false} CompletedUpdate(chunks: seq<Option<Bytes>>, i: nat, c: Option<Bytes>)
    requires i < |chunks|
    ensures Completed(chunks[i := c]) == Completed(chunks) - |Present(chunks[i])| + |Present(c)|
  {
    var n := |chunks| - 1;
    if i == n {
      assert chunks[i := c][..n] == chunks[..n];
    } else {
      assert chunks[i := c][..n] == chunks[..n][i := c];
      CompletedUpdate(chunks[..n], i, c);
    }
  }

  lemma {:induction false} FlyingUpdate(workers: seq<Worker>, i: nat, w: Worker)
    requires i < |workers|
    ensures Flying(workers[i := w]) == Flying(workers) - InFlight(workers[i]) + InFlight(w)
  {
    var n := |workers| - 1;
    if i == n {
      assert workers[i := w][..n] == workers[..n];
    } else {
      assert workers[i := w][..n] == workers[..n][i := w];
      FlyingUpdate(workers[..n], i, w);
    }
  }

  lemma {:induction false} NothingFlies(workers: seq<Worker>)
    requires forall w | 0 <= w < |workers| :: !workers[w].Fetching?
    ensures Flying(workers) == 0
  {
    if workers != [] { NothingFlies(workers[..|workers| - 1]); }
  }

  lemma {:induction false} NothingCompleted(chunks: seq<Option<Bytes>>)
    requires forall k | 0 <= k < |chunks| :: chunks[k].None?
    ensures Completed(chunks) == 0
  {
    if chunks != [] { NothingCompleted(chunks[..|chunks| - 1]); }
  }

  // --- The counter --------------------------------------------------------------------

  /** Still reading, or about to claim another index. */
  predicate Pending(t: Attempt, w: nat) {
    w < |t.workers| && (t.workers[w].Fetching? || (t.workers[w] == Idle && t.next < |t.chunks|))
  }

  predicate Settled(t: Attempt) {
    forall w | 0 <= w < |t.workers| :: !Pending(t, w)
  }

  /** No worker of an earlier attempt is still reading. */
  predicate NoStrays(p: Page) {
    forall a | 0 <= a < |p.attempts| - (if p.phase.Quiet? then 0 else 1) :: Settled(p.attempts[a])
  }

  /** The present attempt's completed bytes and those in flight. */
  function Expected(p: Page): nat {
    if p.phase.Quiet? || |p.attempts| == 0 then 0
    else
      var t := p.attempts[|p.attempts| - 1];
      Completed(t.chunks) + Flying(t.workers) + if p.phase.First? then |p.phase.data| else 0
  }

  predicate Exact(p: Page) {
    p.received == Expected(p)
  }

  /** Chunks come only from the attempt's own workers. */
  predicate Untouched(t: Attempt) {
    && (forall k | t.next <= k < |t.chunks| :: t.chunks[k].None?)
    && (forall w, k: nat | 0 <= w < |t.workers| && k < |t.chunks| && Holds(t.workers[w], k) :: t.chunks[k].None?)
  }

  ghost predicate Clean(p: Page) {
    && !p.phase.Quiet? && |p.attempts| > 0 && NoStrays(p) && Exact(p)
    && Untouched(p.attempts[|p.attempts| - 1])
    && (p.phase.First? ==> 0 < |p.attempts[|p.attempts| - 1].chunks| ==> p.attempts[|p.attempts| - 1].chunks[0].None?)
  }

  /** A step of the present attempt alone. */
  ghost predicate OwnStep(p: Page, q: Page, t: Attempt) {
    && |p.attempts| > 0 && q.attempts == p.attempts[|p.attempts| - 1 := t] && q.phase == p.phase
  }

  lemma OwnKeepsStrays(p: Page, q: Page, t: Attempt)
    requires NoStrays(p) && !p.phase.Quiet? && OwnStep(p, q, t)
    ensures NoStrays(q)
  {
  }

  lemma SettledClaim(t: Attempt, w: nat, into: Option<nat>)
    requires Settled(t) && w < |t.workers| && t.workers[w] == Idle
    ensures Settled(ClaimNext(t, w, into))
  {
    assert !Pending(t, w);
    forall v | 0 <= v < |t.workers|
      ensures !Pending(ClaimNext(t, w, into), v)
    {
      assert !Pending(t, v);
    }
  }

  lemma CleanClaim(blob: Bytes, p: Page, a: nat, w: nat)
    requires Inv(blob, p) && Clean(p) && IsIdle(p, a, w)
    ensures Clean(Apply(blob, p, Claim(a, w)))
  {
    hide AttemptsSound, PhaseSound, ChunkCount, Start, End;
    var q := Apply(blob, p, Claim(a, w));
    var last := |p.attempts| - 1;
    var t := ClaimNext(p.attempts[a], w, Target(p));
    if a == last {
      FlyingUpdate(p.attempts[a].workers, w, t.workers[w]);
    } else {
      SettledClaim(p.attempts[a], w, Target(p));
    }
  }

  lemma CleanSameIndex(blob: Bytes, p: Page, w: nat, state: Worker, received: int)
    requires Inv(blob, p) && Clean(p) && IsBusy(p, |p.attempts| - 1, w)
    requires Holds(state, p.attempts[|p.attempts| - 1].workers[w].index)
    requires received == p.received - |p.attempts[|p.attempts| - 1].workers[w].data| + InFlight(state)
    ensures received >= 0 && Clean(SetWorker(p, |p.attempts| - 1, w, state).(received := received))
  {
    hide AttemptsSound, PhaseSound, ChunkCount, Start, End;
    var last := |p.attempts| - 1;
    var t := p.attempts[last];
    FlyingUpdate(t.workers, w, state);
    FlyingUpdate(t.workers, w, Idle);
    OwnKeepsStrays(p, SetWorker(p, last, w, state).(received := received), WithWorker(t, w, state));
    hide NoStrays, Flying, Completed;
    var u := WithWorker(t, w, state);
    assert forall v, k: nat | 0 <= v < |u.workers| && Holds(u.workers[v], k) :: Holds(t.workers[v], k);
  }

  /** The bytes of a stored chunk pass from flying to completed. */
  lemma StoredCount(t: Attempt, w: nat)
    requires w < |t.workers| && t.workers[w].Fetching? && t.workers[w].index < |t.chunks|
    requires t.chunks[t.workers[w].index].None?
    ensures
      var u := WithChunk(WithWorker(t, w, Idle), t.workers[w].index, t.workers[w].data);
      Completed(u.chunks) + Flying(u.workers) == Completed(t.chunks) + Flying(t.workers)
  {
    FlyingUpdate(t.workers, w, Idle);
    CompletedUpdate(t.chunks, t.workers[w].index, Some(t.workers[w].data));
  }

  lemma StoreIsOwn(blob: Bytes, p: Page, last: nat, w: nat)
    requires Inv(blob, p) && last == |p.attempts| - 1 && IsBusy(p, last, w) && p.phase.Running?
    requires |p.attempts[last].workers[w].data| == RangeSize(|blob|, p.attempts[last].workers[w].index)
    ensures
      var t := p.attempts[last];
      var u := WithChunk(WithWorker(t, w, Idle), t.workers[w].index, t.workers[w].data);
      && Apply(blob, p, EndBody(last, w)) == p.(attempts := p.attempts[last := u])
      && t.workers[w].index < |t.chunks| && IndicesSound(t)
  {
    HeldInside(blob, p, last, w);
    assert p.attempts[last].workers[w].into == Some(last);
    hide ChunkCount, Start, End, Honest, IndicesSound, DataSound, Covered;
  }

  lemma OwnClean(p: Page, last: nat, u: Attempt)
    requires Clean(p) && last == |p.attempts| - 1 && p.phase.Running? && Untouched(u)
    requires Completed(u.chunks) + Flying(u.workers)
             == Completed(p.attempts[last].chunks) + Flying(p.attempts[last].workers)
    ensures Clean(p.(attempts := p.attempts[last := u]))
  {
    OwnKeepsStrays(p, p.(attempts := p.attempts[last := u]), u);
    hide NoStrays, Flying, Completed, Untouched;
  }

  lemma CleanStore(blob: Bytes, p: Page, last: nat, w: nat)
    requires Inv(blob, p) && Clean(p) && last == |p.attempts| - 1 && IsBusy(p, last, w) && p.phase.Running?
    requires |p.attempts[last].workers[w].data| == RangeSize(|blob|, p.attempts[last].workers[w].index)
    ensures Clean(Apply(blob, p, EndBody(last, w)))
  {
    var t := p.attempts[last];
    StoreIsOwn(blob, p, last, w);
    assert Holds(t.workers[w], t.workers[w].index);
    hide Apply, Inv, IndicesSound;
    StoredCount(t, w);
    StoredUntouched(t, w);
    hide Flying, Completed, WithChunk, WithWorker;
    OwnClean(p, last, WithChunk(WithWorker(t, w, Idle), t.workers[w].index, t.workers[w].data));
  }

  lemma StoredUntouched(t: Attempt, w: nat)
    requires Untouched(t) && IndicesSound(t) && w < |t.workers| && t.workers[w].Fetching?
    ensures Untouched(WithChunk(WithWorker(t, w, Idle), t.workers[w].index, t.workers[w].data))
  {
    var u := WithChunk(WithWorker(t, w, Idle), t.workers[w].index, t.workers[w].data);
    assert Holds(t.workers[w], t.workers[w].index);
    forall v, k: nat | 0 <= v < |u.workers| && k < |u.chunks| && Holds(u.workers[v], k)
      ensures u.chunks[k].None?
    {
      assert Holds(t.workers[v], k);
    }
  }

  /** The attempt once its first range is in. */
  function Ready(t: Attempt, first: Bytes): Attempt {
    WithChunk(t, 0, first).(workers := seq(Min(CONCURRENCY, |t.chunks|), w => Idle))
  }

  lemma ReadyCount(t: Attempt, first: Bytes)
    requires |t.chunks| > 0 && t.chunks[0].None? && t.workers == [] && t.next == 1
    ensures
      var u := Ready(t, first);
      Completed(u.chunks) + Flying(u.workers) == Completed(t.chunks) + Flying(t.workers) + |first|
    ensures Untouched(t) ==> Untouched(Ready(t, first))
  {
    CompletedUpdate(t.chunks, 0, Some(first));
    NothingFlies(Ready(t, first).workers);
    NothingFlies(t.workers);
  }

  lemma EndFirstIs(blob: Bytes, p: Page)
    requires Inv(blob, p) && blob != [] && p.phase.First? && |p.phase.data| == RangeSize(|blob|, 0)
    ensures
      var last := |p.attempts| - 1;
      && last >= 0 && |p.attempts[last].chunks| > 0 && p.attempts[last].workers == [] && p.attempts[last].next == 1
      && Apply(blob, p, EndFirst)
         == p.(attempts := p.attempts[last := Ready(p.attempts[last], p.phase.data)], phase := Running)
  {
    assert DataSound(blob, p.attempts[|p.attempts| - 1], |p.attempts|);
    assert ChunkCount(|blob|) > 0;
    hide AttemptsSound, DataSound, IndicesSound, AtWork, ChunkCount, Start, End, Honest;
  }

  lemma CleanEndFirst(blob: Bytes, p: Page)
    requires Inv(blob, p) && Clean(p) && blob != []
    ensures Clean(Apply(blob, p, EndFirst))
  {
    hide Inv, ChunkCount, Start, End, Honest;
    if p.phase.First? && |p.phase.data| == RangeSize(|blob|, 0) {
      EndFirstIs(blob, p);
      var last := |p.attempts| - 1;
      ReadyCount(p.attempts[last], p.phase.data);
      hide Apply, Ready, Untouched, Completed, Flying;
      assert forall a | 0 <= a < last :: Settled(p.attempts[a]);
    }
  }

  lemma BusyIsPresent(p: Page, a: nat, w: nat)
    requires Clean(p) && IsBusy(p, a, w)
    ensures a == |p.attempts| - 1
  {
    assert Pending(p.attempts[a], w);
    assert a < |p.attempts| - 1 ==> Settled(p.attempts[a]);
  }

  lemma BusyIsRunning(blob: Bytes, p: Page, w: nat)
    requires Inv(blob, p) && !p.phase.Quiet? && IsBusy(p, |p.attempts| - 1, w)
    ensures p.phase.Running?
  {
  }

  lemma CleanStep(blob: Bytes, p: Page, e: Event)
    requires Inv(blob, p) && Clean(p) && blob != [] && e != Reset
    ensures Clean(Apply(blob, p, e)) && !Loses(blob, p, e)
  {
    hide AttemptsSound, PhaseSound, ChunkCount, Start, End, Honest;
    match e
    case Open =>
    case ReadFirst(part) =>
    case EndFirst => CleanEndFirst(blob, p);
    case Claim(a, w) => if IsIdle(p, a, w) { CleanClaim(blob, p, a, w); }
    case Read(a, w, part) => if IsBusy(p, a, w) { CleanRead(blob, p, a, w, part); }
    case EndBody(a, w) => if IsBusy(p, a, w) { CleanEndBody(blob, p, a, w); }
    case Break(a, w) =>
      if IsBusy(p, a, w) {
        BusyIsPresent(p, a, w);
        var f := p.attempts[a].workers[w];
        CleanSameIndex(blob, p, w, Retried(f), p.received - |f.data|);
      }
    case Finish =>
  }

  lemma CleanRead(blob: Bytes, p: Page, a: nat, w: nat, part: Bytes)
    requires Inv(blob, p) && Clean(p) && IsBusy(p, a, w)
    ensures Clean(Apply(blob, p, Read(a, w, part))) && !Loses(blob, p, Read(a, w, part))
  {
    hide AttemptsSound, PhaseSound, ChunkCount, Start, End, Honest;
    BusyIsPresent(p, a, w);
    var f := p.attempts[a].workers[w];
    if Honest(blob, Start(f.index) + |f.data|, part) {
      CleanSameIndex(blob, p, w, f.(data := f.data + part), p.received + |part|);
    }
  }

  lemma CleanEndBody(blob: Bytes, p: Page, a: nat, w: nat)
    requires Inv(blob, p) && Clean(p) && IsBusy(p, a, w)
    ensures Clean(Apply(blob, p, EndBody(a, w))) && !Loses(blob, p, EndBody(a, w))
  {
    hide AttemptsSound, PhaseSound, ChunkCount, Start, End, Honest;
    BusyIsPresent(p, a, w);
    BusyIsRunning(blob, p, w);
    var f := p.attempts[a].workers[w];
    if |f.data| == RangeSize(|blob|, f.index) {
      CleanStore(blob, p, a, w);
    } else {
      CleanSameIndex(blob, p, w, Retried(f), p.received - |f.data|);
    }
  }

  lemma CleanOpen(blob: Bytes, p: Page)
    requires p.phase.Quiet? && NoStrays(p)
    ensures Clean(Apply(blob, p, Open))
  {
    hide ChunkCount;
    var q := Apply(blob, p, Open);
    NothingCompleted(q.attempts[|q.attempts| - 1].chunks);
  }

  lemma {:induction false} CleanRun(blob: Bytes, p: Page, events: seq<Event>)
    requires Inv(blob, p) && p.phase.Quiet? && NoStrays(p) && blob != []
    requires Reset !in events
    ensures var q := Run(blob, p, [Open] + events); Inv(blob, q) && Clean(q)
  {
    hide Apply, AttemptsSound, PhaseSound, Clean;
    if events == [] {
      CleanOpen(blob, p);
      StepInv(blob, p, Open);
      assert [Open] + events == [Open] && [Open][..0] == [];
      assert Run(blob, p, [Open]) == Apply(blob, p, Open);
    } else {
      var init, e := events[..|events| - 1], events[|events| - 1];
      assert ([Open] + events)[..|events|] == [Open] + init;
      CleanRun(blob, p, init);
      StepInv(blob, Run(blob, p, [Open] + init), e);
      CleanStep(blob, Run(blob, p, [Open] + init), e);
    }
  }

  /** From here on, an attempt's counter is exact at every moment up to the reset that
      ends it, and no clamp swallows a byte. */
  ghost predicate CountsExactly(blob: Bytes, p: Page) {
    forall events: seq<Event> | Reset !in events ::
      var q := Run(blob, p, [Open] + events);
      Exact(q) && forall e | e != Reset :: !Loses(blob, q, e)
  }

  /** An attempt that has received nothing itself, and another one's worker reading. */
  predicate Beginning(p: Page, a: nat) {
    a < |p.attempts| - 1 && p.phase == First([]) && p.received == 0 && Expected(p) == 0
  }

  lemma BeginsWithNothing(blob: Bytes, p: Page, a: nat)
    requires p.phase.Quiet? && a < |p.attempts|
    ensures
      var q := Apply(blob, p, Open);
      Beginning(q, a) && q.attempts[a] == p.attempts[a]
  {
    hide ChunkCount;
    var q := Apply(blob, p, Open);
    NothingCompleted(q.attempts[|q.attempts| - 1].chunks);
  }

  lemma StrayClaims(blob: Bytes, p: Page, a: nat, w: nat)
    requires Beginning(p, a) && IsIdle(p, a, w) && Pending(p.attempts[a], w)
    ensures Beginning(Apply(blob, p, Claim(a, w)), a) && IsBusy(Apply(blob, p, Claim(a, w)), a, w)
  {
    hide Flying, Completed;
  }

  lemma StrayReads(blob: Bytes, p: Page, a: nat, w: nat) returns (part: Bytes)
    requires Beginning(p, a) && IsBusy(p, a, w)
    ensures !Exact(Apply(blob, p, Read(a, w, part)))
  {
    hide Flying, Completed;
    var f := p.attempts[a].workers[w];
    var from := Start(f.index) + |f.data|;
    part := [if from < |blob| then blob[from] else 0];
    assert Honest(blob, from, part);
  }

  /** When a worker of an earlier attempt is still reading, the new attempt's counter
      can show a byte that is none of its own. */
  lemma StrayCounts(blob: Bytes, p: Page, a: nat, w: nat) returns (events: seq<Event>)
    requires p.phase.Quiet? && a < |p.attempts| && Pending(p.attempts[a], w)
    ensures Reset !in events && !Exact(Run(blob, p, [Open] + events))
  {
    hide Apply, Exact, Beginning, Run;
    RunOne(blob, p, [], Open);
    BeginsWithNothing(blob, p, a);
    var before: seq<Event> := [];
    if p.attempts[a].workers[w] == Idle {
      before := [Claim(a, w)];
      RunOne(blob, p, [Open], Claim(a, w));
      OpenedPage(blob, p, a);
      StrayClaims(blob, Apply(blob, p, Open), a, w);
    } else {
      OpenedPage(blob, p, a);
    }
    assert [] + [Open] == [Open] && [Open] + [] == [Open];
    var part := StrayReads(blob, Run(blob, p, [Open] + before), a, w);
    events := before + [Read(a, w, part)];
    RunOne(blob, p, [Open] + before, Read(a, w, part));
    assert [Open] + events == [Open] + before + [Read(a, w, part)];
  }

  lemma OpenedPage(blob: Bytes, p: Page, a: nat)
    requires p.phase.Quiet? && a < |p.attempts|
    ensures a < |Apply(blob, p, Open).attempts| && Apply(blob, p, Open).attempts[a] == p.attempts[a]
  {
    hide ChunkCount;
  }

  lemma RunOne(blob: Bytes, p: Page, events: seq<Event>, e: Event)
    ensures Run(blob, p, events + [e]) == Apply(blob, Run(blob, p, events), e)
    ensures Run(blob, p, []) == p
  {
    assert (events + [e])[..|events|] == events;
  }

  /** The counter of a new attempt is the completed plus the in-flight bytes, in every
      run until its end, and its clamp loses nothing, if and only if no worker of an
      earlier attempt is still reading when it begins. */
  lemma CounterIsExactly(blob: Bytes, history: seq<Event>)
    requires blob != [] && Run(blob, FRESH, history).phase.Quiet?
    ensures
      var p := Run(blob, FRESH, history);
      CountsExactly(blob, p) <==> NoStrays(p)
  {
    var p := Run(blob, FRESH, history);
    RunInv(blob, history);
    hide Apply, Loses, AttemptsSound, PhaseSound, Exact, Pending, Run, Inv;
    if NoStrays(p) {
      forall events: seq<Event> | Reset !in events
        ensures
          var q := Run(blob, p, [Open] + events);
          Exact(q) && forall e | e != Reset :: !Loses(blob, q, e)
      {
        CleanRun(blob, p, events);
        forall e | e != Reset
          ensures !Loses(blob, Run(blob, p, [Open] + events), e)
        {
          CleanStep(blob, Run(blob, p, [Open] + events), e);
        }
      }
    } else {
      var a :| 0 <= a < |p.attempts| && !Settled(p.attempts[a]);
      var w :| 0 <= w < |p.attempts[a].workers| && Pending(p.attempts[a], w);
      var events := StrayCounts(blob, p, a, w);
    }
  }

  /** The page's first attempt has no earlier one. */
  lemma FirstAttemptCounts(blob: Bytes)
    requires blob != []
    ensures CountsExactly(blob, FRESH)
  {
    CounterIsExactly(blob, []);
  }

  // --- A run that leaves a worker over ------------------------------------------------------

  lemma Extended(blob: Bytes, events: seq<Event>, e: Event) returns (longer: seq<Event>)
    ensures longer == events + [e]
    ensures Run(blob, FRESH, longer) == Apply(blob, Run(blob, FRESH, events), e)
  {
    longer := events + [e];
    RunOne(blob, FRESH, events, e);
  }

  /** The present attempt is the page's first, and two of its workers are idle. */
  predicate TwoIdle(p: Page, n: nat) {
    && p.phase.Running? && |p.attempts| == 1 && p.attempts[0].next == 1 && |p.attempts[0].chunks| == n >= 3
    && |p.attempts[0].workers| >= 2 && p.attempts[0].workers[0] == Idle && p.attempts[0].workers[1] == Idle
  }

  lemma FirstRangeArrives(blob: Bytes) returns (events: seq<Event>)
    requires ChunkCount(|blob|) >= 3
    ensures TwoIdle(Run(blob, FRESH, events), ChunkCount(|blob|))
  {
    hide Run;
    RunOne(blob, FRESH, [], Open);
    events := [];
    events := Extended(blob, events, Open);
    RangeInside(|blob|, 0);
    var first := blob[..RangeSize(|blob|, 0)];
    assert Start(0) == 0 && RangeSize(|blob|, 0) > 0;
    hide ChunkCount, Start, End, RangeSize;
    events := Extended(blob, events, ReadFirst(first));
    assert [] + first == first;
    events := Extended(blob, events, EndFirst);
  }

  /** One worker holds index 2 with a byte of it read, and the other holds index 1. */
  predicate OneReads(p: Page, tries: nat) {
    && p.phase.Running? && |p.attempts| == 1 && |p.attempts[0].workers| >= 2
    && p.attempts[0].workers[0].Fetching? && p.attempts[0].workers[0].tries == tries
    && p.attempts[0].workers[1].Fetching? && |p.attempts[0].workers[1].data| == 1
  }

  lemma TwoClaim(blob: Bytes, before: seq<Event>) returns (events: seq<Event>)
    requires TwoIdle(Run(blob, FRESH, before), ChunkCount(|blob|))
    ensures OneReads(Run(blob, FRESH, events), 0)
  {
    hide Run, ChunkCount, Start, End;
    events := Extended(blob, before, Claim(0, 0));
    events := Extended(blob, events, Claim(0, 1));
    var part: Bytes := [if Start(2) < |blob| then blob[Start(2)] else 0];
    assert Honest(blob, Start(2), part);
    events := Extended(blob, events, Read(0, 1, part));
  }

  lemma {:induction false} OneGivesUp(blob: Bytes, before: seq<Event>, tries: nat) returns (events: seq<Event>)
    requires OneReads(Run(blob, FRESH, before), tries) && tries < MAX_RETRIES
    ensures
      var p := Run(blob, FRESH, events);
      && p.phase.Running? && |p.attempts| == 1 && |p.attempts[0].workers| >= 2
      && p.attempts[0].workers[0].Failed?
      && p.attempts[0].workers[1].Fetching? && |p.attempts[0].workers[1].data| == 1
    decreases MAX_RETRIES - tries
  {
    hide Run;
    events := Extended(blob, before, Break(0, 0));
    if tries + 1 < MAX_RETRIES {
      events := OneGivesUp(blob, events, tries + 1);
    }
  }

  lemma ResetLeavesOver(blob: Bytes, p: Page)
    requires p.phase.Running? && |p.attempts| == 1 && |p.attempts[0].workers| >= 2
    requires p.attempts[0].workers[0].Failed?
    requires p.attempts[0].workers[1].Fetching? && |p.attempts[0].workers[1].data| == 1
    ensures
      var q := Apply(blob, p, Reset);
      q.phase.Quiet? && q.received == 0 && Loses(blob, q, Break(0, 1)) && !NoStrays(q)
  {
    var q := Apply(blob, p, Reset);
    assert q.attempts == p.attempts && Pending(q.attempts[0], 1);
  }

  /** It happens: one worker gives up while another is reading, the page is reset, and
      when the left-over response breaks the clamp swallows the byte it takes back. A new
      attempt that begins now cannot rely on its counter. */
  lemma LeftOverLosesBytes(blob: Bytes) returns (history: seq<Event>)
    requires ChunkCount(|blob|) >= 3
    ensures
      var p := Run(blob, FRESH, history);
      p.phase.Quiet? && p.received == 0 && Loses(blob, p, Break(0, 1)) && !CountsExactly(blob, p)
  {
    assert blob != [];
    history := FirstRangeArrives(blob);
    hide Run;
    history := TwoClaim(blob, history);
    history := OneGivesUp(blob, history, 0);
    ResetLeavesOver(blob, Run(blob, FRESH, history));
    hide Apply, Loses, NoStrays, CountsExactly, ChunkCount;
    history := Extended(blob, history, Reset);
    CounterIsExactly(blob, history);
  }
}
