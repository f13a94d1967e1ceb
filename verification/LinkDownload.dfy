/** The parallel range download of a shared file: workers that claim indices, read
    their range in pieces, retry short or broken responses, and count bytes. An
    attempt that gives up leaves its other workers at work while later attempts run. */
module LinkDownload {
  import opened Prelude
  import opened FileFormat

  const DOWNLOAD_CHUNK_SIZE: nat := 32 * 1024 * 1024
  const CONCURRENCY: nat := 4
  const MAX_RETRIES: nat := 5

  /** `data` is what the current response has delivered so far. `into` is the array
      the result will be written to: the one the page had when the index was claimed,
      by the number of the attempt that made it, or None for one left by a reset. */
  datatype Worker =
    | Idle
    | Fetching(index: nat, tries: nat, data: Bytes, into: Option<nat>)
    | Done
    | Failed(index: nat)

  /** One call of streamEncryptedFile: its next index, its array and its workers. */
  datatype Attempt = Attempt(next: nat, chunks: seq<Option<Bytes>>, workers: seq<Worker>)

  /** Where the page stands: no download, reading the first range, workers at work,
      or with the joined blob. */
  datatype Phase = Quiet | First(data: Bytes) | Running | Delivered(blob: Bytes)

  /** The page's shared state; the last attempt is the present one unless it is quiet. */
  datatype Page = Page(attempts: seq<Attempt>, phase: Phase, received: int)

  /** `Read` is one value of the body's reader, `EndBody` its end, `Break` any network
      or HTTP error. `Reset` follows a failed attempt or a saved download. */
  datatype Event =
    | Open
    | ReadFirst(part: Bytes)
    | EndFirst
    | Claim(a: nat, w: nat)
    | Read(a: nat, w: nat, part: Bytes)
    | EndBody(a: nat, w: nat)
    | Break(a: nat, w: nat)
    | Finish
    | Reset

  function ChunkCount(total: nat): nat {
    CeilDiv(total, DOWNLOAD_CHUNK_SIZE)
  }

  function Start(index: nat): nat {
    index * DOWNLOAD_CHUNK_SIZE
  }

  /** Last byte of a range; both ends of a byte range are inclusive. */
  function End(total: nat, index: nat): int {
    Min(total - 1, Start(index) + DOWNLOAD_CHUNK_SIZE - 1)
  }

  function RangeSize(total: nat, index: nat): int {
    End(total, index) - Start(index) + 1
  }

  /** What a server sends from an offset on: the file's bytes, perhaps too few, and
      whatever it likes past the file's end. */
  predicate Honest(blob: Bytes, from: nat, data: Bytes) {
    forall i | 0 <= i < |data| && from + i < |blob| :: data[i] == blob[from + i]
  }

  predicate IsBusy(p: Page, a: nat, w: nat) {
    a < |p.attempts| && w < |p.attempts[a].workers| && p.attempts[a].workers[w].Fetching?
  }

  predicate IsIdle(p: Page, a: nat, w: nat) {
    a < |p.attempts| && w < |p.attempts[a].workers| && p.attempts[a].workers[w] == Idle
  }

  /** The array the page has now. */
  function Target(p: Page): Option<nat> {
    if p.phase.Quiet? || |p.attempts| == 0 then None else Some(|p.attempts| - 1)
  }

  function WithWorker(t: Attempt, w: nat, state: Worker): Attempt
    requires w < |t.workers|
  {
    t.(workers := t.workers[w := state])
  }

  function SetWorker(p: Page, a: nat, w: nat, state: Worker): Page
    requires a < |p.attempts| && w < |p.attempts[a].workers|
  {
    p.(attempts := p.attempts[a := WithWorker(p.attempts[a], w, state)])
  }

  /** The next free index, past the end of which a worker returns. */
  function ClaimNext(t: Attempt, w: nat, into: Option<nat>): Attempt
    requires w < |t.workers|
  {
    WithWorker(t, w, if t.next < |t.chunks| then Fetching(t.next, 0, [], into) else Done).(next := t.next + 1)
  }

  /** The next try of a range, or the end of them. */
  function Retried(f: Worker): Worker
    requires f.Fetching?
  {
    if f.tries + 1 < MAX_RETRIES then Fetching(f.index, f.tries + 1, [], f.into) else Failed(f.index)
  }

  function WithChunk(t: Attempt, index: nat, data: Bytes): Attempt {
    if index < |t.chunks| then t.(chunks := t.chunks[index := Some(data)]) else t
  }

  /** Writes to the array a worker holds; nobody reads one left by a reset. */
  function StoreChunk(p: Page, into: Option<nat>, index: nat, data: Bytes): Page {
    if into.Some? && into.value < |p.attempts|
    then p.(attempts := p.attempts[into.value := WithChunk(p.attempts[into.value], index, data)])
    else p
  }

  function Present(chunk: Option<Bytes>): Bytes {
    if chunk.Some? then chunk.value else []
  }

  function Parts(chunks: seq<Option<Bytes>>): seq<Bytes> {
    seq(|chunks|, k requires 0 <= k < |chunks| => Present(chunks[k]))
  }

  predicate AllDone(workers: seq<Worker>) {
    forall w | 0 <= w < |workers| :: workers[w] == Done
  }

  predicate GaveUp(workers: seq<Worker>) {
    exists w | 0 <= w < |workers| :: workers[w].Failed?
  }

  /** Not while its workers are at work and none has given up. */
  predicate MayReset(p: Page) {
    p.phase.Running? ==> |p.attempts| > 0 && GaveUp(p.attempts[|p.attempts| - 1].workers)
  }

  /** A step, apart from the counter. */
  function Move(blob: Bytes, p: Page, e: Event): Page {
    match e
    case Open =>
      if !p.phase.Quiet? then p
      else p.(attempts := p.attempts + [Attempt(1, seq(ChunkCount(|blob|), k => None), [])], phase := First([]))
    case ReadFirst(part) =>
      if p.phase.First? && Honest(blob, |p.phase.data|, part) then p.(phase := First(p.phase.data + part)) else p
    case EndFirst =>
      if !p.phase.First? || |p.attempts| == 0 || |p.phase.data| != RangeSize(|blob|, 0) then p
      else
        var last := |p.attempts| - 1;
        var ready := WithChunk(p.attempts[last], 0, p.phase.data)
                     .(workers := seq(Min(CONCURRENCY, ChunkCount(|blob|)), w => Idle));
        p.(attempts := p.attempts[last := ready], phase := Running)
    case Claim(a, w) =>
      if IsIdle(p, a, w) then p.(attempts := p.attempts[a := ClaimNext(p.attempts[a], w, Target(p))]) else p
    case Read(a, w, part) =>
      if !IsBusy(p, a, w) then p
      else
        var f := p.attempts[a].workers[w];
        if Honest(blob, Start(f.index) + |f.data|, part) then SetWorker(p, a, w, f.(data := f.data + part)) else p
    case EndBody(a, w) =>
      if !IsBusy(p, a, w) then p
      else
        var f := p.attempts[a].workers[w];
        if |f.data| != RangeSize(|blob|, f.index) then SetWorker(p, a, w, Retried(f))
        else StoreChunk(SetWorker(p, a, w, Idle), f.into, f.index, f.data)
    case Break(a, w) => if IsBusy(p, a, w) then SetWorker(p, a, w, Retried(p.attempts[a].workers[w])) else p
    case Finish =>
      if p.phase.Running? && |p.attempts| > 0 && AllDone(p.attempts[|p.attempts| - 1].workers)
      then p.(phase := Delivered(Concat(Parts(p.attempts[|p.attempts| - 1].chunks)))) else p
    case Reset => if MayReset(p) then p.(phase := Quiet) else p
  }

  /** What a step hands to onBytesReceived. */
  function Count(blob: Bytes, p: Page, e: Event): int {
    match e
    case ReadFirst(part) => if p.phase.First? && Honest(blob, |p.phase.data|, part) then |part| else 0
    case Read(a, w, part) =>
      if IsBusy(p, a, w)
         && Honest(blob, Start(p.attempts[a].workers[w].index) + |p.attempts[a].workers[w].data|, part)
      then |part| else 0
    case EndBody(a, w) =>
      if IsBusy(p, a, w) && |p.attempts[a].workers[w].data| != RangeSize(|blob|, p.attempts[a].workers[w].index)
      then -|p.attempts[a].workers[w].data| else 0
    case Break(a, w) => if IsBusy(p, a, w) then -|p.attempts[a].workers[w].data| else 0
    case _ => 0
  }

  /** A new attempt or a reset sets the counter to zero. */
  predicate Zeroes(p: Page, e: Event) {
    (e == Open && p.phase.Quiet?) || (e == Reset && MayReset(p))
  }

  function Apply(blob: Bytes, p: Page, e: Event): Page {
    Move(blob, p, e).(received := if Zeroes(p, e) then 0 else Max(0, p.received + Count(blob, p, e)))
  }

  /** The clamp at zero swallows bytes. */
  predicate Loses(blob: Bytes, p: Page, e: Event) {
    p.received + Count(blob, p, e) < 0
  }

  function Run(blob: Bytes, p: Page, events: seq<Event>): Page {
    if events == [] then p else Apply(blob, Run(blob, p, events[..|events| - 1]), events[|events| - 1])
  }

  const FRESH: Page := Page([], Quiet, 0)

  // --- What every step keeps --------------------------------------------------------

  /** The worker holds this index, at work on it or after giving it up. */
  predicate Holds(w: Worker, index: nat) {
    (w.Fetching? || w.Failed?) && w.index == index
  }

  /** Every index is claimed once. */
  ghost predicate IndicesSound(t: Attempt) {
    && t.next >= 1
    && (forall w | 0 <= w < |t.workers| && t.workers[w] == Done :: t.next >= |t.chunks|)
    && (forall w, k: nat | 0 <= w < |t.workers| && Holds(t.workers[w], k) :: 1 <= k < t.next && k < |t.chunks|)
    && (forall v, w, k: nat | 0 <= v < |t.workers| && 0 <= w < |t.workers| ::
          Holds(t.workers[v], k) && Holds(t.workers[w], k) ==> v == w)
  }

  /** A claimed chunk that is not there yet has a worker. */
  ghost predicate Covered(t: Attempt) {
    forall k | 0 <= k < t.next && k < |t.chunks| && t.chunks[k].None? ::
      exists w | 0 <= w < |t.workers| :: Holds(t.workers[w], k)
  }

  /** Whole chunks are the file's, whoever wrote them, and so is what is under way. */
  ghost predicate DataSound(blob: Bytes, t: Attempt, made: nat) {
    && |t.chunks| == ChunkCount(|blob|)
    && (forall k | 0 <= k < |t.chunks| && t.chunks[k].Some? ::
          |t.chunks[k].value| == RangeSize(|blob|, k) && Honest(blob, Start(k), t.chunks[k].value))
    && (forall w | 0 <= w < |t.workers| && t.workers[w].Fetching? ::
          && Honest(blob, Start(t.workers[w].index), t.workers[w].data)
          && (t.workers[w].into.Some? ==> t.workers[w].into.value < made))
  }

  ghost predicate AttemptsSound(blob: Bytes, attempts: seq<Attempt>) {
    forall a | 0 <= a < |attempts| :: DataSound(blob, attempts[a], |attempts|) && IndicesSound(attempts[a])
  }

  /** The workers of the present attempt write to its own array. */
  ghost predicate AtWork(t: Attempt, self: nat) {
    && |t.workers| == Min(CONCURRENCY, |t.chunks|) && |t.chunks| > 0 && t.chunks[0].Some? && Covered(t)
    && forall w | 0 <= w < |t.workers| && t.workers[w].Fetching? :: t.workers[w].into == Some(self)
  }

  ghost predicate PhaseSound(blob: Bytes, p: Page) {
    p.phase.Quiet?
    || (&& |p.attempts| > 0
        && var t := p.attempts[|p.attempts| - 1];
           match p.phase
           case First(data) => t.workers == [] && t.next == 1 && Honest(blob, 0, data)
           case Running => AtWork(t, |p.attempts| - 1)
           case Delivered(joined) => AllDone(t.workers) && joined == blob
           case _ => true)
  }

  ghost predicate Inv(blob: Bytes, p: Page) {
    AttemptsSound(blob, p.attempts) && PhaseSound(blob, p) && p.received >= 0
  }

  // --- One attempt ----------------------------------------------------------------------

  lemma RangeInside(total: nat, k: nat)
    requires k < ChunkCount(total)
    ensures 0 <= Start(k) < End(total, k) + 1 <= total
  {
  }

  lemma NextRange(total: nat, k: nat)
    requires k < ChunkCount(total)
    ensures Min(Start(k), total) == Start(k) && Start(k) + RangeSize(total, k) == Min(Start(k + 1), total)
  {
    RangeInside(total, k);
  }

  lemma LastStart(total: nat)
    ensures Min(Start(ChunkCount(total)), total) == total
  {
  }

  lemma ClaimKeeps(blob: Bytes, t: Attempt, made: nat, w: nat, into: Option<nat>)
    requires DataSound(blob, t, made) && IndicesSound(t) && w < |t.workers| && t.workers[w] == Idle
    requires into.Some? ==> into.value < made
    ensures DataSound(blob, ClaimNext(t, w, into), made) && IndicesSound(ClaimNext(t, w, into))
    ensures Covered(t) ==> Covered(ClaimNext(t, w, into))
  {
    hide Start, End, ChunkCount;
    var u := ClaimNext(t, w, into);
    if Covered(t) {
      assert t.next < |t.chunks| ==> Holds(u.workers[w], t.next);
      forall k | 0 <= k < u.next && k < |u.chunks| && u.chunks[k].None?
        ensures exists v | 0 <= v < |u.workers| :: Holds(u.workers[v], k)
      {
        if k < t.next {
          var v :| 0 <= v < |t.workers| && Holds(t.workers[v], k);
          assert Holds(u.workers[v], k);
        }
      }
    }
  }

  /** Reading, or trying again, leaves the worker with its index. */
  lemma SameIndexKeeps(blob: Bytes, t: Attempt, made: nat, w: nat, state: Worker)
    requires DataSound(blob, t, made) && IndicesSound(t) && w < |t.workers| && t.workers[w].Fetching?
    requires Holds(state, t.workers[w].index)
    requires state.Fetching? ==> Honest(blob, Start(state.index), state.data) && state.into == t.workers[w].into
    ensures DataSound(blob, WithWorker(t, w, state), made) && IndicesSound(WithWorker(t, w, state))
    ensures Covered(t) ==> Covered(WithWorker(t, w, state))
  {
    hide Start, End, ChunkCount, Honest;
    var u := WithWorker(t, w, state);
    assert forall v, k: nat | 0 <= v < |u.workers| && Holds(u.workers[v], k) :: Holds(t.workers[v], k);
    if Covered(t) {
      forall k | 0 <= k < u.next && k < |u.chunks| && u.chunks[k].None?
        ensures exists v | 0 <= v < |u.workers| :: Holds(u.workers[v], k)
      {
        var v :| 0 <= v < |t.workers| && Holds(t.workers[v], k);
        assert Holds(u.workers[v], k);
      }
    }
  }

  /** A worker whose chunk has been written somewhere goes on to the next index. */
  lemma FreeKeeps(blob: Bytes, t: Attempt, made: nat, w: nat)
    requires DataSound(blob, t, made) && IndicesSound(t) && w < |t.workers| && t.workers[w].Fetching?
    ensures DataSound(blob, WithWorker(t, w, Idle), made) && IndicesSound(WithWorker(t, w, Idle))
    ensures Covered(t) && t.workers[w].index < |t.chunks| && t.chunks[t.workers[w].index].Some? ==>
              Covered(WithWorker(t, w, Idle))
  {
    hide Start, End, ChunkCount, Honest;
    var u := WithWorker(t, w, Idle);
    if Covered(t) && t.workers[w].index < |t.chunks| && t.chunks[t.workers[w].index].Some? {
      forall k | 0 <= k < u.next && k < |u.chunks| && u.chunks[k].None?
        ensures exists v | 0 <= v < |u.workers| :: Holds(u.workers[v], k)
      {
        var v :| 0 <= v < |t.workers| && Holds(t.workers[v], k);
        assert Holds(u.workers[v], k);
      }
    }
  }

  lemma ChunkKeeps(blob: Bytes, t: Attempt, made: nat, index: nat, data: Bytes)
    requires DataSound(blob, t, made) && IndicesSound(t) && Honest(blob, Start(index), data)
    requires |data| == RangeSize(|blob|, index)
    ensures DataSound(blob, WithChunk(t, index, data), made) && IndicesSound(WithChunk(t, index, data))
    ensures Covered(t) ==> Covered(WithChunk(t, index, data))
  {
    hide Start, End, ChunkCount, Honest;
    var u := WithChunk(t, index, data);
    if Covered(t) {
      forall k | 0 <= k < u.next && k < |u.chunks| && u.chunks[k].None?
        ensures exists v | 0 <= v < |u.workers| :: Holds(u.workers[v], k)
      {
        assert t.chunks[k].None?;
        var v :| 0 <= v < |t.workers| && Holds(t.workers[v], k);
      }
    }
  }

  // --- The page ---------------------------------------------------------------------------

  /** Replacing one attempt by a sound one. */
  lemma ReplaceKeeps(blob: Bytes, p: Page, a: nat, t: Attempt)
    requires Inv(blob, p) && a < |p.attempts| && DataSound(blob, t, |p.attempts|) && IndicesSound(t)
    requires a == |p.attempts| - 1 ==>
               PhaseSound(blob, p.(attempts := p.attempts[a := t]))
    ensures Inv(blob, p.(attempts := p.attempts[a := t]))
  {
    hide DataSound, IndicesSound, AtWork, Honest;
  }

  lemma HonestJoin(blob: Bytes, from: nat, data: Bytes, part: Bytes)
    requires Honest(blob, from, data) && Honest(blob, from + |data|, part)
    ensures Honest(blob, from, data + part)
  {
    forall i | 0 <= i < |data + part| && from + i < |blob|
      ensures (data + part)[i] == blob[from + i]
    {
      if i >= |data| { assert part[i - |data|] == blob[from + |data| + (i - |data|)]; }
    }
  }

  lemma ClaimStep(blob: Bytes, p: Page, a: nat, w: nat)
    requires Inv(blob, p) && IsIdle(p, a, w)
    ensures Inv(blob, Move(blob, p, Claim(a, w)))
  {
    hide DataSound, IndicesSound, Covered, ChunkCount;
    var t := p.attempts[a];
    ClaimKeeps(blob, t, |p.attempts|, w, Target(p));
    ReplaceKeeps(blob, p, a, ClaimNext(t, w, Target(p)));
  }

  lemma SameIndexStep(blob: Bytes, p: Page, a: nat, w: nat, state: Worker)
    requires Inv(blob, p) && IsBusy(p, a, w)
    requires
      var f := p.attempts[a].workers[w];
      && Holds(state, f.index)
      && (state.Fetching? ==> Honest(blob, Start(state.index), state.data) && state.into == f.into)
    ensures Inv(blob, SetWorker(p, a, w, state))
  {
    hide DataSound, IndicesSound, Covered, ChunkCount, Honest;
    var t := p.attempts[a];
    assert DataSound(blob, t, |p.attempts|) && IndicesSound(t);
    SameIndexKeeps(blob, t, |p.attempts|, w, state);
    ReplaceKeeps(blob, p, a, WithWorker(t, w, state));
  }

  lemma StoreStep(blob: Bytes, p: Page, into: Option<nat>, index: nat, data: Bytes)
    requires Inv(blob, p) && Honest(blob, Start(index), data) && |data| == RangeSize(|blob|, index)
    ensures Inv(blob, StoreChunk(p, into, index, data))
  {
    hide DataSound, IndicesSound, Covered, ChunkCount, Honest, Start, End;
    if into.Some? && into.value < |p.attempts| {
      var t := p.attempts[into.value];
      ChunkKeeps(blob, t, |p.attempts|, index, data);
      ReplaceKeeps(blob, p, into.value, WithChunk(t, index, data));
    }
  }

  /** The worker's chunk is in its array by now. */
  lemma FreeStep(blob: Bytes, p: Page, a: nat, w: nat)
    requires Inv(blob, p) && IsBusy(p, a, w)
    requires
      var f := p.attempts[a].workers[w];
      f.into == Some(a) ==> f.index < |p.attempts[a].chunks| && p.attempts[a].chunks[f.index].Some?
    ensures Inv(blob, SetWorker(p, a, w, Idle))
  {
    hide DataSound, IndicesSound, Covered, ChunkCount, Honest;
    var t := p.attempts[a];
    FreeKeeps(blob, t, |p.attempts|, w);
    ReplaceKeeps(blob, p, a, WithWorker(t, w, Idle));
  }

  lemma HeldInside(blob: Bytes, p: Page, a: nat, w: nat)
    requires Inv(blob, p) && IsBusy(p, a, w)
    ensures
      var f := p.attempts[a].workers[w];
      && f.index < |p.attempts[a].chunks| == ChunkCount(|blob|) && Honest(blob, Start(f.index), f.data)
      && (f.into.Some? ==> f.into.value < |p.attempts|)
  {
    assert IndicesSound(p.attempts[a]) && DataSound(blob, p.attempts[a], |p.attempts|);
    assert Holds(p.attempts[a].workers[w], p.attempts[a].workers[w].index);
  }

  lemma EndBodyStep(blob: Bytes, p: Page, a: nat, w: nat)
    requires Inv(blob, p) && IsBusy(p, a, w)
    ensures Inv(blob, Move(blob, p, EndBody(a, w)))
  {
    hide AttemptsSound, PhaseSound, ChunkCount, Honest, Start, End;
    HeldInside(blob, p, a, w);
    var f := p.attempts[a].workers[w];
    if |f.data| != RangeSize(|blob|, f.index) {
      NothingIsHonest(blob, Start(f.index));
      SameIndexStep(blob, p, a, w, Retried(f));
    } else {
      var stored := StoreChunk(p, f.into, f.index, f.data);
      StoreStep(blob, p, f.into, f.index, f.data);
      FreeStep(blob, stored, a, w);
      assert SetWorker(stored, a, w, Idle) == StoreChunk(SetWorker(p, a, w, Idle), f.into, f.index, f.data);
    }
  }

  lemma NothingIsHonest(blob: Bytes, from: nat)
    ensures Honest(blob, from, [])
  {
  }

  lemma OpenStep(blob: Bytes, p: Page)
    requires Inv(blob, p) && blob != []
    ensures Inv(blob, Move(blob, p, Open))
  {
    hide ChunkCount, Start, End, Honest, AtWork;
    NothingIsHonest(blob, 0);
    assert forall a | 0 <= a < |p.attempts| ::
      DataSound(blob, p.attempts[a], |p.attempts|) ==> DataSound(blob, p.attempts[a], |p.attempts| + 1);
    var begun := Attempt(1, seq(ChunkCount(|blob|), k => None), []);
    assert DataSound(blob, begun, |p.attempts| + 1) && IndicesSound(begun);
  }

  lemma EndFirstStep(blob: Bytes, p: Page)
    requires Inv(blob, p) && blob != []
    ensures Inv(blob, Move(blob, p, EndFirst))
  {
    if p.phase.First? && |p.phase.data| == RangeSize(|blob|, 0) {
      var last := |p.attempts| - 1;
      var t := p.attempts[last];
      ChunkKeeps(blob, t, |p.attempts|, 0, p.phase.data);
      var ready := WithChunk(t, 0, p.phase.data).(workers := seq(Min(CONCURRENCY, ChunkCount(|blob|)), w => Idle));
      assert ChunkCount(|blob|) > 0;
      hide ChunkCount, Start, End, Honest;
      assert DataSound(blob, ready, |p.attempts|) && IndicesSound(ready) && AtWork(ready, last);
    }
  }

  function RangeBytes(blob: Bytes, k: nat): Bytes
    requires k < ChunkCount(|blob|)
  {
    RangeInside(|blob|, k);
    blob[Start(k)..End(|blob|, k) + 1]
  }

  lemma HonestIsSlice(blob: Bytes, k: nat, data: Bytes)
    requires k < ChunkCount(|blob|) && |data| == RangeSize(|blob|, k) && Honest(blob, Start(k), data)
    ensures data == RangeBytes(blob, k)
  {
    RangeInside(|blob|, k);
    hide Start, End, ChunkCount;
    var from := Start(k);
    forall i | 0 <= i < |data|
      ensures data[i] == RangeBytes(blob, k)[i]
    {
      assert data[i] == blob[from + i];
    }
  }

  lemma {:induction false} JoinedPrefix(blob: Bytes, parts: seq<Bytes>, n: nat)
    requires n <= |parts| == ChunkCount(|blob|)
    requires forall k | 0 <= k < |parts| :: parts[k] == RangeBytes(blob, k)
    ensures Concat(parts[..n]) == blob[..Min(Start(n), |blob|)]
  {
    hide Start, End, ChunkCount;
    if n == 0 {
      StartsAtZero();
      assert parts[..0] == [];
    } else {
      JoinedPrefix(blob, parts, n - 1);
      ConcatTake(parts, n - 1);
      RangeInside(|blob|, n - 1);
      NextRange(|blob|, n - 1);
      assert blob[..Start(n - 1)] + RangeBytes(blob, n - 1) == blob[..End(|blob|, n - 1) + 1];
    }
  }

  lemma StartsAtZero()
    ensures Start(0) == 0
  {
  }

  /** Once all workers have returned, every chunk is there and the join is the blob. */
  lemma JoinedIsWhole(blob: Bytes, t: Attempt, made: nat, self: nat)
    requires DataSound(blob, t, made) && IndicesSound(t) && AtWork(t, self) && AllDone(t.workers)
    ensures (forall k | 0 <= k < |t.chunks| :: t.chunks[k].Some?) && Concat(Parts(t.chunks)) == blob
  {
    hide Start, End, ChunkCount, Honest;
    assert t.workers[0] == Done;
    forall k | 0 <= k < |t.chunks|
      ensures t.chunks[k].Some?
    {
      assert forall w | 0 <= w < |t.workers| :: !Holds(t.workers[w], k);
    }
    var parts := Parts(t.chunks);
    forall k | 0 <= k < |parts|
      ensures parts[k] == RangeBytes(blob, k)
    {
      HonestIsSlice(blob, k, t.chunks[k].value);
    }
    JoinedPrefix(blob, parts, |parts|);
    LastStart(|blob|);
    assert parts[..|parts|] == parts && blob[..|blob|] == blob;
  }

  lemma MoveInv(blob: Bytes, p: Page, e: Event)
    requires Inv(blob, p) && blob != []
    ensures Inv(blob, Move(blob, p, e))
  {
    hide DataSound, IndicesSound, Covered, ChunkCount, Start, End, Honest;
    match e
    case Open => OpenStep(blob, p);
    case ReadFirst(part) =>
      if p.phase.First? && Honest(blob, |p.phase.data|, part) { HonestJoin(blob, 0, p.phase.data, part); }
    case EndFirst => EndFirstStep(blob, p);
    case Claim(a, w) => if IsIdle(p, a, w) { ClaimStep(blob, p, a, w); }
    case Read(a, w, part) =>
      if IsBusy(p, a, w) {
        var f := p.attempts[a].workers[w];
        HeldInside(blob, p, a, w);
        if Honest(blob, Start(f.index) + |f.data|, part) {
          HonestJoin(blob, Start(f.index), f.data, part);
          SameIndexStep(blob, p, a, w, f.(data := f.data + part));
        }
      }
    case EndBody(a, w) => if IsBusy(p, a, w) { EndBodyStep(blob, p, a, w); }
    case Break(a, w) =>
      if IsBusy(p, a, w) {
        NothingIsHonest(blob, Start(p.attempts[a].workers[w].index));
        SameIndexStep(blob, p, a, w, Retried(p.attempts[a].workers[w]));
      }
    case Finish =>
      var last := |p.attempts| - 1;
      if p.phase.Running? && |p.attempts| > 0 && AllDone(p.attempts[last].workers) {
        assert DataSound(blob, p.attempts[last], |p.attempts|) && IndicesSound(p.attempts[last]);
        JoinedIsWhole(blob, p.attempts[last], |p.attempts|, last);
      }
    case Reset =>
  }

  lemma StepInv(blob: Bytes, p: Page, e: Event)
    requires Inv(blob, p) && blob != []
    ensures Inv(blob, Apply(blob, p, e))
  {
    MoveInv(blob, p, e);
    hide Move, Count, AttemptsSound;
  }
}
