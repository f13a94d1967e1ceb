/** What every event of a link download changes, and that a download left alone delivers. */
module LinkCalls {
  import opened Prelude
  import opened FileFormat
  import opened LinkDownload
  import opened LinkGuarantees

  // --- What changes ------------------------------------------------------------------------

  predicate Fetches(p: Page, a: nat, w: nat) {
    a < |p.attempts| && w < |p.attempts[a].workers| && p.attempts[a].workers[w].Fetching?
  }

  /** A reader's value is what the file has there, as far as the file goes. */
  predicate IsPart(blob: Bytes, from: nat, part: Bytes) {
    forall i | 0 <= i < |part| && from + i < |blob| :: part[i] == blob[from + i]
  }

  /** The first range has arrived in full. */
  predicate FirstArrives(blob: Bytes, p: Page, e: Event) {
    e == EndFirst && p.phase.First? && p.attempts != [] && |p.phase.data| == Min(|blob|, DOWNLOAD_CHUNK_SIZE)
  }

  /** A response has ended with the length of its range. */
  predicate Arrives(blob: Bytes, p: Page, e: Event, a: nat, w: nat) {
    && e == EndBody(a, w) && Fetches(p, a, w)
    && var f := p.attempts[a].workers[w];
       |f.data| == Min(|blob|, (f.index + 1) * DOWNLOAD_CHUNK_SIZE) - f.index * DOWNLOAD_CHUNK_SIZE
  }

  /** A try is over without the range: it broke, or ended at another length. */
  predicate Breaks(blob: Bytes, p: Page, e: Event, a: nat, w: nat) {
    Fetches(p, a, w) && (e == Break(a, w) || (e == EndBody(a, w) && !Arrives(blob, p, e, a, w)))
  }

  predicate Reads(blob: Bytes, p: Page, e: Event, a: nat, w: nat) {
    && e.Read? && e.a == a && e.w == w && Fetches(p, a, w)
    && IsPart(blob, p.attempts[a].workers[w].index * DOWNLOAD_CHUNK_SIZE + |p.attempts[a].workers[w].data|, e.part)
  }

  predicate Takes(p: Page, e: Event, a: nat, w: nat) {
    e == Claim(a, w) && a < |p.attempts| && w < |p.attempts[a].workers| && p.attempts[a].workers[w] == Idle
  }

  /** What becomes of one worker. */
  function After(blob: Bytes, p: Page, e: Event, a: nat, w: nat): Worker
    requires a < |p.attempts| && w < |p.attempts[a].workers|
  {
    var t, f := p.attempts[a], p.attempts[a].workers[w];
    if Takes(p, e, a, w) then
      if t.next >= |t.chunks| then Done
      else Fetching(t.next, 0, [], if p.phase == Quiet then None else Some(|p.attempts| - 1))
    else if Reads(blob, p, e, a, w) then f.(data := f.data + e.part)
    else if Arrives(blob, p, e, a, w) then Idle
    else if Breaks(blob, p, e, a, w) then
      if f.tries >= 4 then Failed(f.index) else Fetching(f.index, f.tries + 1, [], f.into)
    else f
  }

  predicate WorkerFollows(blob: Bytes, p: Page, e: Event, a: nat, w: nat)
    requires a < |p.attempts|
  {
    var q := Apply(blob, p, e);
    && |q.attempts| >= |p.attempts|
    && if FirstArrives(blob, p, e) && a == |p.attempts| - 1 then
         |q.attempts[a].workers| == Min(4, ChunkCount(|blob|))
         && (w < |q.attempts[a].workers| ==> q.attempts[a].workers[w] == Idle)
       else
         |q.attempts[a].workers| == |p.attempts[a].workers|
         && (w < |p.attempts[a].workers| ==> q.attempts[a].workers[w] == After(blob, p, e, a, w))
  }

  lemma ResponsesFollow(blob: Bytes, p: Page, e: Event, a: nat, w: nat)
    requires a < |p.attempts| && (e.EndBody? || e.Break?)
    ensures WorkerFollows(blob, p, e, a, w)
  {
    hide ChunkCount;
  }

  lemma OthersFollow(blob: Bytes, p: Page, e: Event, a: nat, w: nat)
    requires a < |p.attempts| && !e.EndBody? && !e.Break?
    ensures WorkerFollows(blob, p, e, a, w)
  {
    hide CeilDiv;
  }

  lemma WorkersChangeExactly(blob: Bytes, p: Page, e: Event, a: nat, w: nat)
    requires a < |p.attempts|
    ensures WorkerFollows(blob, p, e, a, w)
  {
    hide WorkerFollows;
    if e.EndBody? || e.Break? { ResponsesFollow(blob, p, e, a, w); } else { OthersFollow(blob, p, e, a, w); }
  }

  /** A chunk is written by the worker that holds this array, with its whole range, or as the
      first range; a claim takes the next index. */
  predicate ChunkFollows(blob: Bytes, p: Page, e: Event, a: nat, k: nat)
    requires a < |p.attempts|
  {
    var q, t := Apply(blob, p, e), p.attempts[a];
    && |q.attempts| >= |p.attempts| && |q.attempts[a].chunks| == |t.chunks|
    && q.attempts[a].next == t.next + (if e.Claim? && e.a == a && Takes(p, e, a, e.w) then 1 else 0)
    && (k < |t.chunks| ==>
          q.attempts[a].chunks[k] ==
          if FirstArrives(blob, p, e) && a == |p.attempts| - 1 && k == 0 then Some(p.phase.data)
          else if e.EndBody? && Arrives(blob, p, e, e.a, e.w) && p.attempts[e.a].workers[e.w].into == Some(a)
                  && p.attempts[e.a].workers[e.w].index == k
          then Some(p.attempts[e.a].workers[e.w].data) else t.chunks[k])
  }

  lemma ChunksChangeExactly(blob: Bytes, p: Page, e: Event, a: nat, k: nat)
    requires a < |p.attempts|
    ensures ChunkFollows(blob, p, e, a, k)
  {
    hide CeilDiv;
  }

  /** Every worker has returned; one has given up. */
  predicate Returned(workers: seq<Worker>) {
    forall w | 0 <= w < |workers| :: workers[w].Done?
  }

  predicate HasFailed(workers: seq<Worker>) {
    exists w | 0 <= w < |workers| :: workers[w].Failed?
  }

  /** Where the page stands, how many attempts it has made, and what it shows as received. */
  predicate PageFollows(blob: Bytes, p: Page, e: Event) {
    var q := Apply(blob, p, e);
    var opens := e == Open && p.phase == Quiet;
    var present := if p.attempts == [] then [] else p.attempts[|p.attempts| - 1].workers;
    var resets := e == Reset && (p.phase.Running? ==> HasFailed(present));
    var first := e.ReadFirst? && p.phase.First? && IsPart(blob, |p.phase.data|, e.part);
    && |q.attempts| == |p.attempts| + (if opens then 1 else 0)
    && (opens ==> q.attempts[|p.attempts|].next == 1 && q.attempts[|p.attempts|].workers == []
                  && |q.attempts[|p.attempts|].chunks| == ChunkCount(|blob|)
                  && forall k | 0 <= k < ChunkCount(|blob|) :: q.attempts[|p.attempts|].chunks[k] == None)
    && q.phase == (if opens then First([]) else if resets then Quiet
                   else if first then First(p.phase.data + e.part)
                   else if FirstArrives(blob, p, e) then Running
                   else if e == Finish && p.phase.Running? && p.attempts != [] && Returned(present)
                   then Delivered(Concat(Parts(p.attempts[|p.attempts| - 1].chunks)))
                   else p.phase)
    && q.received == (if opens || resets then 0
                      else Max(0, p.received + if first then |e.part|
                                               else if e.Read? && Reads(blob, p, e, e.a, e.w) then |e.part|
                                               else if (e.EndBody? || e.Break?) && Breaks(blob, p, e, e.a, e.w)
                                               then -|p.attempts[e.a].workers[e.w].data| else 0))
  }

  lemma PageChangesExactly(blob: Bytes, p: Page, e: Event)
    ensures PageFollows(blob, p, e)
  {
    hide CeilDiv, Parts, Concat;
  }

  // --- A download that delivers --------------------------------------------------------------

  /** One attempt, the ranges before k in its array, and its workers between two claims. */
  predicate Fetched(blob: Bytes, p: Page, k: nat) {
    && p.phase.Running? && |p.attempts| == 1 && p.attempts[0].next == k
    && |p.attempts[0].chunks| == ChunkCount(|blob|) && |p.attempts[0].workers| == Min(4, ChunkCount(|blob|))
    && forall w | 0 <= w < |p.attempts[0].workers| :: p.attempts[0].workers[w] == Idle
  }

  lemma FirstArrived(blob: Bytes) returns (events: seq<Event>)
    requires blob != []
    ensures Fetched(blob, Run(blob, FRESH, events), 1)
  {
    hide Run;
    RunOne(blob, FRESH, [], Open);
    RangeInside(|blob|, 0);
    var first := blob[..RangeSize(|blob|, 0)];
    assert Start(0) == 0 && [] + first == first;
    hide ChunkCount, Start, End, RangeSize;
    events := Extended(blob, [], Open);
    events := Extended(blob, events, ReadFirst(first));
    events := Extended(blob, events, EndFirst);
  }

  lemma OneRange(blob: Bytes, p: Page, k: nat)
    requires Fetched(blob, p, k) && k < ChunkCount(|blob|)
    ensures
      var q := Apply(blob, p, Claim(0, 0));
      var r := Apply(blob, q, Read(0, 0, RangeBytes(blob, k)));
      Fetched(blob, Apply(blob, r, EndBody(0, 0)), k + 1)
  {
    RangeInside(|blob|, k);
    var range := RangeBytes(blob, k);
    assert [] + range == range && |range| == RangeSize(|blob|, k) && Honest(blob, Start(k), range);
    hide ChunkCount, Start, End, RangeSize, RangeBytes;
  }

  lemma {:induction false} RangesArrived(blob: Bytes, k: nat) returns (events: seq<Event>)
    requires blob != [] && 1 <= k <= ChunkCount(|blob|)
    ensures Fetched(blob, Run(blob, FRESH, events), k)
  {
    hide Run, Apply, Fetched, RangeBytes;
    if k == 1 {
      events := FirstArrived(blob);
    } else {
      events := RangesArrived(blob, k - 1);
      OneRange(blob, Run(blob, FRESH, events), k - 1);
      var range := RangeBytes(blob, k - 1);
      events := Extended(blob, events, Claim(0, 0));
      events := Extended(blob, events, Read(0, 0, range));
      events := Extended(blob, events, EndBody(0, 0));
    }
  }

  /** The first m workers have found nothing left. */
  predicate Leaving(blob: Bytes, p: Page, m: nat) {
    && p.phase.Running? && |p.attempts| == 1 && p.attempts[0].next >= |p.attempts[0].chunks|
    && |p.attempts[0].workers| == Min(4, ChunkCount(|blob|)) >= m
    && forall w | 0 <= w < |p.attempts[0].workers| :: p.attempts[0].workers[w] == if w < m then Done else Idle
  }

  lemma OneLeaves(blob: Bytes, p: Page, m: nat)
    requires Leaving(blob, p, m) && m < Min(4, ChunkCount(|blob|))
    ensures Leaving(blob, Apply(blob, p, Claim(0, m)), m + 1)
  {
    hide ChunkCount;
  }

  lemma {:induction false} WorkersLeave(blob: Bytes, m: nat) returns (events: seq<Event>)
    requires blob != [] && m <= Min(4, ChunkCount(|blob|))
    ensures Leaving(blob, Run(blob, FRESH, events), m)
  {
    hide Run, Apply, ChunkCount;
    if m == 0 {
      HasChunks(blob);
      events := RangesArrived(blob, ChunkCount(|blob|));
    } else {
      events := WorkersLeave(blob, m - 1);
      OneLeaves(blob, Run(blob, FRESH, events), m - 1);
      events := Extended(blob, events, Claim(0, m - 1));
    }
  }

  lemma HasChunks(blob: Bytes)
    requires blob != []
    ensures ChunkCount(|blob|) >= 1
  {
  }

  /** Some download of every file that is not empty delivers it. */
  lemma DownloadDelivers(blob: Bytes) returns (events: seq<Event>)
    requires blob != []
    ensures Run(blob, FRESH, events).phase == Delivered(blob)
  {
    HasChunks(blob);
    hide Run, ChunkCount, Parts, Concat;
    events := WorkersLeave(blob, Min(4, ChunkCount(|blob|)));
    events := Extended(blob, events, Finish);
    DownloadIsWhole(blob, events);
  }
}
