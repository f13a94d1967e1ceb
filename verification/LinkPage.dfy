/** The link page's shared download state as the code updates it, each change proved to
    be its step of the machine. */
module LinkPage {
  import opened Prelude
  import opened FileFormat
  import opened LinkDownload

  class DownloadPage {
    const blob: Bytes
    var attempts: seq<Attempt>
    var phase: Phase
    var received: int

    ghost function View(): Page
      reads this
    {
      Page(attempts, phase, received)
    }

    constructor (blob: Bytes)
      ensures this.blob == blob && View() == FRESH
    {
      this.blob, attempts, phase, received := blob, [], Quiet, 0;
    }

    method OnBytesReceived(count: int)
      modifies this`received
      ensures received == Max(0, old(received) + count)
    {
      received := received + count;
      if received < 0 {
        received := 0;
      }
    }

    /** Until the first response's headers. */
    method OpenAttempt()
      requires phase.Quiet?
      modifies this
      ensures View() == Apply(blob, old(View()), Open)
    {
      received := 0;
      attempts := attempts + [Attempt(1, seq(ChunkCount(|blob|), k => None), [])];
      phase := First([]);
    }

    method ResetDownloadState()
      requires MayReset(View())
      modifies this`phase, this`received
      ensures View() == Apply(blob, old(View()), Reset)
    {
      phase, received := Quiet, 0;
    }

    /** The head of a worker's loop; false means the worker returns. The array the chunk
        will go to is the one the page has now. */
    method ClaimIndex(a: nat, w: nat) returns (more: bool)
      requires IsIdle(View(), a, w) && received >= 0
      modifies this
      ensures View() == Apply(blob, old(View()), Claim(a, w))
      ensures more <==> old(attempts[a].next) < |old(attempts[a].chunks)|
    {
      var t := attempts[a];
      var index := t.next;
      t := t.(next := index + 1);
      more := index < |t.chunks|;
      var into := if phase.Quiet? then None else Some(|attempts| - 1);
      t := t.(workers := t.workers[w := if more then Fetching(index, 0, [], into) else Done]);
      attempts := attempts[a := t];
    }

    /** One value of the body's reader; a server may send more than the range. */
    method ReadPart(a: nat, w: nat, part: Bytes)
      requires IsBusy(View(), a, w)
      requires Honest(blob, Start(attempts[a].workers[w].index) + |attempts[a].workers[w].data|, part)
      modifies this
      ensures View() == Apply(blob, old(View()), Read(a, w, part))
    {
      var f := attempts[a].workers[w];
      attempts := attempts[a := WithWorker(attempts[a], w, f.(data := f.data + part))];
      OnBytesReceived(|part|);
    }

    /** A failed try: its bytes are taken back and the range is asked for again. */
    method FailTry(a: nat, w: nat)
      requires IsBusy(View(), a, w)
      modifies this
      ensures View() == Apply(blob, old(View()), Break(a, w))
    {
      var f := attempts[a].workers[w];
      OnBytesReceived(-|f.data|);
      var next := if f.tries + 1 < MAX_RETRIES then f.(tries := f.tries + 1, data := []) else Failed(f.index);
      attempts := attempts[a := WithWorker(attempts[a], w, next)];
    }

    /** The end of a body: kept when it has the length of the range, in the array the
        worker has held since it claimed the index. */
    method EndResponse(a: nat, w: nat) returns (stored: bool)
      requires IsBusy(View(), a, w) && received >= 0
      modifies this
      ensures View() == Apply(blob, old(View()), EndBody(a, w))
      ensures stored <==> |old(attempts[a].workers[w]).data| == RangeSize(|blob|, old(attempts[a].workers[w]).index)
    {
      var f := attempts[a].workers[w];
      stored := |f.data| == End(|blob|, f.index) - Start(f.index) + 1;
      if !stored {
        FailTry(a, w);
        return;
      }
      attempts := attempts[a := WithWorker(attempts[a], w, Idle)];
      if f.into.Some? && f.into.value < |attempts| && f.index < |attempts[f.into.value].chunks| {
        var t := attempts[f.into.value];
        attempts := attempts[f.into.value := t.(chunks := t.chunks[f.index := Some(f.data)])];
      }
    }
  }
}
