/**
 * The experiment runner of pkg/sim/runner.go, as the steps its goroutines
 * take: the generator's loop iteration, an upload worker's handling of one
 * upload event, a download worker's handling of one download event, the
 * idempotent stop, and Run's closing of the download queue. The queues are
 * sequences and the `done` channel a flag; every step is one atomic move of
 * the whole runner, and any order of steps is a possible schedule.
 *
 * The querier and the download-delay sampler are inputs: a step receives the
 * outcomes of the calls it makes, and the ghost field `calls` records which
 * calls were made, in order.
 */
module Runner {
  import opened Results
  import opened SimTypes
  import opened Samplers

  /** Capacity of the upload-event queue. */
  const ToUploadSlack := 16

  /** Capacity of the download-event queue. */
  const ToDownloadSlack := 16

  /** A call the runner makes on the querier or on the download-delay sampler. */
  datatype Call =
    | UploadCall(author: Author, content: seq<byte>)
    | ShareCall(author: Author, env: Envelope, reader: PublicKey)
    | DelaySample
    | DownloadCall(to: Option<Author>, envKey: EnvKey)

  // ------------------------------------------------------------- fan-out

  /**
   * The download events an upload worker pushes for one uploaded envelope:
   * for each recipient in order whose share succeeded (`shared(i)` is the
   * outcome of the share call for recipient `i`), one event for the author
   * that the directory's records resolve the recipient to.
   */
  function FanOut(shareWith: seq<PublicKey>, shared: nat -> Option<EnvKey>,
                  records: seq<(string, Author)>, keyHex: PublicKey -> string): seq<DownloadEvent>
  {
    if shareWith == [] then []
    else
      var i := |shareWith| - 1;
      FanOut(shareWith[..i], shared, records, keyHex) +
        match shared(i)
        case None => []
        case Some(key) => [DownloadEvent(LastRecorded(records, keyHex(shareWith[i])), key)]
  }

  /** Sharing with one more recipient appends its share call and, if the share succeeded, its download event. */
  lemma FanOutStep(before: seq<DownloadEvent>, shareWith: seq<PublicKey>, shared: nat -> Option<EnvKey>,
                   records: seq<(string, Author)>, keyHex: PublicKey -> string, i: nat)
    requires i < |shareWith|
    ensures shared(i).None? ==>
      before + FanOut(shareWith[..i + 1], shared, records, keyHex) == before + FanOut(shareWith[..i], shared, records, keyHex)
    ensures shared(i).Some? ==>
      before + FanOut(shareWith[..i + 1], shared, records, keyHex) ==
        before + FanOut(shareWith[..i], shared, records, keyHex) +
          [DownloadEvent(LastRecorded(records, keyHex(shareWith[i])), shared(i).value)]
  {
    assert shareWith[..i + 1][..i] == shareWith[..i];
  }

  /** The share calls made for one uploaded envelope: one per recipient, in order. */
  function ShareCalls(from: Author, env: Envelope, shareWith: seq<PublicKey>): (cs: seq<Call>)
    ensures |cs| == |shareWith|
    ensures forall i :: 0 <= i < |shareWith| ==> cs[i] == ShareCall(from, env, shareWith[i])
  {
    if shareWith == [] then []
    else ShareCalls(from, env, shareWith[..|shareWith| - 1]) + [ShareCall(from, env, shareWith[|shareWith| - 1])]
  }

  lemma ShareCallsStep(before: seq<Call>, from: Author, env: Envelope, shareWith: seq<PublicKey>, i: nat)
    requires i < |shareWith|
    ensures before + ShareCalls(from, env, shareWith[..i + 1]) ==
      before + ShareCalls(from, env, shareWith[..i]) + [ShareCall(from, env, shareWith[i])]
  {
    assert shareWith[..i + 1][..i] == shareWith[..i];
  }

  /** The positions below `n` whose share succeeded, in increasing order. */
  function SuccessIndices(shared: nat -> Option<EnvKey>, n: nat): (idx: seq<nat>)
    ensures |idx| <= n
    ensures forall j :: 0 <= j < |idx| ==> idx[j] < n && shared(idx[j]).Some?
    ensures forall j, k :: 0 <= j < k < |idx| ==> idx[j] < idx[k]
    ensures forall i :: 0 <= i < n && shared(i).Some? ==> i in idx
  {
    if n == 0 then []
    else SuccessIndices(shared, n - 1) + (if shared(n - 1).Some? then [n - 1] else [])
  }

  /**
   * The fan-out holds one event per successful share, and the j-th event
   * belongs to the j-th successful recipient: events keep their recipients'
   * relative order.
   */
  lemma {:induction false} FanOutFollowsSuccesses(shareWith: seq<PublicKey>, shared: nat -> Option<EnvKey>,
                                                  records: seq<(string, Author)>, keyHex: PublicKey -> string)
    ensures var out, idx := FanOut(shareWith, shared, records, keyHex), SuccessIndices(shared, |shareWith|);
      && |out| == |idx|
      && forall j :: 0 <= j < |out| ==>
           out[j] == DownloadEvent(LastRecorded(records, keyHex(shareWith[idx[j]])), shared(idx[j]).value)
  {
    if shareWith != [] {
      var i := |shareWith| - 1;
      var prefix := shareWith[..i];
      FanOutFollowsSuccesses(prefix, shared, records, keyHex);
      var out0, idx0 := FanOut(prefix, shared, records, keyHex), SuccessIndices(shared, i);
      var out, idx := FanOut(shareWith, shared, records, keyHex), SuccessIndices(shared, |shareWith|);
      assert idx == idx0 + (if shared(i).Some? then [i] else []);
      forall j | 0 <= j < |out|
        ensures out[j] == DownloadEvent(LastRecorded(records, keyHex(shareWith[idx[j]])), shared(idx[j]).value)
      {
        if j < |out0| {
          assert out[j] == out0[j] && idx[j] == idx0[j];
          assert shareWith[idx0[j]] == prefix[idx0[j]];
        } else {
          assert idx[j] == i;
        }
      }
    }
  }

  /** When every share succeeds, every position is a success. */
  lemma {:induction false} AllSharesSucceed(shared: nat -> Option<EnvKey>, n: nat)
    requires forall i :: 0 <= i < n ==> shared(i).Some?
    ensures |SuccessIndices(shared, n)| == n
  {
    if n > 0 {
      AllSharesSucceed(shared, n - 1);
    }
  }

  /** When exactly one share fails, all positions but that one are successes. */
  lemma {:induction false} OneShareFails(shared: nat -> Option<EnvKey>, n: nat, failed: nat)
    requires failed < n && shared(failed).None?
    requires forall i :: 0 <= i < n && i != failed ==> shared(i).Some?
    ensures |SuccessIndices(shared, n)| == n - 1
  {
    if n - 1 == failed {
      AllSharesSucceed(shared, n - 1);
    } else {
      OneShareFails(shared, n - 1, failed);
    }
  }

  /** With k recipients and every share succeeding, k download events are pushed. */
  lemma FanOutAllSucceed(shareWith: seq<PublicKey>, shared: nat -> Option<EnvKey>,
                         records: seq<(string, Author)>, keyHex: PublicKey -> string)
    requires forall i :: 0 <= i < |shareWith| ==> shared(i).Some?
    ensures |FanOut(shareWith, shared, records, keyHex)| == |shareWith|
  {
    FanOutFollowsSuccesses(shareWith, shared, records, keyHex);
    AllSharesSucceed(shared, |shareWith|);
  }

  /** With k recipients and exactly one share failing, k - 1 download events are pushed. */
  lemma FanOutOneFails(shareWith: seq<PublicKey>, shared: nat -> Option<EnvKey>,
                       records: seq<(string, Author)>, keyHex: PublicKey -> string, failed: nat)
    requires failed < |shareWith| && shared(failed).None?
    requires forall i :: 0 <= i < |shareWith| && i != failed ==> shared(i).Some?
    ensures |FanOut(shareWith, shared, records, keyHex)| == |shareWith| - 1
  {
    FanOutFollowsSuccesses(shareWith, shared, records, keyHex);
    OneShareFails(shared, |shareWith|, failed);
  }

  /** Never more download events than recipients. */
  lemma FanOutBounded(shareWith: seq<PublicKey>, shared: nat -> Option<EnvKey>,
                      records: seq<(string, Author)>, keyHex: PublicKey -> string)
    ensures |FanOut(shareWith, shared, records, keyHex)| <= |shareWith|
  {
    FanOutFollowsSuccesses(shareWith, shared, records, keyHex);
  }

  /** Every recipient whose key hex is recorded resolves to an author, so the fan-out carries no nil author. */
  lemma {:induction false} FanOutResolves(shareWith: seq<PublicKey>, shared: nat -> Option<EnvKey>,
                                         records: seq<(string, Author)>, keyHex: PublicKey -> string)
    requires forall i :: 0 <= i < |shareWith| ==> keyHex(shareWith[i]) in Replay(records)
    ensures forall e :: e in FanOut(shareWith, shared, records, keyHex) ==> e.to.Some?
  {
    if shareWith != [] {
      var i := |shareWith| - 1;
      FanOutResolves(shareWith[..i], shared, records, keyHex);
      ReplayFindsLastRecorded(records, keyHex(shareWith[i]));
    }
  }

  /** Every recipient of `e` has its key hex in `pubs`. */
  predicate ResolvesIn(e: UploadEvent, keyHex: PublicKey -> string, pubs: map<string, Author>) {
    forall i :: 0 <= i < |e.shareWith| ==> keyHex(e.shareWith[i]) in pubs
  }

  /** Queued events stay resolvable as the directory's map gains keys. */
  lemma ResolvesGrow(queue: seq<UploadEvent>, keyHex: PublicKey -> string, before: map<string, Author>, after: map<string, Author>)
    requires before.Keys <= after.Keys
    requires forall e :: e in queue ==> ResolvesIn(e, keyHex, before)
    ensures forall e :: e in queue ==> ResolvesIn(e, keyHex, after)
  {
  }

  /** Once the share loop has visited every recipient, the queue holds the whole fan-out, every event addressed. */
  lemma ShareLoopDone(before: seq<DownloadEvent>, after: seq<DownloadEvent>, shareWith: seq<PublicKey>,
                      shared: nat -> Option<EnvKey>, records: seq<(string, Author)>, keyHex: PublicKey -> string)
    requires forall e :: e in before ==> e.to.Some?
    requires forall i :: 0 <= i < |shareWith| ==> keyHex(shareWith[i]) in Replay(records)
    requires after == before + FanOut(shareWith[..|shareWith|], shared, records, keyHex)
    ensures after == before + FanOut(shareWith, shared, records, keyHex)
    ensures forall e :: e in after ==> e.to.Some?
  {
    assert shareWith[..|shareWith|] == shareWith;
    FanOutResolves(shareWith, shared, records, keyHex);
  }

  // -------------------------------------------------------------- runner

  /** What one generator iteration did. */
  datatype GenStatus =
    | Pushed              // an event entered toUpload
    | Waiting             // toUpload is full; the sampled event waits to be sent
    | ClosedQueue         // done was seen: toUpload is closed and the generator returns
    | GeneratorGone       // the generator had already returned
    | Crashed(cause: Panic)

  /** What one worker step did. */
  datatype StepStatus =
    | NoWorker      // every worker of this pool has returned
    | Starved       // the queue is empty but open: the worker waits
    | QueueDrained  // the queue is closed and empty: the worker's range loop ends
    | Dropped       // the upload or download failed: the worker goes on
    | Handled       // the event was handled and done is open: the worker goes on
    | Stopped       // the event was handled and done is closed: the worker returns

  class Runner {
    const dir: Directory
    const nSharesPerUpload: nat
    var toUpload: seq<UploadEvent>
    var toUploadClosed: bool
    var toDownload: seq<DownloadEvent>
    var toDownloadClosed: bool
    var done: bool
    /** An event the generator sampled but could not yet send. */
    var pending: Option<UploadEvent>
    var generatorRunning: bool
    /** Number of upload and download workers that have not returned. */
    var uploaders: nat
    var downloaders: nat
    ghost var doneCloses: nat
    ghost var toUploadCloses: nat
    ghost var toDownloadCloses: nat
    ghost var calls: seq<Call>

    ghost predicate Resolvable(e: UploadEvent)
      reads dir
    {
      ResolvesIn(e, dir.keyHex, dir.authorPubs)
    }

    ghost predicate Valid()
      reads this, dir
    {
      && dir.Valid() && dir.FullKeychains()
      && |toUpload| <= ToUploadSlack
      && doneCloses == (if done then 1 else 0)
      && toUploadCloses == (if toUploadClosed then 1 else 0)
      && toDownloadCloses == (if toDownloadClosed then 1 else 0)
      && (toUploadClosed <==> !generatorRunning)
      && (toUploadClosed ==> done && pending.None?)
      && (toDownloadClosed ==> done && uploaders == 0)
      && (forall e :: e in toUpload ==> Resolvable(e))
      && (pending.Some? ==> Resolvable(pending.value))
      && (forall e :: e in toDownload ==> e.to.Some?)
    }

    /**
     * NewRunner followed by the start of Run: empty queues, done open, the
     * generator running, and `nUploaders` workers in each pool (the download
     * pool is sized by the uploader count too).
     */
    constructor (dir: Directory, nSharesPerUpload: nat, nUploaders: nat)
      requires dir.Valid() && dir.FullKeychains()
      ensures Valid()
      ensures this.dir == dir && this.nSharesPerUpload == nSharesPerUpload
      ensures toUpload == [] && toDownload == [] && pending.None?
      ensures !done && !toUploadClosed && !toDownloadClosed && generatorRunning
      ensures uploaders == nUploaders && downloaders == nUploaders
      ensures calls == []
    {
      this.dir := dir;
      this.nSharesPerUpload := nSharesPerUpload;
      toUpload, toDownload, pending := [], [], None;
      done, toUploadClosed, toDownloadClosed, generatorRunning := false, false, false, true;
      uploaders, downloaders := nUploaders, nUploaders;
      doneCloses, toUploadCloses, toDownloadCloses := 0, 0, 0;
      calls := [];
    }

    /** stop: close done unless it is already closed. */
    method Stop()
      requires Valid()
      modifies this`done, this`doneCloses
      ensures Valid() && done && doneCloses == 1
      ensures old(done) ==> doneCloses == old(doneCloses)
      ensures !old(done) ==> doneCloses == old(doneCloses) + 1
    {
      if !done {
        done := true;
        doneCloses := doneCloses + 1;
      }
    }

    /**
     * One iteration of generateUploads. A sampled event that found toUpload
     * full is sent first; otherwise done is tested, and if it is open a new
     * event is sampled (the wait before it is left out) and sent if there is
     * room.
     */
    method GenerateStep(draws: seq<(nat, nat)>, size: nat, read: nat -> ReadOutcome) returns (s: GenStatus)
      requires Valid() && |draws| == nSharesPerUpload + 1
      modifies this`toUpload, this`toUploadClosed, this`toUploadCloses, this`pending, this`generatorRunning, dir
      ensures Valid()
      ensures !old(generatorRunning) ==>
        s == GeneratorGone && toUpload == old(toUpload) && pending == old(pending) && dir.recorded == old(dir.recorded)
      ensures old(generatorRunning) && old(pending).Some? ==>
        && dir.recorded == old(dir.recorded) && generatorRunning
        && (|old(toUpload)| < ToUploadSlack ==> s == Pushed && toUpload == old(toUpload) + [old(pending).value] && pending.None?)
        && (|old(toUpload)| == ToUploadSlack ==> s == Waiting && toUpload == old(toUpload) && pending == old(pending))
      ensures old(generatorRunning) && old(pending).None? && done ==>
        && s == ClosedQueue && toUpload == old(toUpload) && dir.recorded == old(dir.recorded)
        && toUploadClosed && !generatorRunning && toUploadCloses == 1
      ensures old(generatorRunning) && old(pending).None? && !done ==>
        && generatorRunning && !toUploadClosed
        && (s.Crashed? || s == Pushed || s == Waiting)
        && (s.Crashed? <==> !(Picks(dir.authors, dir.keys, draws).Ok? && ContentOutcome(size, read, 0).Ok?))
        && (!s.Crashed? ==>
              dir.recorded == old(dir.recorded) + PickRecords(Picks(dir.authors, dir.keys, draws).value, dir.keyHex))
        && (s == Pushed ==> |old(toUpload)| < ToUploadSlack && |toUpload| == |old(toUpload)| + 1 && toUpload[..|old(toUpload)|] == old(toUpload))
        && (s == Pushed ==> pending.None? && IsSampledEvent(toUpload[|old(toUpload)|], dir.authors, dir.keys, draws, size, read))
        && (s == Waiting ==> |old(toUpload)| == ToUploadSlack && toUpload == old(toUpload))
        && (s == Waiting ==> pending.Some? && IsSampledEvent(pending.value, dir.authors, dir.keys, draws, size, read))
        && (s.Crashed? ==> toUpload == old(toUpload) && pending.None?)
      ensures s != ClosedQueue ==> toUploadClosed == old(toUploadClosed) && toUploadCloses == old(toUploadCloses)
      ensures old(dir.recorded) <= dir.recorded
    {
      if !generatorRunning {
        return GeneratorGone;
      }
      if pending.None? {
        if done {
          toUploadClosed := true;
          toUploadCloses := toUploadCloses + 1;
          generatorRunning := false;
          return ClosedQueue;
        }
        var crash := SampleNext(draws, size, read);
        if crash.Some? {
          return Crashed(crash.value);
        }
      }
      s := SendPending();
    }

    /** The generator's `r.upDocs.sample()`: the sampled event becomes pending, or the sampler panics. */
    method SampleNext(draws: seq<(nat, nat)>, size: nat, read: nat -> ReadOutcome) returns (crash: Option<Panic>)
      requires Valid() && pending.None? && !toUploadClosed && |draws| == nSharesPerUpload + 1
      modifies this`pending, dir
      ensures Valid()
      ensures old(dir.recorded) <= dir.recorded
      ensures crash.None? <==> Picks(dir.authors, dir.keys, draws).Ok? && ContentOutcome(size, read, 0).Ok?
      ensures crash.Some? ==> pending.None?
      ensures crash.None? ==> pending.Some? && IsSampledEvent(pending.value, dir.authors, dir.keys, draws, size, read)
      ensures crash.None? ==>
        dir.recorded == old(dir.recorded) + PickRecords(Picks(dir.authors, dir.keys, draws).value, dir.keyHex)
    {
      var sampled := SampleUploadEvent(dir, nSharesPerUpload, draws, size, read);
      ResolvesGrow(toUpload, dir.keyHex, old(dir.authorPubs), dir.authorPubs);
      if sampled.Err? {
        return Some(sampled.error);
      }
      pending := Some(sampled.value);
      crash := None;
    }

    /**
     * The generator's blocking send `r.toUpload <- ev` of the pending event:
     * it goes through when the buffer has room and waits otherwise.
     */
    method SendPending() returns (s: GenStatus)
      requires Valid() && pending.Some?
      modifies this`toUpload, this`pending
      ensures Valid()
      ensures |old(toUpload)| < ToUploadSlack ==> s == Pushed && toUpload == old(toUpload) + [old(pending).value] && pending.None?
      ensures |old(toUpload)| == ToUploadSlack ==> s == Waiting && toUpload == old(toUpload) && pending == old(pending)
    {
      if |toUpload| < ToUploadSlack {
        toUpload := toUpload + [pending.value];
        pending := None;
        s := Pushed;
      } else {
        s := Waiting;
      }
    }

    /**
     * The share loop of doUploads for one uploaded envelope: share with each
     * recipient in order and push a download event, addressed to the author
     * the directory resolves the recipient to, for each share that succeeded.
     */
    method ShareWithRecipients(ev: UploadEvent, env: Envelope, shared: nat -> Option<EnvKey>)
      requires dir.Valid() && Resolvable(ev)
      requires forall e :: e in toDownload ==> e.to.Some?
      modifies this`toDownload, this`calls
      ensures toDownload == old(toDownload) + FanOut(ev.shareWith, shared, dir.recorded, dir.keyHex)
      ensures calls == old(calls) + ShareCalls(ev.from, env, ev.shareWith)
      ensures forall e :: e in toDownload ==> e.to.Some?
    {
      ghost var records, keyHex := dir.recorded, dir.keyHex;
      for i := 0 to |ev.shareWith|
        invariant toDownload == old(toDownload) + FanOut(ev.shareWith[..i], shared, records, keyHex)
        invariant calls == old(calls) + ShareCalls(ev.from, env, ev.shareWith[..i])
      {
        FanOutStep(old(toDownload), ev.shareWith, shared, records, keyHex, i);
        ShareCallsStep(old(calls), ev.from, env, ev.shareWith, i);
        calls := calls + [ShareCall(ev.from, env, ev.shareWith[i])];
        match shared(i) {
          case None =>
          case Some(key) =>
            var to := dir.Get(ev.shareWith[i]);
            toDownload := toDownload + [DownloadEvent(to, key)];
        }
      }
      ShareLoopDone(old(toDownload), toDownload, ev.shareWith, shared, records, keyHex);
    }

    /**
     * One iteration of doUploads by some live upload worker: take the next
     * event, upload it, and if that succeeded share it with each recipient in
     * order, pushing a download event for every share that succeeded; then
     * return if done is closed. `uploaded` is the upload's outcome and
     * `shared(i)` that of the share with recipient `i`.
     */
    method UploadStep(uploaded: Option<Envelope>, shared: nat -> Option<EnvKey>) returns (s: StepStatus)
      requires Valid()
      modifies this`toUpload, this`toDownload, this`uploaders, this`calls
      ensures Valid()
      ensures old(toDownloadClosed) ==> toDownload == old(toDownload)
      ensures old(uploaders) == 0 ==>
        s == NoWorker && toUpload == old(toUpload) && toDownload == old(toDownload) && calls == old(calls)
      ensures old(uploaders) > 0 && old(toUpload) == [] ==>
        && toDownload == old(toDownload) && calls == old(calls) && toUpload == old(toUpload)
        && (old(toUploadClosed) ==> s == QueueDrained && uploaders == old(uploaders) - 1)
        && (!old(toUploadClosed) ==> s == Starved && uploaders == old(uploaders))
      ensures old(uploaders) > 0 && old(toUpload) != [] ==>
        var ev := old(toUpload)[0];
        && toUpload == old(toUpload)[1..]
        && (uploaded.None? ==>
              && s == Dropped && uploaders == old(uploaders)
              && toDownload == old(toDownload)
              && calls == old(calls) + [UploadCall(ev.from, ev.content)])
        && (uploaded.Some? ==>
              && toDownload == old(toDownload) + FanOut(ev.shareWith, shared, dir.recorded, dir.keyHex)
              && calls == old(calls) + [UploadCall(ev.from, ev.content)] + ShareCalls(ev.from, uploaded.value, ev.shareWith)
              && (done ==> s == Stopped && uploaders == old(uploaders) - 1)
              && (!done ==> s == Handled && uploaders == old(uploaders)))
    {
      if uploaders == 0 {
        return NoWorker;
      }
      if toUpload == [] {
        if toUploadClosed {
          uploaders := uploaders - 1;
          return QueueDrained;
        }
        return Starved;
      }
      var ev := toUpload[0];
      assert Resolvable(ev);
      toUpload := toUpload[1..];
      calls := calls + [UploadCall(ev.from, ev.content)];
      if uploaded.None? {
        return Dropped;
      }
      ShareWithRecipients(ev, uploaded.value, shared);
      if done {
        uploaders := uploaders - 1;
        s := Stopped;
      } else {
        s := Handled;
      }
    }

    /**
     * One iteration of doDownloads by some live download worker: take the
     * next event, sample a delay (the sleep is left out) and download the
     * envelope for the event's author; then return if the download succeeded
     * and done is closed.
     */
    method DownloadStep(downloaded: bool) returns (s: StepStatus)
      requires Valid()
      modifies this`toDownload, this`downloaders, this`calls
      ensures Valid()
      ensures old(downloaders) == 0 ==> s == NoWorker && toDownload == old(toDownload) && calls == old(calls)
      ensures old(downloaders) > 0 && old(toDownload) == [] ==>
        && toDownload == old(toDownload) && calls == old(calls)
        && (old(toDownloadClosed) ==> s == QueueDrained && downloaders == old(downloaders) - 1)
        && (!old(toDownloadClosed) ==> s == Starved && downloaders == old(downloaders))
      ensures old(downloaders) > 0 && old(toDownload) != [] ==>
        var ev := old(toDownload)[0];
        && ev.to.Some?
        && toDownload == old(toDownload)[1..]
        && calls == old(calls) + [DelaySample, DownloadCall(ev.to, ev.envKey)]
        && (!downloaded ==> s == Dropped && downloaders == old(downloaders))
        && (downloaded && done ==> s == Stopped && downloaders == old(downloaders) - 1)
        && (downloaded && !done ==> s == Handled && downloaders == old(downloaders))
    {
      if downloaders == 0 {
        return NoWorker;
      }
      if toDownload == [] {
        if toDownloadClosed {
          downloaders := downloaders - 1;
          return QueueDrained;
        }
        return Starved;
      }
      var ev := toDownload[0];
      toDownload := toDownload[1..];
      calls := calls + [DelaySample, DownloadCall(ev.to, ev.envKey)];
      if !downloaded {
        return Dropped;
      }
      if done {
        downloaders := downloaders - 1;
        s := Stopped;
      } else {
        s := Handled;
      }
    }

    /**
     * Run has returned: toDownload is closed and `downWG.Wait()` has seen
     * every download worker return, which can only happen after done was
     * closed and every upload worker returned.
     */
    predicate RunReturned()
      requires Valid()
      reads this, dir
      ensures RunReturned() ==> done && uploaders == 0 && downloaders == 0
    {
      toDownloadClosed && downloaders == 0
    }

    /**
     * The tail of Run: once done is closed and every upload worker has
     * returned, close toDownload (which Run then follows by waiting for the
     * download workers).
     */
    method CloseDownloads() returns (closed: bool)
      requires Valid()
      modifies this`toDownloadClosed, this`toDownloadCloses
      ensures Valid()
      ensures closed <==> old(done) && old(uploaders) == 0 && !old(toDownloadClosed)
      ensures toDownloadClosed == (old(toDownloadClosed) || closed)
      ensures toDownloadCloses == (if toDownloadClosed then 1 else 0)
    {
      closed := done && uploaders == 0 && !toDownloadClosed;
      if closed {
        toDownloadClosed := true;
        toDownloadCloses := toDownloadCloses + 1;
      }
    }
  }
}
