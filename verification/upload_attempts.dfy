/**
 What becomes of one entry in the upload engine: how often it is tried, what is recorded of it, and
 what is counted.
*/
module UploadAttempts {
  import opened UploadPool
  import opened Wrappers

  /** How many attempts of the worker failed in the events from i to k. */
  function Failures(events: seq<Event>, w: nat, i: nat, k: nat): nat
    requires i <= k <= |events|
  {
    if i == k then 0
    else Failures(events, w, i, k - 1) + if FailedBy(events[k - 1], w) then 1 else 0
  }

  /** The worker's last existence check before the k-th event was the i-th: it began to upload an entry. */
  ghost predicate BeganAt(events: seq<Event>, w: nat, i: nat, k: nat) {
    i < k <= |events| && CheckedBy(events[i], w) && forall m :: i < m < k ==> !CheckedBy(events[m], w)
  }

  /** A worker that uploads is at the attempt after those that failed; one that backs off, after the last. */
  ghost predicate AttemptsAre(c: Config, pc: Pc, failures: nat) {
    && (pc.Uploading? ==> pc.attempt == failures + 1 && failures <= c.retryCount)
    && (pc.Backoff? ==> pc.attempt == failures && 1 <= failures <= c.retryCount)
  }

  predicate Attempting(pc: Pc) {
    pc.Uploading? || pc.Backoff?
  }

  predicate FailedBy(e: Event, w: nat) {
    e.UploadFailed? && e.worker == w
  }

  predicate CheckedBy(e: Event, w: nat) {
    e.Checked? && e.worker == w
  }

  /** How a worker comes to attempt an upload: by an existence check, or from the attempt before. */
  predicate Moves(c: Config, p: Pc, e: Event, q: Pc, w: nat) {
    Attempting(q) ==>
      if CheckedBy(e, w) then q.Uploading? && q.attempt == 1
      else if FailedBy(e, w) then
        p.Uploading? && p.attempt <= c.retryCount && q.attempt == if q.Uploading? then p.attempt + 1 else p.attempt
      else p == q || (p.Backoff? && q.Uploading? && q.attempt == p.attempt + 1)
  }

  lemma MoveStep(c: Config, s: State, e: Event, w: nat)
    requires Enabled(c, s, e) && w < |s.pcs|
    ensures var t := Apply(c, s, e); |t.pcs| == |s.pcs| && Moves(c, s.pcs[w], e, t.pcs[w], w)
  {
  }

  ghost predicate Path(c: Config, pcs: seq<Pc>, events: seq<Event>, w: nat) {
    && |pcs| == |events| + 1 && !Attempting(pcs[0])
    && forall k :: 0 <= k < |events| ==> Moves(c, pcs[k], events[k], pcs[k + 1], w)
  }

  lemma {:induction false} PathCounted(c: Config, pcs: seq<Pc>, events: seq<Event>, w: nat, k: nat) returns (i: nat)
    requires Path(c, pcs, events, w) && k < |pcs| && Attempting(pcs[k])
    ensures BeganAt(events, w, i, k) && AttemptsAre(c, pcs[k], Failures(events, w, i + 1, k))
  {
    assert Moves(c, pcs[k - 1], events[k - 1], pcs[k], w);
    if CheckedBy(events[k - 1], w) {
      i := k - 1;
      assert Failures(events, w, k, k) == 0;
    } else {
      i := PathCounted(c, pcs, events, w, k - 1);
      BeganExtends(events, w, i, k - 1);
    }
  }

  lemma BeganExtends(events: seq<Event>, w: nat, i: nat, k: nat)
    requires k < |events| && BeganAt(events, w, i, k) && !CheckedBy(events[k], w)
    ensures BeganAt(events, w, i, k + 1)
    ensures Failures(events, w, i + 1, k + 1) == Failures(events, w, i + 1, k) + if FailedBy(events[k], w) then 1 else 0
  {
  }

  lemma {:induction false} PathOf(c: Config, loaded: Items, trace: seq<State>, events: seq<Event>, w: nat)
    returns (pcs: seq<Pc>)
    requires Behavior(c, loaded, trace, events) && w < c.workerCount
    ensures Path(c, pcs, events, w)
    ensures forall k :: 0 <= k < |trace| ==> |trace[k].pcs| == c.workerCount && pcs[k] == trace[k].pcs[w]
  {
    pcs := [NotStarted];
    for n := 0 to |events|
      invariant |pcs| == n + 1 && pcs[0] == NotStarted
      invariant forall k :: 0 <= k <= n ==> |trace[k].pcs| == c.workerCount && pcs[k] == trace[k].pcs[w]
      invariant forall k :: 0 <= k < n ==> Moves(c, pcs[k], events[k], pcs[k + 1], w)
    {
      MoveStep(c, trace[n], events[n], w);
      pcs := pcs + [trace[n + 1].pcs[w]];
    }
  }

  lemma WorkersStay(c: Config, loaded: Items, trace: seq<State>, events: seq<Event>, k: nat)
    requires Behavior(c, loaded, trace, events) && k < |trace|
    ensures |trace[k].pcs| == c.workerCount
  {
    var _ := PathOf(c, loaded, trace, events, 0);
  }

  /** A worker that uploads or backs off began with its last existence check, and its attempts are
      counted from there: an entry is tried at most retryCount + 1 times. */
  lemma AttemptsCounted(c: Config, loaded: Items, trace: seq<State>, events: seq<Event>, w: nat, k: nat)
    returns (i: nat)
    requires Behavior(c, loaded, trace, events) && k < |trace| && w < |trace[k].pcs| && Attempting(trace[k].pcs[w])
    ensures BeganAt(events, w, i, k) && AttemptsAre(c, trace[k].pcs[w], Failures(events, w, i + 1, k))
  {
    WorkersStay(c, loaded, trace, events, k);
    var pcs := PathOf(c, loaded, trace, events, w);
    i := PathCounted(c, pcs, events, w, k);
  }

  lemma CountedSince(c: Config, loaded: Items, trace: seq<State>, events: seq<Event>, w: nat, i: nat, k: nat)
    requires Behavior(c, loaded, trace, events) && k < |trace| && w < |trace[k].pcs| && Attempting(trace[k].pcs[w])
    requires BeganAt(events, w, i, k)
    ensures AttemptsAre(c, trace[k].pcs[w], Failures(events, w, i + 1, k))
  {
    var j := AttemptsCounted(c, loaded, trace, events, w, k);
    assert i == j;
  }

  /** What the n-th failure of an entry leads to. */
  ghost predicate FailedAs(c: Config, s: State, e: Event, t: State, n: nat) {
    && Enabled(c, s, e) && e.UploadFailed? && |t.pcs| == |s.pcs|
    && var index, pc := s.pcs[e.worker].index, t.pcs[e.worker];
    && 1 <= n <= c.retryCount + 1
    && (pc.Returned? <==> n == c.retryCount + 1)
    && (pc.Backoff? <==> n <= c.retryCount && !e.nonRetryable)
    && t.items == if n <= c.retryCount && !e.nonRetryable then s.items
                  else s.items[c.entries[index].key := Failed(n, if e.nonRetryable then Permanent else Transient)]
  }

  lemma FailStep(c: Config, s: State, e: Event, t: State, n: nat)
    requires Enabled(c, s, e) && e.UploadFailed? && t == Apply(c, s, e) && AttemptsAre(c, s.pcs[e.worker], n)
    ensures FailedAs(c, s, e, t, n + 1)
  {
  }

  ghost predicate UploadedAs(c: Config, s: State, e: Event, t: State, n: nat) {
    && Enabled(c, s, e) && e.UploadOk? && |t.pcs| == |s.pcs|
    && 1 <= n <= c.retryCount + 1 && t.pcs[e.worker].Returned?
    && t.items == s.items[c.entries[s.pcs[e.worker].index].key := Uploaded(n)]
  }

  lemma OkStep(c: Config, s: State, e: Event, t: State, n: nat)
    requires Enabled(c, s, e) && e.UploadOk? && t == Apply(c, s, e) && AttemptsAre(c, s.pcs[e.worker], n)
    ensures UploadedAs(c, s, e, t, n + 1)
  {
  }

  /** The n-th failure of an entry in a run is its last exactly if n is retryCount + 1. Before, a
      retryable one is followed by a pause and records nothing; the last one, and any that is not
      retryable, records the entry as failed after n attempts. */
  lemma FailureExactly(c: Config, loaded: Items, trace: seq<State>, events: seq<Event>, i: nat, k: nat)
    requires Behavior(c, loaded, trace, events) && k < |events| && events[k].UploadFailed?
    requires BeganAt(events, events[k].worker, i, k)
    ensures FailedAs(c, trace[k], events[k], trace[k + 1], Failures(events, events[k].worker, i + 1, k) + 1)
  {
    var w := events[k].worker;
    CountedSince(c, loaded, trace, events, w, i, k);
    FailStep(c, trace[k], events[k], trace[k + 1], Failures(events, w, i + 1, k));
  }

  /** A success after n - 1 failures is recorded as uploaded in attempt n. */
  lemma SuccessExactly(c: Config, loaded: Items, trace: seq<State>, events: seq<Event>, i: nat, k: nat)
    requires Behavior(c, loaded, trace, events) && k < |events| && events[k].UploadOk?
    requires BeganAt(events, events[k].worker, i, k)
    ensures UploadedAs(c, trace[k], events[k], trace[k + 1], Failures(events, events[k].worker, i + 1, k) + 1)
  {
    var w := events[k].worker;
    CountedSince(c, loaded, trace, events, w, i, k);
    OkStep(c, trace[k], events[k], trace[k + 1], Failures(events, w, i + 1, k));
  }

  /** An existence check ends with the entry found, counted as uploaded in a dry run, its source missing,
      or its first attempt; found and missing ones are recorded. */
  lemma CheckExactly(c: Config, s: State, e: Event)
    requires Enabled(c, s, e) && e.Checked?
    ensures var pc, key, t := s.pcs[e.worker], c.entries[s.pcs[e.worker].index].key, Apply(c, s, e);
            && (t.pcs[e.worker] == Uploading(pc.index, 1) <==> !e.found && !c.dryRun && e.sourcePresent)
            && (t.pcs[e.worker] != Uploading(pc.index, 1) ==> t.pcs[e.worker] == Returned)
            && t.items == if e.found then s.items[key := Skipped(pc.prior)]
                          else if !c.dryRun && !e.sourcePresent then s.items[key := Failed(1, Permanent)]
                          else s.items
  {
  }

  // ---------------------------------------------------------------------- the counters

  /** The worker consults the upload state about the entry of this index. */
  predicate Consults(c: Config, s: State, e: Event, index: nat)
    requires Enabled(c, s, e)
  {
    index < |c.entries|
    && if e.Wake? then s.pcs[e.worker].index == index
       else e.Resume? && Apply(c, s, e).nextIndex > s.nextIndex == index && !Apply(c, s, e).pcs[e.worker].Sleeping?
  }

  /** An entry recorded uploaded, skipped or permanently failed is counted as such and left alone; any
      other goes on to the existence check. */
  lemma ConsultExactly(c: Config, s: State, e: Event, index: nat)
    requires Enabled(c, s, e) && Consults(c, s, e, index)
    ensures var key, t, sum := c.entries[index].key, Apply(c, s, e), s.summary;
            && t.items == s.items
            && if key in s.items && s.items[key].Uploaded? then
                 && t.pcs[e.worker] == Returned
                 && t.summary == sum.(processed := sum.processed + 1, skipped := sum.skipped + 1,
                                      alreadyUploaded := sum.alreadyUploaded + 1)
               else if key in s.items && s.items[key].Skipped? then
                 && t.pcs[e.worker] == Returned
                 && t.summary == sum.(processed := sum.processed + 1, skipped := sum.skipped + 1,
                                      alreadySkipped := sum.alreadySkipped + 1)
               else if key in s.items && s.items[key].kind.Permanent? then
                 && t.pcs[e.worker] == Returned
                 && t.summary == sum.(processed := sum.processed + 1, failed := sum.failed + 1,
                                      permanentFailures := sum.permanentFailures + 1)
               else
                 && t.pcs[e.worker] == Checking(index, if key in s.items then s.items[key].attempts else 0)
                 && t.summary == sum
  {
  }

  /** What an existence check and an attempt count. */
  lemma OutcomeCounts(c: Config, s: State, e: Event)
    requires Enabled(c, s, e)
    ensures var t, sum := Apply(c, s, e), s.summary;
            && (e.Checked? ==>
                  t.summary
                  == if e.found then sum.(processed := sum.processed + 1, skipped := sum.skipped + 1,
                                       alreadyExists := sum.alreadyExists + 1)
                  else if c.dryRun then sum.(processed := sum.processed + 1, uploaded := sum.uploaded + 1)
                  else if !e.sourcePresent then sum.(processed := sum.processed + 1, failed := sum.failed + 1,
                                                     permanentFailures := sum.permanentFailures + 1)
                  else sum)
            && (e.UploadOk? ==> t.summary == sum.(processed := sum.processed + 1, uploaded := sum.uploaded + 1))
            && (e.UploadFailed? ==>
                  t.summary
                  == if t.pcs[e.worker].Backoff? then sum
                  else if e.nonRetryable then sum.(processed := sum.processed + 1, failed := sum.failed + 1,
                                                   permanentFailures := sum.permanentFailures + 1)
                  else sum.(processed := sum.processed + 1, failed := sum.failed + 1,
                            transientFailures := sum.transientFailures + 1))
            && (e.Progress? || e.BackoffOver? ==> t.summary == sum)
  {
  }

  // ------------------------------------------------------------------ bytes in flight

  /** The map holds of an upload what its last progress report said, 0 from the start of an attempt, and
      nothing once it has ended; other keys are untouched. */
  lemma InFlightExactly(c: Config, s: State, e: Event)
    requires Enabled(c, s, e)
    ensures var t := Apply(c, s, e);
            if e.Resume? || e.Wake? then t.inFlight == s.inFlight
            else
              var key := c.entries[s.pcs[e.worker].index].key;
              && (e.Progress? ==> t.inFlight == s.inFlight[key := e.bytes])
              && (!e.Progress? && t.pcs[e.worker].Uploading? ==> t.inFlight == s.inFlight[key := 0])
              && (e.UploadOk? || (e.UploadFailed? && !t.pcs[e.worker].Uploading?) ==> t.inFlight == s.inFlight - {key})
              && (e.Checked? && !t.pcs[e.worker].Uploading? ==> t.inFlight == s.inFlight)
  {
  }
}
