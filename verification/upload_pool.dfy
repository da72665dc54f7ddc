/**
 The worker pool of uploadManifest (src/takeout/uploader.ts): workers claim manifest
 indices from a shared counter, consult and update the shared upload state, retry with
 backoff, trip a circuit breaker and account bytes in flight.
*/
module UploadPool {
  import opened Wrappers

  // Node.js runs the code between two awaits of a worker without interruption, so each such
  // stretch is one event of the worker. Outcomes of the provider, the file system and the
  // clock are part of the event. A behaviour is any interleaving of the workers' events.
  //
  // `Decide` says what an event does to its worker's entry; `Apply` gives the new value of
  // each shared variable. The class in upload_engine.dfy runs the code itself, statement by
  // statement, and is proved to do exactly what `Apply` says.

  // ------------------------------------------------------------------ data model

  datatype FailureKind = Transient | Permanent

  datatype Item =
    | Uploaded(attempts: nat)
    | Skipped(attempts: nat)
    | Failed(attempts: nat, kind: FailureKind)

  type Items = map<string, Item>

  datatype Entry = Entry(key: string, size: nat)

  datatype Config = Config(
    entries: seq<Entry>,
    retryCount: nat,
    maxFailures: Option<int>,
    dryRun: bool,
    breakerThreshold: nat,
    breakerWindowMs: nat,
    breakerPauseMs: nat,
    workerCount: nat
  ) {
    // the clamps at the top of uploadManifest
    predicate Valid() {
      breakerThreshold >= 1 && breakerWindowMs >= 1 && workerCount >= 1
    }

    predicate LimitHit(failed: nat) {
      maxFailures.Some? && failed >= maxFailures.value
    }
  }

  /** Where a worker is suspended. */
  datatype Pc =
    | NotStarted
    | Sleeping(index: nat, until: int)        // waiting out the circuit breaker
    | Checking(index: nat, prior: nat)        // waiting for the destination existence check
    | Uploading(index: nat, attempt: nat)
    | Backoff(index: nat, attempt: nat)
    | Returned                                // processEntry has returned, the worker resumes next
    | Done
  {
    predicate HasIndex() {
      Sleeping? || Checking? || Uploading? || Backoff?
    }

    predicate PastStateCheck() {
      Checking? || Uploading? || Backoff?
    }
  }

  datatype Summary = Summary(
    processed: nat,
    uploaded: nat,
    skipped: nat,
    failed: nat,
    transientFailures: nat,
    permanentFailures: nat,
    alreadyUploaded: nat,
    alreadySkipped: nat,
    alreadyExists: nat
  )

  datatype Breaker = Breaker(recent: seq<int>, pauseUntilMs: int)

  /** History variables: the indices whose processEntry has returned, the non-retryable errors
      before the last attempt, the terminal transient failures since the breaker last tripped, the
      number of trips, and the assignments to the upload state (each is followed by markDirty). */
  datatype History = History(finished: set<nat>, early: nat, sinceTrip: seq<int>, trips: nat, writes: nat)

  datatype State = State(
    nextIndex: nat,
    stopScheduling: bool,
    pcs: seq<Pc>,
    items: Items,
    summary: Summary,
    breaker: Breaker,
    inFlight: map<string, nat>,
    inFlightTotal: int,
    clock: int,
    history: History
  )

  datatype Event =
    | Resume(worker: nat, now: int)                          // loop top: limit check, claim, first checks
    | Wake(worker: nat, now: int)                            // the breaker pause is over
    | Checked(worker: nat, found: bool, sourcePresent: bool)
    | Progress(worker: nat, bytes: nat)
    | UploadOk(worker: nat)
    | UploadFailed(worker: nat, nonRetryable: bool, now: int)
    | BackoffOver(worker: nat)

  predicate Good(items: Items, key: string) {
    key in items && (items[key].Uploaded? || items[key].Skipped?)
  }

  function Init(c: Config, loaded: Items, now: int): State {
    State(0, false, seq(c.workerCount, _ => NotStarted), loaded, Summary(0, 0, 0, 0, 0, 0, 0, 0, 0),
          Breaker([], 0), map[], 0, now, History({}, 0, [], 0, 0))
  }

  /** Array.from runs every worker up to its first await in one tick, in order: while one has not
      started, nothing else happens. Each start takes one index, so worker nextIndex is the next. */
  predicate InTurn(s: State, w: nat) {
    s.nextIndex < |s.pcs| && s.pcs[s.nextIndex].NotStarted? ==> w == s.nextIndex
  }

  predicate Enabled(c: Config, s: State, e: Event) {
    && e.worker < |s.pcs|
    && InTurn(s, e.worker)
    && var pc := s.pcs[e.worker];
       && (pc.HasIndex() ==> pc.index < |c.entries|)
       && match e
          case Resume(_, now) => (pc.NotStarted? || pc.Returned?) && now >= s.clock
          case Wake(_, now) => pc.Sleeping? && now >= s.clock && now >= pc.until
          case Checked(_, _, _) => pc.Checking?
          case Progress(_, _) => pc.Uploading?
          case UploadOk(_) => pc.Uploading?
          case UploadFailed(_, _, now) => pc.Uploading? && now >= s.clock
          case BackoffOver(_) => pc.Backoff?
  }

  // ---------------------------------------------------------------- what an event does

  /** One increment of `processed`, with its reason. */
  datatype Verdict =
    | UploadedInState
    | SkippedInState
    | PermanentInState
    | ExistsInDestination(prior: nat)
    | DryRunUpload
    | SourceMissing
    | UploadedNow(attempt: nat)
    | AttemptFailed(attempt: nat, kind: FailureKind)
  {
    predicate IsFailure() {
      PermanentInState? || SourceMissing? || AttemptFailed?
    }

    predicate IsTransient() {
      AttemptFailed? && kind.Transient?
    }

    /** What the verdict writes to the upload state, if anything. */
    function Written(): Option<Item> {
      match this
      case ExistsInDestination(prior) => Some(Skipped(prior))
      case SourceMissing => Some(Failed(1, Permanent))
      case UploadedNow(attempt) => Some(Uploaded(attempt))
      case AttemptFailed(attempt, kind) => Some(Failed(attempt, kind))
      case _ => None
    }

    function Count(sum: Summary): Summary {
      var counted := sum.(processed := sum.processed + 1);
      match this
      case UploadedInState => counted.(skipped := sum.skipped + 1, alreadyUploaded := sum.alreadyUploaded + 1)
      case SkippedInState => counted.(skipped := sum.skipped + 1, alreadySkipped := sum.alreadySkipped + 1)
      case ExistsInDestination(_) => counted.(skipped := sum.skipped + 1, alreadyExists := sum.alreadyExists + 1)
      case DryRunUpload => counted.(uploaded := sum.uploaded + 1)
      case UploadedNow(_) => counted.(uploaded := sum.uploaded + 1)
      case PermanentInState => counted.(failed := sum.failed + 1, permanentFailures := sum.permanentFailures + 1)
      case SourceMissing => counted.(failed := sum.failed + 1, permanentFailures := sum.permanentFailures + 1)
      case AttemptFailed(_, kind) =>
        if kind.Permanent?
        then counted.(failed := sum.failed + 1, permanentFailures := sum.permanentFailures + 1)
        else counted.(failed := sum.failed + 1, transientFailures := sum.transientFailures + 1)
    }
  }

  /** The worker's next suspension point, whether it took an index from the shared counter, the index
      it works on, and the verdict it reached on it, if any. */
  datatype Decision = Decision(next: Pc, claims: bool, index: nat, verdict: Option<Verdict>)

  /** The check of the upload state that opens processEntry. */
  function CheckState(c: Config, items: Items, index: nat, claims: bool): Decision
    requires index < |c.entries|
  {
    var key := c.entries[index].key;
    if key !in items then Decision(Checking(index, 0), claims, index, None)
    else match items[key]
      case Uploaded(_) => Decision(Returned, claims, index, Some(UploadedInState))
      case Skipped(_) => Decision(Returned, claims, index, Some(SkippedInState))
      case Failed(attempts, kind) =>
        if kind.Permanent? then Decision(Returned, claims, index, Some(PermanentInState))
        else Decision(Checking(index, attempts), claims, index, None)
  }

  /** The worker's loop condition, after the limit check that follows a returned entry. */
  predicate Stops(c: Config, s: State, pc: Pc) {
    s.stopScheduling || (pc.Returned? && c.LimitHit(s.summary.failed))
  }

  function Decide(c: Config, s: State, e: Event): Decision
    requires Enabled(c, s, e)
  {
    var pc := s.pcs[e.worker];
    match e
    case Resume(_, now) =>
      if Stops(c, s, pc) then Decision(Done, false, s.nextIndex, None)
      else if s.nextIndex >= |c.entries| then Decision(Done, true, s.nextIndex, None)
      else if s.breaker.pauseUntilMs > 0 && s.breaker.pauseUntilMs - now > 0
      then Decision(Sleeping(s.nextIndex, s.breaker.pauseUntilMs), true, s.nextIndex, None)
      else CheckState(c, s.items, s.nextIndex, true)
    case Wake(_, _) => CheckState(c, s.items, pc.index, false)
    case Checked(_, found, sourcePresent) =>
      if found then Decision(Returned, false, pc.index, Some(ExistsInDestination(pc.prior)))
      else if c.dryRun then Decision(Returned, false, pc.index, Some(DryRunUpload))
      else if !sourcePresent then Decision(Returned, false, pc.index, Some(SourceMissing))
      else Decision(Uploading(pc.index, 1), false, pc.index, None)
    case Progress(_, _) => Decision(pc, false, pc.index, None)
    case UploadOk(_) => Decision(Returned, false, pc.index, Some(UploadedNow(pc.attempt)))
    case UploadFailed(_, nonRetryable, _) =>
      if !nonRetryable && pc.attempt <= c.retryCount then Decision(Backoff(pc.index, pc.attempt), false, pc.index, None)
      else
        // no break after a terminal failure: the attempt loop goes on unless this was the last one
        var next := if pc.attempt <= c.retryCount then Uploading(pc.index, pc.attempt + 1) else Returned;
        Decision(next, false, pc.index,
                 Some(AttemptFailed(pc.attempt, if nonRetryable then Permanent else Transient)))
    case BackoffOver(_) => Decision(Uploading(pc.index, pc.attempt + 1), false, pc.index, None)
  }

  // ------------------------------------------------- the shared variables, one by one

  function SummaryAfter(sum: Summary, d: Decision): Summary {
    if d.verdict.Some? then d.verdict.value.Count(sum) else sum
  }

  predicate Writes(d: Decision) {
    d.verdict.Some? && d.verdict.value.Written().Some?
  }

  function ItemsAfter(c: Config, items: Items, d: Decision): Items {
    if Writes(d) && d.index < |c.entries|
    then items[c.entries[d.index].key := d.verdict.value.Written().value]
    else items
  }

  /** The limit is checked when the attempt loop runs out and when a worker resumes. */
  predicate StopAfter(c: Config, s: State, e: Event)
    requires Enabled(c, s, e)
  {
    var d := Decide(c, s, e);
    || s.stopScheduling
    || (e.Resume? && s.pcs[e.worker].Returned? && c.LimitHit(s.summary.failed))
    || (e.UploadFailed? && d.next.Returned? && c.LimitHit(SummaryAfter(s.summary, d).failed))
  }

  function Young(log: seq<int>, now: int, window: nat): seq<int> {
    if log == [] then []
    else
      var last := log[|log| - 1];
      Young(log[..|log| - 1], now, window) + if now - last < window then [last] else []
  }

  predicate Trips(c: Config, recent: seq<int>, now: int) {
    |Young(recent, now, c.breakerWindowMs)| + 1 >= c.breakerThreshold
  }

  function BreakerAfter(c: Config, b: Breaker, d: Decision, now: int): Breaker {
    if d.verdict.Some? && d.verdict.value.IsTransient() then
      if Trips(c, b.recent, now) then Breaker([], now + c.breakerPauseMs)
      else b.(recent := Young(b.recent, now, c.breakerWindowMs) + [now])
    else b
  }

  function HistoryAfter(c: Config, s: State, d: Decision, now: int): History {
    var h := s.history;
    if d.verdict.None? then h
    else
      var v := d.verdict.value;
      var tripped := v.IsTransient() && Trips(c, s.breaker.recent, now);
      History(
        if d.next.Returned? then h.finished + {d.index} else h.finished,
        if d.next.Returned? then h.early else h.early + 1,
        if tripped then [] else if v.IsTransient() then h.sinceTrip + [now] else h.sinceTrip,
        if tripped then h.trips + 1 else h.trips,
        if v.Written().Some? then h.writes + 1 else h.writes)
  }

  /** In-flight bytes: an attempt starts at 0, progress overwrites, the end of an attempt removes. */
  function InFlightAfter(c: Config, m: map<string, nat>, e: Event, d: Decision): map<string, nat> {
    if d.index >= |c.entries| then m
    else
      var key := c.entries[d.index].key;
      if e.Progress? then m[key := e.bytes]
      else if d.next.Uploading? then m[key := 0]
      else if e.UploadOk? || e.UploadFailed? then m - {key}
      else m
  }

  function ValueOr0(m: map<string, nat>, key: string): nat {
    if key in m then m[key] else 0
  }

  function InFlightTotalAfter(c: Config, s: State, e: Event, d: Decision): int {
    if d.index >= |c.entries| then s.inFlightTotal
    else
      var key := c.entries[d.index].key;
      s.inFlightTotal + ValueOr0(InFlightAfter(c, s.inFlight, e, d), key) - ValueOr0(s.inFlight, key)
  }

  function NowOf(s: State, e: Event): int {
    match e
    case Resume(_, now) => now
    case Wake(_, now) => now
    case UploadFailed(_, _, now) => now
    case _ => s.clock
  }

  function Apply(c: Config, s: State, e: Event): State
    requires Enabled(c, s, e)
  {
    var d := Decide(c, s, e);
    var now := NowOf(s, e);
    State(
      if d.claims then s.nextIndex + 1 else s.nextIndex,
      StopAfter(c, s, e),
      s.pcs[e.worker := d.next],
      ItemsAfter(c, s.items, d),
      SummaryAfter(s.summary, d),
      BreakerAfter(c, s.breaker, d, now),
      InFlightAfter(c, s.inFlight, e, d),
      InFlightTotalAfter(c, s, e, d),
      now,
      HistoryAfter(c, s, d, now))
  }

  ghost predicate Behavior(c: Config, loaded: Items, trace: seq<State>, events: seq<Event>) {
    && c.Valid()
    && |trace| == |events| + 1
    && trace[0] == Init(c, loaded, trace[0].clock)
    && forall i :: 0 <= i < |events| ==>
         Enabled(c, trace[i], events[i]) && trace[i + 1] == Apply(c, trace[i], events[i])
  }

  /** Some schedule leads to `s`. */
  ghost predicate Reaches(c: Config, loaded: Items, s: State) {
    exists trace: seq<State>, events: seq<Event> :: Behavior(c, loaded, trace, events) && trace[|events|] == s
  }

  lemma ReachInit(c: Config, loaded: Items, now: int)
    requires c.Valid()
    ensures Reaches(c, loaded, Init(c, loaded, now))
  {
    var events: seq<Event> := [];
    assert Behavior(c, loaded, [Init(c, loaded, now)], events);
  }

  lemma ReachStep(c: Config, loaded: Items, s: State, e: Event)
    requires Reaches(c, loaded, s) && Enabled(c, s, e)
    ensures Reaches(c, loaded, Apply(c, s, e))
  {
    var trace: seq<State>, events: seq<Event> :| Behavior(c, loaded, trace, events) && trace[|events|] == s;
    var longer := trace + [Apply(c, s, e)];
    assert Behavior(c, loaded, longer, events + [e]);
  }

  // ------------------------------------------------------------ counting workers

  /** A worker that may still add a failure to the count: not started, or holding an entry. */
  predicate IsPending(pc: Pc) {
    pc.NotStarted? || pc.HasIndex()
  }

  predicate IsFresh(pc: Pc) {
    pc.NotStarted?
  }

  function Count(p: Pc -> bool, pcs: seq<Pc>): nat {
    if pcs == [] then 0 else (if p(pcs[0]) then 1 else 0) + Count(p, pcs[1..])
  }

  function Potential(pcs: seq<Pc>): nat {
    Count(IsPending, pcs)
  }

  lemma {:induction false} CountUpdate(p: Pc -> bool, pcs: seq<Pc>, w: nat, pc: Pc)
    requires w < |pcs|
    ensures Count(p, pcs[w := pc]) == Count(p, pcs) - (if p(pcs[w]) then 1 else 0) + (if p(pc) then 1 else 0)
  {
    var updated := pcs[w := pc];
    if w == 0 {
      assert updated[1..] == pcs[1..];
    } else {
      assert updated[1..] == pcs[1..][w - 1 := pc];
      CountUpdate(p, pcs[1..], w - 1, pc);
    }
  }

  lemma {:induction false} CountBound(p: Pc -> bool, pcs: seq<Pc>)
    ensures Count(p, pcs) <= |pcs|
  {
    if pcs != [] {
      CountBound(p, pcs[1..]);
    }
  }

  lemma {:induction false} CountInit(p: Pc -> bool, n: nat)
    requires p(NotStarted)
    ensures Count(p, seq(n, _ => NotStarted)) == n
  {
    if n > 0 {
      assert seq(n, _ => NotStarted)[1..] == seq(n - 1, _ => NotStarted);
      CountInit(p, n - 1);
    }
  }

  // ------------------------------------------------------- summing a finite map

  ghost function Total(m: map<string, nat>): nat {
    if m == map[] then 0
    else
      var k :| k in m;
      m[k] + Total(m - {k})
  }

  lemma {:induction false} TotalRemove(m: map<string, nat>, key: string)
    requires key in m
    ensures Total(m) == m[key] + Total(m - {key})
  {
    var k :| k in m && Total(m) == m[k] + Total(m - {k});
    if k != key {
      TotalRemove(m - {k}, key);
      TotalRemove(m - {key}, k);
      assert m - {k} - {key} == m - {key} - {k};
    }
  }

  /** Two maps that differ at most at `key` have totals that differ by the change there. */
  lemma TotalChange(m: map<string, nat>, m': map<string, nat>, key: string)
    requires m - {key} == m' - {key}
    ensures Total(m') == Total(m) + ValueOr0(m', key) - ValueOr0(m, key)
  {
    if key in m {
      TotalRemove(m, key);
    } else {
      assert m == m - {key};
    }
    if key in m' {
      TotalRemove(m', key);
    } else {
      assert m' == m' - {key};
    }
  }

  // ------------------------------------------------------------------ invariants

  predicate SummaryAdds(sum: Summary) {
    && sum.processed == sum.uploaded + sum.skipped + sum.failed
    && sum.failed == sum.transientFailures + sum.permanentFailures
    && sum.skipped == sum.alreadyUploaded + sum.alreadySkipped + sum.alreadyExists
  }

  ghost predicate InFlightAdds(s: State) {
    s.inFlightTotal == Total(s.inFlight)
  }

  ghost predicate Held(pcs: seq<Pc>, i: nat) {
    exists w :: 0 <= w < |pcs| && pcs[w].HasIndex() && pcs[w].index == i
  }

  ghost predicate DistinctHolders(pcs: seq<Pc>) {
    forall v, w :: 0 <= v < w < |pcs| && pcs[v].HasIndex() && pcs[w].HasIndex() ==> pcs[v].index != pcs[w].index
  }

  /** Every claimed index is held by exactly one worker or finished, never both. */
  ghost predicate ClaimsPartition(c: Config, s: State) {
    && |s.pcs| == c.workerCount
    && (forall i :: i in s.history.finished ==> i < s.nextIndex && i < |c.entries|)
    && (forall w :: 0 <= w < |s.pcs| && s.pcs[w].HasIndex() ==>
          s.pcs[w].index < s.nextIndex && s.pcs[w].index < |c.entries| && s.pcs[w].index !in s.history.finished)
    && DistinctHolders(s.pcs)
    && (forall i: nat :: i < s.nextIndex && i < |c.entries| && i !in s.history.finished ==> Held(s.pcs, i))
  }

  ghost predicate DoneMeansExhausted(c: Config, s: State) {
    forall w :: 0 <= w < |s.pcs| && s.pcs[w].Done? && !s.stopScheduling ==> s.nextIndex >= |c.entries|
  }

  predicate ProcessedIsFinishedPlusEarly(s: State) {
    s.summary.processed == |s.history.finished| + s.history.early
  }

  function Max1(limit: int): int {
    if limit >= 1 then limit else 1
  }

  predicate OvershootBounded(c: Config, s: State) {
    c.maxFailures.Some? ==>
      s.summary.failed + Potential(s.pcs) <= Max1(c.maxFailures.value) - 1 + c.workerCount + s.history.early
  }

  predicate StopMeansLimit(c: Config, s: State) {
    s.stopScheduling ==> c.LimitHit(s.summary.failed)
  }

  /** Keys recorded uploaded or skipped when the state was loaded are never touched. */
  ghost predicate LoadedGoodKept(c: Config, loaded: Items, s: State) {
    && (forall k :: Good(loaded, k) ==> k in s.items && s.items[k] == loaded[k])
    && (forall w :: 0 <= w < |s.pcs| && s.pcs[w].PastStateCheck() && s.pcs[w].index < |c.entries| ==>
          !Good(loaded, c.entries[s.pcs[w].index].key))
  }

  /** As long as nothing has failed in a real run, every finished entry is recorded and only
      successes have been written. */
  ghost predicate FinishedRecorded(c: Config, s: State) {
    !c.dryRun && s.summary.failed == 0 ==>
      forall i :: i in s.history.finished && i < |c.entries| ==> Good(s.items, c.entries[i].key)
  }

  ghost predicate NonDecreasing(log: seq<int>) {
    forall i, j :: 0 <= i <= j < |log| ==> log[i] <= log[j]
  }

  /** The times on the log that are still in the window when the last of them was taken. */
  function YoungAtLast(c: Config, log: seq<int>): seq<int> {
    if log == [] then [] else Young(log, log[|log| - 1], c.breakerWindowMs)
  }

  ghost predicate BreakerIsHistory(c: Config, s: State) {
    && NonDecreasing(s.history.sinceTrip)
    && (forall i :: 0 <= i < |s.history.sinceTrip| ==> s.history.sinceTrip[i] <= s.clock)
    && s.breaker.recent == YoungAtLast(c, s.history.sinceTrip)
    && |s.breaker.recent| < c.breakerThreshold
  }

  ghost predicate Inv(c: Config, loaded: Items, s: State) {
    && SummaryAdds(s.summary)
    && InFlightAdds(s)
    && ClaimsPartition(c, s)
    && DoneMeansExhausted(c, s)
    && ProcessedIsFinishedPlusEarly(s)
    && OvershootBounded(c, s)
    && StopMeansLimit(c, s)
    && LoadedGoodKept(c, loaded, s)
    && FinishedRecorded(c, s)
    && BreakerIsHistory(c, s)
  }

  lemma InitInv(c: Config, loaded: Items, now: int)
    requires c.Valid()
    ensures Inv(c, loaded, Init(c, loaded, now))
  {
    InitPotential(c, loaded, now);
    InitClaims(c, loaded, now);
    InitCounts(c, loaded, now);
    InitItems(c, loaded, now);
  }

  lemma InitPotential(c: Config, loaded: Items, now: int)
    requires c.Valid()
    ensures OvershootBounded(c, Init(c, loaded, now))
  {
    CountInit(IsPending, c.workerCount);
  }

  lemma InitClaims(c: Config, loaded: Items, now: int)
    requires c.Valid()
    ensures ClaimsPartition(c, Init(c, loaded, now)) && DoneMeansExhausted(c, Init(c, loaded, now))
  {
  }

  lemma InitCounts(c: Config, loaded: Items, now: int)
    requires c.Valid()
    ensures var s := Init(c, loaded, now);
            && SummaryAdds(s.summary) && InFlightAdds(s) && ProcessedIsFinishedPlusEarly(s)
            && StopMeansLimit(c, s) && BreakerIsHistory(c, s)
  {
  }

  lemma InitItems(c: Config, loaded: Items, now: int)
    requires c.Valid()
    ensures LoadedGoodKept(c, loaded, Init(c, loaded, now)) && FinishedRecorded(c, Init(c, loaded, now))
  {
  }

  // --------------------------------------------------- each part is kept by every event

  lemma SummaryKept(sum: Summary, d: Decision)
    requires SummaryAdds(sum)
    ensures SummaryAdds(SummaryAfter(sum, d))
  {
  }

  lemma InFlightKept(c: Config, s: State, e: Event)
    requires Enabled(c, s, e) && InFlightAdds(s)
    ensures InFlightAdds(Apply(c, s, e))
  {
    var d := Decide(c, s, e);
    if d.index < |c.entries| {
      TotalChange(s.inFlight, InFlightAfter(c, s.inFlight, e, d), c.entries[d.index].key);
    }
  }

  /** How a decision may touch the claims: the index it works on is the one the worker held, or the
      next one of the shared counter; it is kept, or finished, or (at the end) there is none. */
  predicate ClaimShape(c: Config, s: State, pc: Pc, d: Decision) {
    && (d.claims ==> !pc.HasIndex() && d.index == s.nextIndex)
    && (!d.claims && pc.HasIndex() ==> d.index == pc.index && !d.next.Done?)
    && (!d.claims && !pc.HasIndex() ==> d.next.Done? && d.verdict.None?)
    && (d.next.Done? ==> d.verdict.None? && (d.claims ==> s.nextIndex >= |c.entries|))
    && (!d.next.Done? ==> d.index < |c.entries| && (d.next.HasIndex() || (d.next.Returned? && d.verdict.Some?)))
    && (d.next.HasIndex() ==> d.next.index == d.index)
  }

  lemma DecideShape(c: Config, s: State, e: Event)
    requires Enabled(c, s, e)
    ensures ClaimShape(c, s, s.pcs[e.worker], Decide(c, s, e))
  {
  }

  lemma ClaimsKept(c: Config, s: State, e: Event)
    requires Enabled(c, s, e) && ClaimsPartition(c, s)
    ensures ClaimsPartition(c, Apply(c, s, e))
  {
    DecideShape(c, s, e);
    var d := Decide(c, s, e);
    var finished := HistoryAfter(c, s, d, NowOf(s, e)).finished;
    ClaimsKeptByShape(c, s, e.worker, d, Apply(c, s, e));
  }

  lemma ClaimsKeptByShape(c: Config, s: State, w: nat, d: Decision, t: State)
    requires w < |s.pcs| && ClaimsPartition(c, s) && ClaimShape(c, s, s.pcs[w], d)
    requires t.pcs == s.pcs[w := d.next]
    requires t.nextIndex == if d.claims then s.nextIndex + 1 else s.nextIndex
    requires t.history.finished ==
             if d.verdict.Some? && d.next.Returned? then s.history.finished + {d.index} else s.history.finished
    ensures ClaimsPartition(c, t)
  {
    forall i: nat | i < t.nextIndex && i < |c.entries| && i !in t.history.finished
      ensures Held(t.pcs, i)
    {
      if i == d.index && d.next.HasIndex() {
        assert t.pcs[w].index == i;
      } else {
        assert i < s.nextIndex;
        var v :| 0 <= v < |s.pcs| && s.pcs[v].HasIndex() && s.pcs[v].index == i;
        assert t.pcs[v] == s.pcs[v];
      }
    }
  }

  lemma DoneKept(c: Config, s: State, e: Event)
    requires Enabled(c, s, e) && DoneMeansExhausted(c, s)
    ensures DoneMeansExhausted(c, Apply(c, s, e))
  {
    DecideShape(c, s, e);
    var t := Apply(c, s, e);
    forall w | 0 <= w < |t.pcs| && t.pcs[w].Done? && !t.stopScheduling
      ensures t.nextIndex >= |c.entries|
    {
      if w == e.worker {
        assert e.Resume?;
      } else {
        assert s.pcs[w].Done? && !s.stopScheduling;
      }
    }
  }

  lemma ProcessedKept(c: Config, s: State, e: Event)
    requires Enabled(c, s, e) && ClaimsPartition(c, s) && ProcessedIsFinishedPlusEarly(s)
    ensures ProcessedIsFinishedPlusEarly(Apply(c, s, e))
  {
    DecideShape(c, s, e);
    assert Decide(c, s, e).index !in s.history.finished;
    VerdictCounted(c, s, Decide(c, s, e), NowOf(s, e));
  }

  /** A verdict adds one to processed, and finishes an entry or is early. */
  lemma VerdictCounted(c: Config, s: State, d: Decision, now: int)
    requires d.verdict.Some? ==> d.index !in s.history.finished
    ensures var sum, h := SummaryAfter(s.summary, d), HistoryAfter(c, s, d, now);
            sum.processed - s.summary.processed == |h.finished| - |s.history.finished| + h.early - s.history.early
  {
  }

  lemma OvershootKept(c: Config, s: State, e: Event)
    requires Enabled(c, s, e) && |s.pcs| == c.workerCount && OvershootBounded(c, s)
    ensures OvershootBounded(c, Apply(c, s, e))
  {
    var d, w := Decide(c, s, e), e.worker;
    CountUpdate(IsPending, s.pcs, w, d.next);
    if s.pcs[w].Returned? {
      // the limit was just checked: this claim starts below it, and the worker itself was idle
      CountUpdate(IsPending, s.pcs, w, NotStarted);
      CountBound(IsPending, s.pcs[w := NotStarted]);
    }
    DecideShape(c, s, e);
  }

  lemma StopKept(c: Config, s: State, e: Event)
    requires Enabled(c, s, e) && StopMeansLimit(c, s)
    ensures StopMeansLimit(c, Apply(c, s, e))
  {
  }

  /** An event writes only the key of an entry whose state check is behind it. */
  lemma WritesPastCheck(c: Config, s: State, e: Event)
    requires Enabled(c, s, e)
    ensures Writes(Decide(c, s, e)) ==>
              s.pcs[e.worker].PastStateCheck() && Decide(c, s, e).index == s.pcs[e.worker].index
  {
  }

  /** A worker gets past the state check only with a key that is not recorded as good. */
  lemma CheckBlocksGood(c: Config, s: State, e: Event)
    requires Enabled(c, s, e)
    ensures Decide(c, s, e).next.PastStateCheck() && !s.pcs[e.worker].PastStateCheck() ==>
              && Decide(c, s, e).next.index < |c.entries|
              && !Good(s.items, c.entries[Decide(c, s, e).next.index].key)
  {
  }

  lemma LoadedGoodPreserved(c: Config, loaded: Items, s: State, e: Event)
    requires Enabled(c, s, e) && LoadedGoodKept(c, loaded, s)
    ensures LoadedGoodKept(c, loaded, Apply(c, s, e))
  {
    WritesPastCheck(c, s, e);
    CheckBlocksGood(c, s, e);
    DecideShape(c, s, e);
  }

  /** An entry that ends without a failure in a real run ends recorded. */
  lemma EndsRecorded(c: Config, s: State, e: Event)
    requires Enabled(c, s, e) && !c.dryRun
    ensures var d := Decide(c, s, e);
            d.verdict.Some? && !d.verdict.value.IsFailure() && d.index < |c.entries| ==>
              Good(ItemsAfter(c, s.items, d), c.entries[d.index].key)
    ensures var d := Decide(c, s, e);
            (d.verdict.Some? ==> !d.verdict.value.IsFailure()) ==>
              forall k :: Good(s.items, k) ==> Good(ItemsAfter(c, s.items, d), k)
  {
  }

  lemma FinishedRecordedKept(c: Config, s: State, e: Event)
    requires Enabled(c, s, e) && FinishedRecorded(c, s)
    ensures FinishedRecorded(c, Apply(c, s, e))
  {
    if !c.dryRun {
      EndsRecorded(c, s, e);
    }
  }

  // ------------------------------------------------------------------ the breaker

  lemma {:induction false} YoungMembers(log: seq<int>, now: int, window: nat)
    ensures forall x :: x in Young(log, now, window) ==> x in log && now - x < window
  {
    if log != [] {
      YoungMembers(log[..|log| - 1], now, window);
    }
  }

  lemma YoungAppend(log: seq<int>, x: int, now: int, window: nat)
    ensures Young(log + [x], now, window) == Young(log, now, window) + if now - x < window then [x] else []
  {
    assert (log + [x])[..|log|] == log;
  }

  /** Pruning now what was already pruned earlier loses nothing that is still in the window. */
  lemma {:induction false} YoungTwice(log: seq<int>, earlier: int, now: int, window: nat)
    requires earlier <= now
    ensures Young(Young(log, earlier, window), now, window) == Young(log, now, window)
  {
    if log != [] {
      var front, last := log[..|log| - 1], log[|log| - 1];
      YoungTwice(front, earlier, now, window);
      if earlier - last < window {
        YoungAppend(Young(front, earlier, window), last, now, window);
      } else {
        assert Young(front, earlier, window) + [] == Young(front, earlier, window);
      }
    }
  }

  /** With a monotone clock the pruned list is the window of the whole history. */
  lemma PrunedIsWindow(c: Config, s: State, now: int)
    requires BreakerIsHistory(c, s) && now >= s.clock
    ensures Young(s.breaker.recent, now, c.breakerWindowMs) == Young(s.history.sinceTrip, now, c.breakerWindowMs)
  {
    var log := s.history.sinceTrip;
    if log != [] {
      YoungTwice(log, log[|log| - 1], now, c.breakerWindowMs);
    }
  }

  /** Pushing `now` keeps the stored list the window of the log, as of its last element. */
  lemma PushKeepsWindow(c: Config, s: State, now: int)
    requires BreakerIsHistory(c, s) && now >= s.clock && c.breakerWindowMs >= 1
    ensures Young(s.breaker.recent, now, c.breakerWindowMs) + [now] == YoungAtLast(c, s.history.sinceTrip + [now])
    ensures NonDecreasing(s.history.sinceTrip + [now])
  {
    PrunedIsWindow(c, s, now);
    YoungAppend(s.history.sinceTrip, now, now, c.breakerWindowMs);
  }

  lemma BreakerKept(c: Config, s: State, e: Event)
    requires c.Valid() && Enabled(c, s, e) && BreakerIsHistory(c, s)
    ensures BreakerIsHistory(c, Apply(c, s, e))
  {
    var now, d := NowOf(s, e), Decide(c, s, e);
    if d.verdict.Some? && d.verdict.value.IsTransient() {
      PushKeepsWindow(c, s, now);
      PushedBreaker(c, s, d, now);
    } else {
      QuietBreaker(c, s, d, now);
    }
  }

  lemma PushedBreaker(c: Config, s: State, d: Decision, now: int)
    requires d.verdict.Some? && d.verdict.value.IsTransient()
    ensures var b, h := BreakerAfter(c, s.breaker, d, now), HistoryAfter(c, s, d, now);
            || (b.recent == [] && h.sinceTrip == [])
            || (&& b.recent == Young(s.breaker.recent, now, c.breakerWindowMs) + [now]
                && |b.recent| < c.breakerThreshold
                && h.sinceTrip == s.history.sinceTrip + [now])
  {
  }

  lemma QuietBreaker(c: Config, s: State, d: Decision, now: int)
    requires d.verdict.Some? ==> !d.verdict.value.IsTransient()
    ensures BreakerAfter(c, s.breaker, d, now) == s.breaker
    ensures HistoryAfter(c, s, d, now).sinceTrip == s.history.sinceTrip
  {
  }

  lemma ApplyKeepsInv(c: Config, loaded: Items, s: State, e: Event)
    requires c.Valid() && Enabled(c, s, e) && Inv(c, loaded, s)
    ensures Inv(c, loaded, Apply(c, s, e))
  {
    SummaryKept(s.summary, Decide(c, s, e));
    InFlightKept(c, s, e);
    ClaimsKept(c, s, e);
    DoneKept(c, s, e);
    ProcessedKept(c, s, e);
    OvershootKept(c, s, e);
    StopKept(c, s, e);
    LoadedGoodPreserved(c, loaded, s, e);
    FinishedRecordedKept(c, s, e);
    BreakerKept(c, s, e);
  }

  lemma {:induction false} BehaviorInv(c: Config, loaded: Items, trace: seq<State>, events: seq<Event>, i: nat)
    requires Behavior(c, loaded, trace, events) && i < |trace|
    ensures Inv(c, loaded, trace[i])
  {
    if i == 0 {
      InitInv(c, loaded, trace[0].clock);
    } else {
      BehaviorInv(c, loaded, trace, events, i - 1);
      ApplyKeepsInv(c, loaded, trace[i - 1], events[i - 1]);
    }
  }

  lemma ReachesInv(c: Config, loaded: Items, s: State)
    requires Reaches(c, loaded, s)
    ensures c.Valid() && Inv(c, loaded, s)
  {
    var trace: seq<State>, events: seq<Event> :| Behavior(c, loaded, trace, events) && trace[|events|] == s;
    BehaviorInv(c, loaded, trace, events, |events|);
  }

  // ---------------------------------------------------------------- main theorems

  predicate AllDone(s: State) {
    forall w :: 0 <= w < |s.pcs| ==> s.pcs[w].Done?
  }

  lemma {:induction false} RangeSize(s: set<nat>, n: nat)
    requires forall i: nat :: i in s <==> i < n
    ensures |s| == n
  {
    if n == 0 {
      assert s == {};
    } else {
      RangeSize(s - {n - 1}, n - 1);
    }
  }

  /** Conservation at every point of every schedule. */
  lemma PoolConservation(c: Config, loaded: Items, trace: seq<State>, events: seq<Event>, i: nat)
    requires Behavior(c, loaded, trace, events) && i < |trace|
    ensures var s := trace[i];
            && s.summary.processed == s.summary.uploaded + s.summary.skipped + s.summary.failed
            && s.summary.failed == s.summary.transientFailures + s.summary.permanentFailures
            && s.summary.skipped == s.summary.alreadyUploaded + s.summary.alreadySkipped + s.summary.alreadyExists
            && s.inFlightTotal == Total(s.inFlight)
            && s.summary.processed == |s.history.finished| + EarlyErrors(c, trace, events, i)
  {
    BehaviorInv(c, loaded, trace, events, i);
    EarlyIsEarlyNonRetryable(c, loaded, trace, events, i);
  }

  /** Each index is claimed at most once: a claim takes an index that no worker holds and that has
      not finished, and takes it for good. */
  lemma ClaimedAtMostOnce(c: Config, loaded: Items, trace: seq<State>, events: seq<Event>, i: nat, j: nat)
    requires Behavior(c, loaded, trace, events) && i < j < |events|
    requires Decide(c, trace[i], events[i]).claims && Decide(c, trace[j], events[j]).claims
    ensures Decide(c, trace[i], events[i]).index < Decide(c, trace[j], events[j]).index
  {
    DecideShape(c, trace[i], events[i]);
    DecideShape(c, trace[j], events[j]);
    assert trace[i + 1].nextIndex == trace[i].nextIndex + 1;
    NextIndexGrows(c, loaded, trace, events, i + 1, j);
  }

  lemma {:induction false} NextIndexGrows(c: Config, loaded: Items, trace: seq<State>, events: seq<Event>, i: nat,
                                          j: nat)
    requires Behavior(c, loaded, trace, events) && i <= j < |trace|
    ensures trace[i].nextIndex <= trace[j].nextIndex
  {
    if i < j {
      NextIndexGrows(c, loaded, trace, events, i, j - 1);
      assert trace[j] == Apply(c, trace[j - 1], events[j - 1]);
    }
  }

  lemma {:induction false} StopIsFinal(c: Config, loaded: Items, trace: seq<State>, events: seq<Event>, i: nat, j: nat)
    requires Behavior(c, loaded, trace, events) && i <= j < |trace|
    ensures trace[i].stopScheduling ==> trace[j].stopScheduling
  {
    if i < j {
      StopIsFinal(c, loaded, trace, events, i, j - 1);
      assert trace[j] == Apply(c, trace[j - 1], events[j - 1]);
    }
  }

  /** A run that no failure limit cut short has finished every entry. */
  lemma CompleteRunFinishesAll(c: Config, loaded: Items, s: State)
    requires c.Valid() && Inv(c, loaded, s) && AllDone(s) && !s.stopScheduling
    ensures forall i: nat :: i in s.history.finished <==> i < |c.entries|
  {
    assert s.pcs[0].Done?;
    forall i: nat | i < |c.entries|
      ensures i in s.history.finished
    {
      assert !Held(s.pcs, i);
    }
  }

  predicate EarlyNonRetryable(c: Config, s: State, e: Event) {
    && e.UploadFailed? && e.nonRetryable && e.worker < |s.pcs|
    && s.pcs[e.worker].Uploading? && s.pcs[e.worker].attempt <= c.retryCount
  }

  /** How many of the first i events are non-retryable errors before the last attempt. */
  ghost function EarlyErrors(c: Config, trace: seq<State>, events: seq<Event>, i: nat): nat
    requires i <= |events| <= |trace|
  {
    if i == 0 then 0
    else EarlyErrors(c, trace, events, i - 1) + if EarlyNonRetryable(c, trace[i - 1], events[i - 1]) then 1 else 0
  }

  /** What the history variable `early` stands for. */
  lemma {:induction false} EarlyIsEarlyNonRetryable(c: Config, loaded: Items, trace: seq<State>, events: seq<Event>,
                                                    i: nat)
    requires Behavior(c, loaded, trace, events) && i < |trace|
    ensures trace[i].history.early == EarlyErrors(c, trace, events, i)
    ensures trace[i].history.early == 0 <==> forall j :: 0 <= j < i ==> !EarlyNonRetryable(c, trace[j], events[j])
  {
    if i > 0 {
      EarlyIsEarlyNonRetryable(c, loaded, trace, events, i - 1);
      EarlyStep(c, trace[i - 1], events[i - 1]);
    }
  }

  /** At the end of such a run `processed` is `total` plus the number of uploads that failed with a
      non-retryable error before their last attempt, so it equals `total` exactly when there were none. */
  lemma ProcessedEqualsTotal(c: Config, loaded: Items, trace: seq<State>, events: seq<Event>)
    requires Behavior(c, loaded, trace, events)
    requires AllDone(trace[|events|]) && !trace[|events|].stopScheduling
    ensures var processed := trace[|events|].summary.processed;
            && processed == |c.entries| + EarlyErrors(c, trace, events, |events|)
            && (processed == |c.entries| <==>
                  forall j :: 0 <= j < |events| ==> !EarlyNonRetryable(c, trace[j], events[j]))
  {
    var s := trace[|events|];
    BehaviorInv(c, loaded, trace, events, |events|);
    CompleteRunFinishesAll(c, loaded, s);
    RangeSize(s.history.finished, |c.entries|);
    EarlyIsEarlyNonRetryable(c, loaded, trace, events, |events|);
  }

  lemma EarlyStep(c: Config, s: State, e: Event)
    requires Enabled(c, s, e)
    ensures Apply(c, s, e).history.early == s.history.early + if EarlyNonRetryable(c, s, e) then 1 else 0
  {
  }

  /** The failure limit is overshot by less than the number of workers, for every interleaving;
      each early non-retryable error can add one more. */
  lemma FailureLimitOvershoot(c: Config, loaded: Items, trace: seq<State>, events: seq<Event>, i: nat)
    requires Behavior(c, loaded, trace, events) && i < |trace| && c.maxFailures.Some?
    ensures trace[i].summary.failed <= Max1(c.maxFailures.value) - 1 + c.workerCount + EarlyErrors(c, trace, events, i)
  {
    BehaviorInv(c, loaded, trace, events, i);
    EarlyIsEarlyNonRetryable(c, loaded, trace, events, i);
  }

  /** Keys recorded uploaded or skipped when the state was loaded never regress. */
  lemma LoadedGoodNeverRegresses(c: Config, loaded: Items, trace: seq<State>, events: seq<Event>, i: nat, key: string)
    requires Behavior(c, loaded, trace, events) && i < |trace| && Good(loaded, key)
    ensures key in trace[i].items && trace[i].items[key] == loaded[key]
  {
    BehaviorInv(c, loaded, trace, events, i);
  }

  /** What the archive lifecycle relies on: a real run that reports no failure, under no failure limit
      or one of at least 1, has every destination key recorded uploaded or skipped. */
  lemma NoFailureMeansAllRecorded(c: Config, loaded: Items, s: State)
    requires c.Valid() && Inv(c, loaded, s) && AllDone(s)
    requires !c.dryRun && s.summary.failed == 0
    requires c.maxFailures.Some? ==> c.maxFailures.value >= 1
    ensures forall i :: 0 <= i < |c.entries| ==> Good(s.items, c.entries[i].key)
  {
    CompleteRunFinishesAll(c, loaded, s);
  }

  /** The breaker's stored list is the history definition at every terminal transient failure, and
      it trips exactly when the failures in the window since the last trip reach the threshold. */
  lemma BreakerTripsExactly(c: Config, loaded: Items, trace: seq<State>, events: seq<Event>, i: nat)
    requires Behavior(c, loaded, trace, events) && i < |events|
    requires var d := Decide(c, trace[i], events[i]); d.verdict.Some? && d.verdict.value.IsTransient()
    ensures var s, t, now := trace[i], trace[i + 1], events[i].now;
            var window := Young(s.history.sinceTrip + [now], now, c.breakerWindowMs);
            && (t.history.trips == s.history.trips + 1 <==> |window| >= c.breakerThreshold)
            && (|window| >= c.breakerThreshold ==>
                  |window| == c.breakerThreshold && t.breaker == Breaker([], now + c.breakerPauseMs))
            && (|window| < c.breakerThreshold ==> t.breaker == s.breaker.(recent := window))
  {
    var s, now := trace[i], events[i].now;
    BehaviorInv(c, loaded, trace, events, i);
    PrunedIsWindow(c, s, now);
    YoungAppend(s.history.sinceTrip, now, now, c.breakerWindowMs);
    YoungShrinks(s.breaker.recent, now, c.breakerWindowMs);
  }

  lemma {:induction false} YoungShrinks(log: seq<int>, now: int, window: nat)
    ensures |Young(log, now, window)| <= |log|
  {
    if log != [] {
      YoungShrinks(log[..|log| - 1], now, window);
    }
  }

  // ------------------------------------------------------ the condition is needed

  function Twice(): Config {
    Config([Entry("k", 7)], 1, None, false, 5, 60000, 120000, 1)
  }

  function TwiceState(k: nat): State
    requires k <= 5
  {
    var failed1, failed2 := Summary(1, 0, 0, 1, 0, 1, 0, 0, 0), Summary(2, 0, 0, 2, 0, 2, 0, 0, 0);
    var idle, closed, hot := Summary(0, 0, 0, 0, 0, 0, 0, 0, 0), Breaker([], 0), map["k" := 0];
    var once, again := map["k" := Failed(1, Permanent)], map["k" := Failed(2, Permanent)];
    match k
    case 0 => State(0, false, [NotStarted], map[], idle, closed, map[], 0, 0, History({}, 0, [], 0, 0))
    case 1 => State(1, false, [Checking(0, 0)], map[], idle, closed, map[], 0, 0, History({}, 0, [], 0, 0))
    case 2 => State(1, false, [Uploading(0, 1)], map[], idle, closed, hot, 0, 0, History({}, 0, [], 0, 0))
    case 3 => State(1, false, [Uploading(0, 2)], once, failed1, closed, hot, 0, 0, History({}, 1, [], 0, 1))
    case 4 => State(1, false, [Returned], again, failed2, closed, map[], 0, 0, History({0}, 1, [], 0, 2))
    case _ => State(2, false, [Done], again, failed2, closed, map[], 0, 0, History({0}, 1, [], 0, 2))
  }

  ghost predicate TwiceReaches(k: nat)
    requires k <= 5
  {
    Reaches(Twice(), map[], TwiceState(k))
  }

  lemma TwiceStarts()
    ensures TwiceReaches(0)
  {
    ReachInit(Twice(), map[], 0);
    assert TwiceState(0) == Init(Twice(), map[], 0);
  }

  lemma TwiceClaims()
    ensures TwiceReaches(1)
  {
    TwiceStarts();
    ReachStep(Twice(), map[], TwiceState(0), Resume(0, 0));
    assert Apply(Twice(), TwiceState(0), Resume(0, 0)) == TwiceState(1);
  }

  lemma TwiceUploads()
    ensures TwiceReaches(2)
  {
    TwiceClaims();
    ReachStep(Twice(), map[], TwiceState(1), Checked(0, false, true));
    assert Apply(Twice(), TwiceState(1), Checked(0, false, true)) == TwiceState(2);
  }

  lemma TwiceFails()
    ensures TwiceReaches(3)
  {
    TwiceUploads();
    ReachStep(Twice(), map[], TwiceState(2), UploadFailed(0, true, 0));
    assert Apply(Twice(), TwiceState(2), UploadFailed(0, true, 0)) == TwiceState(3);
  }

  lemma TwiceSecondFailure()
    ensures Enabled(Twice(), TwiceState(3), UploadFailed(0, true, 0))
    ensures Apply(Twice(), TwiceState(3), UploadFailed(0, true, 0)) == TwiceState(4)
  {
    assert map["k" := 0] - {"k"} == map[];
  }

  lemma TwiceFailsAgain()
    ensures TwiceReaches(4)
  {
    TwiceFails();
    TwiceSecondFailure();
    ReachStep(Twice(), map[], TwiceState(3), UploadFailed(0, true, 0));
  }

  lemma TwiceEnds()
    ensures TwiceReaches(5)
  {
    TwiceFailsAgain();
    ReachStep(Twice(), map[], TwiceState(4), Resume(0, 0));
    assert Apply(Twice(), TwiceState(4), Resume(0, 0)) == TwiceState(5);
  }

  lemma TwiceIsDone()
    ensures var s := TwiceState(5);
            AllDone(s) && !s.stopScheduling && s.summary.processed == 2 && s.summary.failed == 2
    ensures |Twice().entries| == 1
  {
  }

  /** Without the condition the summary is wrong: one entry, one worker, one retry, and a source
      that cannot be read. The entry is attempted and counted twice: 2 processed of 1. */
  lemma EarlyErrorCountsTwice()
    ensures exists s: State :: Reaches(Twice(), map[], s)
              && AllDone(s) && !s.stopScheduling && |Twice().entries| == 1
              && s.summary.processed == 2 && s.summary.failed == 2
  {
    TwiceEnds();
    TwiceIsDone();
  }
}
