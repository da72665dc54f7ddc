/**
 The state checkpoint manager of the uploader (src/takeout/uploader.ts) and the
 atomic file write underneath it (src/utils/fs-atomic.ts).
*/
module Checkpoint {
  // Node.js runs the code between two awaits without interruption, so each such
  // stretch is one event. `State` holds what the manager, the shared in-memory upload
  // state and the state file on disk contain; `Apply` is the effect of an event. The
  // three version numbers are history variables: they count the mutations of the
  // in-memory state and say which of its values a snapshot or the file holds.

  // MAX_RENAME_RETRIES of the atomic write
  const MAX_RENAME_RETRIES := 5

  /** The link of the promise chain that is running now. */
  datatype Flight<+T> =
    | Idle
    | Writing(snapshot: T, version: nat)                  // the sibling tmp file is being written
    | Renaming(snapshot: T, version: nat, attempt: nat)   // tmp file complete, rename outstanding
    | Landed                                              // renamed; the then-handler has not run yet
    | Rejected                                            // failed; the catch-handler has not run yet

  datatype State<+T> = State(
    memory: T,
    version: nat,
    dirty: bool,
    dirtyUpdates: nat,
    queued: nat,               // links of the chain that have not started
    flight: Flight<T>,
    flushError: bool,
    disk: T,                   // what loading the state file yields
    diskVersion: nat,
    stopping: bool             // stopAndFlush has been called
  )

  datatype Event<+T> =
    | Mutate(value: T)         // a state change together with its markDirty()
    | TimerTick
    | StartLink
    | TmpWritten
    | TmpFailed                // mkdir or the tmp write failed
    | RenameOk
    | RenameFailed(retryable: bool)
    | Settle                   // the then- or catch-handler runs
    | Stop

  function Init<T>(loaded: T): State<T> {
    State(loaded, 0, false, 0, 0, Idle, false, loaded, 0, false)
  }

  /** Mutations end before stopAndFlush is called: uploadManifest awaits all its workers first. */
  predicate Enabled<T>(s: State<T>, e: Event<T>) {
    match e
    case Mutate(_) => !s.stopping
    case TimerTick => !s.stopping
    case StartLink => s.flight.Idle? && s.queued > 0
    case TmpWritten => s.flight.Writing?
    case TmpFailed => s.flight.Writing?
    case RenameOk => s.flight.Renaming?
    case RenameFailed(_) => s.flight.Renaming?
    case Settle => s.flight.Landed? || s.flight.Rejected?
    case Stop => !s.stopping
  }

  /** enqueueFlush: snapshot-and-clear of the dirty flag, one more link on the chain. */
  function Enqueue<T>(s: State<T>): State<T> {
    if !s.dirty then s else s.(dirty := false, dirtyUpdates := 0, queued := s.queued + 1)
  }

  function MarkDirty<T>(s: State<T>, persistEvery: nat): State<T> {
    var marked := s.(dirty := true, dirtyUpdates := s.dirtyUpdates + 1);
    if marked.dirtyUpdates >= persistEvery then Enqueue(marked) else marked
  }

  /** An assignment to the upload state followed by markDirty. */
  function Mutated<T>(persistEvery: nat, s: State<T>, value: T): State<T> {
    MarkDirty(s.(memory := value, version := s.version + 1), persistEvery)
  }

  function Apply<T>(persistEvery: nat, s: State<T>, e: Event<T>): State<T>
    requires Enabled(s, e)
  {
    match e
    case Mutate(value) => Mutated(persistEvery, s, value)
    case TimerTick => Enqueue(s)
    case StartLink => s.(queued := s.queued - 1, flight := Writing(s.memory, s.version))
    case TmpWritten => s.(flight := Renaming(s.flight.snapshot, s.flight.version, 0))
    case TmpFailed => s.(flight := Rejected)
    case RenameOk => s.(disk := s.flight.snapshot, diskVersion := s.flight.version, flight := Landed)
    case RenameFailed(retryable) =>
      if !retryable || s.flight.attempt >= MAX_RENAME_RETRIES - 1
      then s.(flight := Rejected)
      else s.(flight := s.flight.(attempt := s.flight.attempt + 1))
    case Settle =>
      if s.flight.Landed?
      then s.(flight := Idle, flushError := false)
      else s.(flight := Idle, flushError := true, dirty := true)
    case Stop => Enqueue(s).(stopping := true)
  }

  // ---------------------------------------------------------------- invariant

  /** Snapshots only move forward, and equal versions mean equal contents. */
  ghost predicate VersionsAgree<T>(s: State<T>) {
    && s.diskVersion <= s.version
    && (s.diskVersion == s.version ==> s.disk == s.memory)
    && (s.flight.Writing? || s.flight.Renaming? ==>
          && s.diskVersion <= s.flight.version <= s.version
          && (s.flight.version == s.version ==> s.flight.snapshot == s.memory))
    && (s.flight.Renaming? ==> s.flight.attempt < MAX_RENAME_RETRIES)
  }

  predicate Carrying<T>(s: State<T>) {
    (s.flight.Writing? || s.flight.Renaming?) && s.flight.version == s.version
  }

  /** A flush is outstanding that will see the current value, or the file already has it. */
  predicate Covered<T>(s: State<T>) {
    || s.queued > 0
    || Carrying(s)
    || s.flight.Rejected?
    || ((s.flight.Idle? || s.flight.Landed?) && s.diskVersion == s.version)
  }

  /** While stopping, only an error that the caller will see may stand for a lost flush. */
  predicate CoveredOrFailed<T>(s: State<T>) {
    Covered(s) || (s.flight.Idle? && s.flushError)
  }

  ghost predicate Inv<T>(s: State<T>) {
    && VersionsAgree(s)
    && (!s.dirty ==> Covered(s))
    && (s.flushError && s.queued == 0 && s.flight.Idle? ==> s.dirty)
    && (s.stopping ==> CoveredOrFailed(s))
  }

  lemma InitInv<T>(loaded: T)
    ensures Inv(Init(loaded))
  {
  }

  lemma ApplyKeepsInv<T>(persistEvery: nat, s: State<T>, e: Event<T>)
    requires Enabled(s, e) && Inv(s)
    ensures Inv(Apply(persistEvery, s, e))
  {
  }

  // ---------------------------------------------------------------- whole runs

  ghost predicate Behavior<T(!new)>(persistEvery: nat, loaded: T, trace: seq<State<T>>, events: seq<Event<T>>) {
    && |trace| == |events| + 1
    && trace[0] == Init(loaded)
    && forall i :: 0 <= i < |events| ==>
         Enabled(trace[i], events[i]) && trace[i + 1] == Apply(persistEvery, trace[i], events[i])
  }

  lemma {:induction false} BehaviorInv<T(!new)>(persistEvery: nat, loaded: T, trace: seq<State<T>>,
                                         events: seq<Event<T>>, i: nat)
    requires Behavior(persistEvery, loaded, trace, events)
    requires i < |trace|
    ensures Inv(trace[i])
  {
    if i == 0 {
      InitInv(loaded);
    } else {
      BehaviorInv(persistEvery, loaded, trace, events, i - 1);
      ApplyKeepsInv(persistEvery, trace[i - 1], events[i - 1]);
    }
  }

  /** stopAndFlush returns: the chain it awaited has drained and no error is left to throw. */
  predicate Returned<T>(s: State<T>) {
    s.stopping && s.queued == 0 && s.flight.Idle? && !s.flushError
  }

  predicate Threw<T>(s: State<T>) {
    s.stopping && s.queued == 0 && s.flight.Idle? && s.flushError
  }

  /** After stopAndFlush was called the in-memory state stays as it was at that call. */
  lemma {:induction false} MemoryFrozenAfterStop<T(!new)>(
    persistEvery: nat, loaded: T, trace: seq<State<T>>, events: seq<Event<T>>, i: nat, j: nat)
    requires Behavior(persistEvery, loaded, trace, events)
    requires i <= j < |trace| && trace[i].stopping
    ensures trace[j].stopping && trace[j].memory == trace[i].memory
  {
    if i < j {
      MemoryFrozenAfterStop(persistEvery, loaded, trace, events, i, j - 1);
    }
  }

  /** No update is lost: under every interleaving of mutations, timer ticks, slow writes and
      failures, when stopAndFlush returns normally the file yields the value the in-memory
      state had when it was called. */
  lemma CheckpointLosesNoUpdate<T(!new)>(
    persistEvery: nat, loaded: T, trace: seq<State<T>>, events: seq<Event<T>>, call: nat, end: nat)
    requires Behavior(persistEvery, loaded, trace, events)
    requires call < end < |trace| && events[call].Stop? && Returned(trace[end])
    ensures trace[end].disk == trace[call].memory
  {
    BehaviorInv(persistEvery, loaded, trace, events, end);
    MemoryFrozenAfterStop(persistEvery, loaded, trace, events, call + 1, end);
  }

  /** Snapshots reach the file in the order they were taken: the version on disk never drops,
      and the file always holds a complete value that was in memory at that version. */
  lemma SnapshotsLandInOrder<T(!new)>(
    persistEvery: nat, loaded: T, trace: seq<State<T>>, events: seq<Event<T>>, i: nat, j: nat)
    requires Behavior(persistEvery, loaded, trace, events)
    requires i <= j < |trace|
    ensures trace[i].diskVersion <= trace[j].diskVersion
    ensures WasInMemory(trace, j, trace[j].diskVersion, trace[j].disk)
  {
    VersionsGrow(persistEvery, loaded, trace, events, i, j);
    DiskWasInMemory(persistEvery, loaded, trace, events, j);
  }

  lemma {:induction false} VersionsGrow<T(!new)>(
    persistEvery: nat, loaded: T, trace: seq<State<T>>, events: seq<Event<T>>, i: nat, j: nat)
    requires Behavior(persistEvery, loaded, trace, events)
    requires i <= j < |trace|
    ensures trace[i].diskVersion <= trace[j].diskVersion
  {
    if i < j {
      VersionsGrow(persistEvery, loaded, trace, events, i, j - 1);
      BehaviorInv(persistEvery, loaded, trace, events, j - 1);
      DiskVersionStep(persistEvery, trace[j - 1], events[j - 1]);
    }
  }

  lemma DiskVersionStep<T>(persistEvery: nat, s: State<T>, e: Event<T>)
    requires Enabled(s, e) && Inv(s)
    ensures s.diskVersion <= Apply(persistEvery, s, e).diskVersion
  {
  }

  /** Some state up to j had this version, and this value in memory. */
  ghost predicate WasInMemory<T(!new)>(trace: seq<State<T>>, j: nat, version: nat, value: T) {
    exists k: nat :: k <= j && k < |trace| && trace[k].version == version && trace[k].memory == value
  }

  lemma WasInMemoryLater<T(!new)>(trace: seq<State<T>>, i: nat, j: nat, version: nat, value: T)
    requires i <= j && WasInMemory(trace, i, version, value)
    ensures WasInMemory(trace, j, version, value)
  {
  }

  /** The file only ever takes a snapshot in flight, and a snapshot is the memory at its start. */
  lemma ContentsMove<T>(persistEvery: nat, s: State<T>, e: Event<T>)
    requires Enabled(s, e)
    ensures var t := Apply(persistEvery, s, e);
            || (t.disk == s.disk && t.diskVersion == s.diskVersion)
            || (s.flight.Renaming? && t.disk == s.flight.snapshot && t.diskVersion == s.flight.version)
    ensures var t := Apply(persistEvery, s, e);
            t.flight.Writing? || t.flight.Renaming? ==>
              || (t.flight.snapshot == t.memory && t.flight.version == t.version)
              || ((s.flight.Writing? || s.flight.Renaming?)
                  && t.flight.snapshot == s.flight.snapshot && t.flight.version == s.flight.version)
  {
  }

  lemma {:induction false} DiskWasInMemory<T(!new)>(
    persistEvery: nat, loaded: T, trace: seq<State<T>>, events: seq<Event<T>>, j: nat)
    requires Behavior(persistEvery, loaded, trace, events)
    requires j < |trace|
    ensures WasInMemory(trace, j, trace[j].diskVersion, trace[j].disk)
    ensures trace[j].flight.Writing? || trace[j].flight.Renaming? ==>
              WasInMemory(trace, j, trace[j].flight.version, trace[j].flight.snapshot)
  {
    if j == 0 {
      assert trace[0].version == trace[0].diskVersion && trace[0].memory == trace[0].disk;
    } else {
      var before, after := trace[j - 1], trace[j];
      DiskWasInMemory(persistEvery, loaded, trace, events, j - 1);
      WasInMemoryLater(trace, j - 1, j, before.diskVersion, before.disk);
      if before.flight.Writing? || before.flight.Renaming? {
        WasInMemoryLater(trace, j - 1, j, before.flight.version, before.flight.snapshot);
      }
      ContentsMove(persistEvery, before, events[j - 1]);
    }
  }

  /** The k-th event is the last link to settle before the i-th state, and it had failed. */
  ghost predicate LastLinkFailed<T(!new)>(trace: seq<State<T>>, events: seq<Event<T>>, k: nat, i: nat)
    requires |trace| == |events| + 1 && i < |trace|
  {
    && k < i && events[k].Settle? && trace[k].flight.Rejected?
    && forall m :: k < m < i ==> !events[m].Settle?
  }

  lemma {:induction false} ErrorHasCause<T(!new)>(
    persistEvery: nat, loaded: T, trace: seq<State<T>>, events: seq<Event<T>>, i: nat)
    requires Behavior(persistEvery, loaded, trace, events) && i < |trace| && trace[i].flushError
    ensures exists k: nat :: LastLinkFailed(trace, events, k, i)
  {
    if i > 0 {
      var before, e := trace[i - 1], events[i - 1];
      if e.Settle? {
        assert LastLinkFailed(trace, events, i - 1, i);
      } else {
        assert before.flushError;
        ErrorHasCause(persistEvery, loaded, trace, events, i - 1);
        var k: nat :| LastLinkFailed(trace, events, k, i - 1);
        assert LastLinkFailed(trace, events, k, i);
      }
    }
  }

  /** A thrown flush error is never the residue of an earlier failure: the last link that settled before
      the throw had failed, and the manager is still marked dirty for it. */
  lemma ThrownErrorIsCurrent<T(!new)>(
    persistEvery: nat, loaded: T, trace: seq<State<T>>, events: seq<Event<T>>, end: nat)
    requires Behavior(persistEvery, loaded, trace, events) && end < |trace| && Threw(trace[end])
    ensures trace[end].dirty && exists k: nat :: LastLinkFailed(trace, events, k, end)
  {
    BehaviorInv(persistEvery, loaded, trace, events, end);
    ErrorHasCause(persistEvery, loaded, trace, events, end);
  }

  // ------------------------------------------------------------- flushes on the way

  /** The k-th event adds a link to the chain. */
  predicate LinkAdded<T>(trace: seq<State<T>>, k: nat) {
    k + 1 < |trace| && trace[k + 1].queued == trace[k].queued + 1
  }

  /** How many of the events from i to j are mutations. */
  function Mutations<T>(events: seq<Event<T>>, i: nat, j: nat): nat
    requires i <= j <= |events|
  {
    if i == j then 0 else Mutations(events, i, j - 1) + if events[j - 1].Mutate? then 1 else 0
  }

  lemma {:induction false} FewerThanThreshold<T(!new)>(
    persistEvery: nat, loaded: T, trace: seq<State<T>>, events: seq<Event<T>>, i: nat)
    requires persistEvery >= 1 && Behavior(persistEvery, loaded, trace, events) && i < |trace|
    ensures trace[i].dirtyUpdates < persistEvery
  {
    if i > 0 {
      FewerThanThreshold(persistEvery, loaded, trace, events, i - 1);
    }
  }

  lemma CountStep<T>(persistEvery: nat, s: State<T>, e: Event<T>)
    requires Enabled(s, e)
    ensures var t := Apply(persistEvery, s, e);
            t.queued != s.queued + 1 ==>
              t.dirtyUpdates == s.dirtyUpdates + (if e.Mutate? then 1 else 0) && (s.dirty || e.Mutate? ==> t.dirty)
  {
  }

  lemma {:induction false} NoLinkCounts<T(!new)>(
    persistEvery: nat, loaded: T, trace: seq<State<T>>, events: seq<Event<T>>, i: nat, j: nat)
    requires Behavior(persistEvery, loaded, trace, events) && i <= j < |trace|
    requires forall k :: i <= k < j ==> !LinkAdded(trace, k)
    ensures trace[j].dirtyUpdates == trace[i].dirtyUpdates + Mutations(events, i, j)
    ensures trace[i].dirty ==> trace[j].dirty
  {
    if i < j {
      NoLinkCounts(persistEvery, loaded, trace, events, i, j - 1);
      CountStep(persistEvery, trace[j - 1], events[j - 1]);
      assert !LinkAdded(trace, j - 1);
    }
  }

  /** No persistEvery mutations go by without a link being added to the chain at one of the events from
      the first to the last of them. */
  lemma ThresholdFlushes<T(!new)>(
    persistEvery: nat, loaded: T, trace: seq<State<T>>, events: seq<Event<T>>, i: nat, j: nat)
    requires persistEvery >= 1 && Behavior(persistEvery, loaded, trace, events)
    requires i <= j <= |events| && Mutations(events, i, j) >= persistEvery
    ensures exists k :: i <= k < j && LinkAdded(trace, k)
  {
    if forall k :: i <= k < j ==> !LinkAdded(trace, k) {
      NoLinkCounts(persistEvery, loaded, trace, events, i, j);
      FewerThanThreshold(persistEvery, loaded, trace, events, j);
    }
  }

  /** The events from the i-th on are those since the last link was added before the j-th. */
  ghost predicate SinceLink<T(!new)>(trace: seq<State<T>>, i: nat, j: nat) {
    && i <= j && (i == 0 || LinkAdded(trace, i - 1))
    && forall k :: i <= k < j ==> !LinkAdded(trace, k)
  }

  lemma {:induction false} CountedSinceLink<T(!new)>(
    persistEvery: nat, loaded: T, trace: seq<State<T>>, events: seq<Event<T>>, j: nat) returns (i: nat)
    requires Behavior(persistEvery, loaded, trace, events) && j < |trace|
    ensures SinceLink(trace, i, j) && trace[j].dirtyUpdates == Mutations(events, i, j)
  {
    if j == 0 {
      i := 0;
    } else if LinkAdded(trace, j - 1) {
      i := j;
      assert trace[j].dirtyUpdates == 0;
    } else {
      i := CountedSinceLink(persistEvery, loaded, trace, events, j - 1);
      CountStep(persistEvery, trace[j - 1], events[j - 1]);
    }
  }

  /** A mutation adds a link exactly when it is the persistEvery-th since the last one, or a later one. */
  lemma MutationFlushesExactly<T(!new)>(
    persistEvery: nat, loaded: T, trace: seq<State<T>>, events: seq<Event<T>>, k: nat)
    requires Behavior(persistEvery, loaded, trace, events) && k < |events| && events[k].Mutate?
    ensures LinkAdded(trace, k)
            <==> exists i: nat :: SinceLink(trace, i, k) && Mutations(events, i, k + 1) >= persistEvery
  {
    var i := CountedSinceLink(persistEvery, loaded, trace, events, k);
    assert Mutations(events, i, k + 1) == trace[k].dirtyUpdates + 1;
    forall other: nat | SinceLink(trace, other, k)
      ensures other == i
    {
    }
  }

  /** Nor does the timer tick, or the manager stop, after a mutation without one. */
  lemma TickFlushes<T(!new)>(
    persistEvery: nat, loaded: T, trace: seq<State<T>>, events: seq<Event<T>>, i: nat, j: nat)
    requires Behavior(persistEvery, loaded, trace, events) && i < j < |events|
    requires events[i].Mutate? && (events[j].TimerTick? || events[j].Stop?)
    ensures exists k :: i <= k <= j && LinkAdded(trace, k)
  {
    if forall k :: i <= k <= j ==> !LinkAdded(trace, k) {
      assert !LinkAdded(trace, i) && !LinkAdded(trace, j);
      CountStep(persistEvery, trace[i], events[i]);
      NoLinkCounts(persistEvery, loaded, trace, events, i + 1, j);
    }
  }

  /** A failed link makes the manager dirty, so that the next tick or the stop retries it. */
  lemma FailureIsRetried<T(!new)>(
    persistEvery: nat, loaded: T, trace: seq<State<T>>, events: seq<Event<T>>, i: nat, j: nat)
    requires Behavior(persistEvery, loaded, trace, events) && i < j < |events|
    requires events[i].Settle? && trace[i].flight.Rejected? && (events[j].TimerTick? || events[j].Stop?)
    ensures exists k :: i <= k <= j && LinkAdded(trace, k)
  {
    if forall k :: i <= k <= j ==> !LinkAdded(trace, k) {
      assert !LinkAdded(trace, j);
      NoLinkCounts(persistEvery, loaded, trace, events, i + 1, j);
    }
  }

  lemma {:induction false} VersionGrows<T(!new)>(
    persistEvery: nat, loaded: T, trace: seq<State<T>>, events: seq<Event<T>>, i: nat, j: nat)
    requires Behavior(persistEvery, loaded, trace, events) && i <= j < |trace|
    ensures trace[i].version <= trace[j].version
    ensures trace[i].version == trace[j].version ==> trace[i].memory == trace[j].memory
  {
    if i < j {
      VersionGrows(persistEvery, loaded, trace, events, i, j - 1);
    }
  }

  /** A link that starts after a mutation writes its value or a later one. */
  lemma LinkCarriesMutation<T(!new)>(
    persistEvery: nat, loaded: T, trace: seq<State<T>>, events: seq<Event<T>>, i: nat, m: nat)
    requires Behavior(persistEvery, loaded, trace, events) && i < m < |events|
    requires events[i].Mutate? && events[m].StartLink?
    ensures var link := trace[m + 1].flight;
            && link.Writing? && link.version >= trace[i + 1].version
            && (link.version == trace[i + 1].version ==> link.snapshot == events[i].value)
  {
    VersionGrows(persistEvery, loaded, trace, events, i + 1, m);
  }

  // ------------------------------------------------------------ every link comes to an end

  /** How many renames failed by the events from i to k. */
  function RenameFailures<T>(events: seq<Event<T>>, i: nat, k: nat): nat
    requires i <= k <= |events|
  {
    if i == k then 0 else RenameFailures(events, i, k - 1) + if events[k - 1].RenameFailed? then 1 else 0
  }

  /** The tmp file of the link that is renaming at the k-th event was complete with the i-th. */
  ghost predicate LastTmpWritten<T(!new)>(events: seq<Event<T>>, i: nat, k: nat) {
    i < k <= |events| && events[i].TmpWritten? && forall m :: i < m < k ==> !events[m].TmpWritten?
  }

  lemma {:induction false} AttemptsCounted<T(!new)>(
    persistEvery: nat, loaded: T, trace: seq<State<T>>, events: seq<Event<T>>, k: nat) returns (i: nat)
    requires Behavior(persistEvery, loaded, trace, events) && k < |trace| && trace[k].flight.Renaming?
    ensures LastTmpWritten(events, i, k) && trace[k].flight.attempt == RenameFailures(events, i, k) < 5
  {
    if events[k - 1].TmpWritten? {
      i := k - 1;
      assert RenameFailures(events, i, i) == 0;
    } else {
      assert trace[k - 1].flight.Renaming?;
      i := AttemptsCounted(persistEvery, loaded, trace, events, k - 1);
    }
  }

  /** A failed rename gives the link up if and only if it is not worth a retry or is the link's fifth. */
  lemma FifthFailureGivesUp<T(!new)>(
    persistEvery: nat, loaded: T, trace: seq<State<T>>, events: seq<Event<T>>, i: nat, k: nat)
    requires Behavior(persistEvery, loaded, trace, events) && k < |events|
    requires events[k].RenameFailed? && LastTmpWritten(events, i, k)
    ensures trace[k + 1].flight.Rejected? <==> !events[k].retryable || RenameFailures(events, i, k + 1) == 5
    ensures !trace[k + 1].flight.Rejected? ==> trace[k + 1].flight.Renaming?
  {
    var j := AttemptsCounted(persistEvery, loaded, trace, events, k);
    assert i == j;
  }

  predicate LinkEvent<T>(e: Event<T>) {
    !e.Mutate? && !e.TimerTick? && !e.Stop?
  }

  /** An upper bound on the events until the chain has drained. */
  function Work<T>(s: State<T>): int {
    9 * s.queued + match s.flight
                   case Idle => 0
                   case Writing(_, _) => 8
                   case Renaming(_, _, attempt) => 7 - attempt
                   case Landed => 1
                   case Rejected => 1
  }

  lemma LinkEventWorks<T>(persistEvery: nat, s: State<T>, e: Event<T>)
    requires Enabled(s, e) && LinkEvent(e) && Inv(s)
    ensures Work(Apply(persistEvery, s, e)) < Work(s)
  {
  }

  /** Until it has drained there is always a next step of the chain. */
  lemma ChainNeverStuck<T>(s: State<T>) returns (e: Event<T>)
    requires s.queued > 0 || !s.flight.Idle?
    ensures LinkEvent(e) && Enabled(s, e)
  {
    e := match s.flight
         case Idle => StartLink
         case Writing(_, _) => TmpWritten
         case Renaming(_, _, _) => RenameOk
         case Landed => Settle
         case Rejected => Settle;
  }

  /** So stopAndFlush comes to an end: after the call no run has more events than the chain has work. */
  lemma {:induction false} StopDrains<T(!new)>(
    persistEvery: nat, loaded: T, trace: seq<State<T>>, events: seq<Event<T>>, i: nat, j: nat)
    requires Behavior(persistEvery, loaded, trace, events) && i <= j < |trace| && trace[i].stopping
    ensures trace[j].stopping && 0 <= Work(trace[j]) <= Work(trace[i]) - (j - i)
  {
    BehaviorInv(persistEvery, loaded, trace, events, j);
    if i < j {
      StopDrains(persistEvery, loaded, trace, events, i, j - 1);
      BehaviorInv(persistEvery, loaded, trace, events, j - 1);
      LinkEventWorks(persistEvery, trace[j - 1], events[j - 1]);
    }
  }

  // ------------------------------------------------------------ the manager itself

  /** The manager with the fields of the original class. `memory` is the shared upload state,
      `disk` the state file. */
  class StateCheckpointManager<T> {
    const persistEvery: nat
    var memory: T
    var dirty: bool
    var dirtyUpdates: nat
    var queued: nat
    var flight: Flight<T>
    var flushError: bool
    var disk: T
    var timerRunning: bool
    var version: nat       // history variable, like diskVersion
    var diskVersion: nat

    ghost function View(): State<T>
      reads this
    {
      State(memory, version, dirty, dirtyUpdates, queued, flight, flushError, disk, diskVersion, !timerRunning)
    }

    constructor (loaded: T, persistEvery: nat)
      ensures this.persistEvery == persistEvery
      ensures View() == Init(loaded)
    {
      this.persistEvery := persistEvery;
      memory, disk := loaded, loaded;
      dirty, dirtyUpdates, queued, flight, flushError, timerRunning := false, 0, 0, Idle, false, true;
      version, diskVersion := 0, 0;
    }

    method EnqueueFlush()
      modifies this
      ensures View() == Enqueue(old(View()))
    {
      if !dirty {
        return;
      }
      dirty := false;
      dirtyUpdates := 0;
      queued := queued + 1;
    }

    /** One assignment to the upload state followed by markDirty(). */
    method Update(value: T)
      requires timerRunning
      modifies this
      ensures View() == Apply(persistEvery, old(View()), Mutate(value))
    {
      memory, version := value, version + 1;
      dirty := true;
      dirtyUpdates := dirtyUpdates + 1;
      if dirtyUpdates >= persistEvery {
        EnqueueFlush();
      }
    }

    /** One link of the chain from start to finish: persist, then the handlers. `succeeded`
        tells whether the file was replaced; the retry loop is that of the atomic write, with
        `renames` calls of rename, the last of them failing with an error not worth a retry or not. */
    method RunLink(snapshotVersion: nat) returns (succeeded: bool, renames: nat, fatal: bool)
      requires flight.Writing? && flight.version == snapshotVersion
      modifies this`flight, this`disk, this`diskVersion, this`flushError, this`dirty
      ensures flight.Idle?
      ensures succeeded ==>
                disk == old(flight.snapshot) && diskVersion == snapshotVersion && !flushError && dirty == old(dirty)
      ensures !succeeded ==> disk == old(disk) && diskVersion == old(diskVersion) && flushError && dirty
      ensures succeeded ==> 1 <= renames <= 5
      ensures !succeeded ==> renames == 0 || renames == 5 || (fatal && renames < 5)
    {
      var data := flight.snapshot;
      renames, fatal := 0, false;
      var failed: bool := *;
      if failed {
        flight := Rejected;
      } else {
        flight := Renaming(data, flight.version, 0);
        var attempt := 0;
        while attempt < MAX_RENAME_RETRIES && flight.Renaming?
          invariant flight.Renaming? ==>
              flight == Renaming(data, snapshotVersion, attempt) && attempt < MAX_RENAME_RETRIES
          invariant !flight.Landed? ==> disk == old(disk) && diskVersion == old(diskVersion)
          invariant flight.Landed? ==> disk == data && diskVersion == snapshotVersion
          invariant flight.Renaming? || flight.Landed? || flight.Rejected?
          invariant flight.Renaming? ==> renames == attempt
          invariant flight.Landed? ==> 1 <= renames <= 5
          invariant flight.Rejected? ==> renames == 5 || (fatal && renames < 5)
          invariant flushError == old(flushError) && dirty == old(dirty)
          decreases MAX_RENAME_RETRIES - attempt, flight.Renaming?
        {
          var ok: bool, retryable: bool := *, *;
          renames := renames + 1;
          if ok {
            disk, diskVersion := data, snapshotVersion;
            flight := Landed;
          } else if !retryable || attempt == MAX_RENAME_RETRIES - 1 {
            flight, fatal := Rejected, !retryable;
          } else {
            attempt := attempt + 1;
            flight := Renaming(data, snapshotVersion, attempt);
          }
        }
      }
      succeeded := flight.Landed?;
      if succeeded {
        flushError := false;
      } else {
        dirty, flushError := true, true;
      }
      flight := Idle;
    }

    /** stopAndFlush: stop the timer, queue the last flush and await the chain. Nothing mutates the
        upload state any more, so the awaited links are all that runs. */
    method StopAndFlush() returns (threw: bool)
      requires timerRunning && Inv(View())
      requires flight.Idle? || flight.Writing?
      modifies this
      ensures !timerRunning && memory == old(memory)
      ensures !threw ==> disk == old(memory)
      ensures threw ==> flushError && dirty
    {
      timerRunning := false;
      EnqueueFlush();
      while queued > 0 || !flight.Idle?
        invariant !timerRunning && memory == old(memory) && version == old(version)
        invariant flight.Idle? || flight.Writing?
        invariant VersionsAgree(View()) && CoveredOrFailed(View())
        invariant flushError && queued == 0 && flight.Idle? ==> dirty
        decreases queued, !flight.Idle?
      {
        if flight.Idle? {
          flight := Writing(memory, version);
          queued := queued - 1;
        } else {
          var _, _, _ := RunLink(flight.version);
        }
      }
      threw := flushError;
    }
  }
}
