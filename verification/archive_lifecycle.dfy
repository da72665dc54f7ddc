/**
 Incremental runs that are no dry runs (src/takeout/incremental.ts), any number of them, with a crash
 possible between any two steps.
*/
module ArchiveLifecycle {
  import C = Checkpoint
  import opened UploadConditions
  import opened UploadPool
  import opened Wrappers

  // A run extracts an archive, uploads its files with the checkpoint manager running beside, files its
  // status, and removes it (by deletion or a move).
  //
  // `World` is what a crash leaves behind (archives on disk, state file, status file) together with
  // the running process, if any. The upload phase is the worker pool of UploadPool and the manager
  // of Checkpoint run in lockstep: every assignment to the upload state marks the manager dirty.

  datatype Status = Extracting | Uploading | Completed | Failed

  datatype Options = Options(maxFailures: Option<int>, removeArchive: bool, persistEvery: nat)

  datatype Phase =
    | Off                                                            // no process
    | Between                                                        // at an archive boundary
    | Preparing(name: string)                                        // extracting, building the manifest
    // uploadManifest is running; once ck.stopping is set it awaits stopAndFlush
    | Transfer(name: string, cfg: Config, loaded: Items, pool: State, ck: C.State<Items>)
    | Reported(name: string, failed: nat)                            // uploadManifest returned
    | Filed(name: string, failed: nat)                               // status persisted, post-upload work left

  /** `recorded` and `sealed` are history variables: the destination keys of each archive whose
      upload ended without a failure, and the keys found uploaded or skipped in the state file when
      it was last loaded or completely flushed. */
  datatype World = World(
    present: set<string>,
    stateFile: Items,
    statusFile: map<string, Status>,
    status: map<string, Status>,          // the running process's copy
    options: Options,                     // of the running process
    phase: Phase,
    recorded: map<string, seq<string>>,
    sealed: set<string>
  )

  datatype Step =
    | StartRun(options: Options)
    | EndRun
    | Crash
    | StartArchive(name: string)
    | FailArchive                          // an exception on the way: the catch block
    | EmptyArchive                         // no media at all: completed without an upload
    | StartUpload(cfg: Config, now: int)
    | Pool(event: UploadPool.Event)
    | Background(link: C.Event<Items>)    // timer ticks and the promise chain
    | PoolDone                             // every worker returned; stopAndFlush is called
    | FlushReturned
    | FlushThrew
    | FileStatus                           // archive-state.json written
    | FileStatusFailed                     // that write threw; the in-memory status has its new value
    | RemoveArchive                        // unlink, or move to the completed directory
    | KeepArchive

  ghost predicate Init(archives: set<string>, stateFile: Items, statusFile: map<string, Status>, w: World) {
    && w.present == archives && w.stateFile == stateFile && w.statusFile == statusFile
    && w.phase.Off? && w.status == map[] && w.recorded == map[] && w.sealed == GoodKeys(stateFile)
  }

  predicate BackgroundEvent(e: C.Event<Items>) {
    !e.Mutate? && !e.Stop?
  }

  predicate Enabled(w: World, step: Step) {
    var ph, o := w.phase, w.options;
    match step
    case StartRun(_) => ph.Off?
    case EndRun => ph.Between?
    case Crash => !ph.Off?
    case StartArchive(name) => ph.Between? && name in w.present && !(name in w.status && w.status[name].Completed?)
    case FailArchive => ph.Preparing? || ph.Reported?
    case EmptyArchive => ph.Preparing?
    case StartUpload(cfg, _) => ph.Preparing? && cfg.Valid() && !cfg.dryRun && cfg.maxFailures == o.maxFailures
    case Pool(e) => ph.Transfer? && UploadPool.Enabled(ph.cfg, ph.pool, e)
    case Background(e) => ph.Transfer? && BackgroundEvent(e) && C.Enabled(ph.ck, e)
    case PoolDone => ph.Transfer? && AllDone(ph.pool) && !ph.ck.stopping
    case FlushReturned => ph.Transfer? && C.Returned(ph.ck)
    case FlushThrew => ph.Transfer? && C.Threw(ph.ck)
    case FileStatus => ph.Reported?
    case FileStatusFailed => ph.Reported?
    case RemoveArchive => ph.Filed? && ph.failed == 0 && o.removeArchive
    case KeepArchive => ph.Filed?
  }

  function Keys(cfg: Config): seq<string> {
    seq(|cfg.entries|, i requires 0 <= i < |cfg.entries| => cfg.entries[i].key)
  }

  function GoodKeys(items: Items): set<string> {
    set k | k in items && Good(items, k)
  }

  function Mark(w: World, name: string, s: Status): World {
    w.(status := w.status[name := s])
  }

  /** persistArchiveState writes the whole in-memory copy. */
  function Persist(w: World): World {
    w.(statusFile := w.status)
  }

  function Apply(w: World, step: Step): World
    requires Enabled(w, step)
  {
    var ph, o := w.phase, w.options;
    match step
    case StartRun(options) => w.(status := w.statusFile, options := options, phase := Between)
    case EndRun => w.(status := map[], phase := Off)
    case Crash => w.(status := map[], phase := Off)
    case StartArchive(name) => Persist(Mark(w, name, Extracting)).(phase := Preparing(name))
    case FailArchive => Persist(Mark(w, ph.name, Status.Failed)).(phase := Between)
    case EmptyArchive => Persist(Mark(w, ph.name, Completed)).(phase := Between, recorded := w.recorded[ph.name := []])
    case StartUpload(cfg, now) =>
      Persist(Mark(w, ph.name, Status.Uploading)).(
        phase := Transfer(ph.name, cfg, w.stateFile, UploadPool.Init(cfg, w.stateFile, now), C.Init(w.stateFile)),
        sealed := w.sealed + GoodKeys(w.stateFile))
    case Pool(e) =>
      var pool' := UploadPool.Apply(ph.cfg, ph.pool, e);
      var ck' := if pool'.history.writes == ph.pool.history.writes then ph.ck
                 else C.Mutated(o.persistEvery, ph.ck, pool'.items);
      w.(phase := ph.(pool := pool', ck := ck'))
    case Background(e) =>
      var ck' := C.Apply(o.persistEvery, ph.ck, e);
      w.(phase := ph.(ck := ck'), stateFile := ck'.disk)
    case PoolDone =>
      w.(phase := ph.(ck := C.Apply(o.persistEvery, ph.ck, C.Stop)))
    case FlushReturned =>
      w.(phase := Reported(ph.name, ph.pool.summary.failed),
         recorded := if ph.pool.summary.failed == 0 then w.recorded[ph.name := Keys(ph.cfg)] else w.recorded,
         sealed := w.sealed + GoodKeys(w.stateFile))
    case FlushThrew => Persist(Mark(w, ph.name, Status.Failed)).(phase := Between)
    case FileStatus =>
      Persist(Mark(w, ph.name, if ph.failed > 0 then Status.Failed else Completed)).(phase := Filed(ph.name, ph.failed))
    case FileStatusFailed =>
      // the catch block leaves a completed status alone and writes a failed one again
      if ph.failed > 0 then Mark(w, ph.name, Status.Failed)
      else Mark(w, ph.name, Completed).(phase := Between)
    case RemoveArchive => w.(present := w.present - {ph.name}, phase := Between)
    case KeepArchive => w.(phase := Between)
  }

  ghost predicate Behavior(archives: set<string>, stateFile: Items, statusFile: map<string, Status>,
                           trace: seq<World>, steps: seq<Step>) {
    && |trace| == |steps| + 1
    && Init(archives, stateFile, statusFile, trace[0])
    && forall i :: 0 <= i < |steps| ==> Enabled(trace[i], steps[i]) && trace[i + 1] == Apply(trace[i], steps[i])
  }

  // ------------------------------------------------------------------- invariant

  /** Every sealed key is recorded uploaded or skipped in `items`. */
  ghost predicate Holds(sealed: set<string>, items: Items) {
    forall k :: k in sealed ==> Good(items, k)
  }

  /** The manager's memory, its snapshot in flight and the file all keep the sealed keys. */
  ghost predicate ManagerHolds(sealed: set<string>, ck: C.State<Items>) {
    && Holds(sealed, ck.memory)
    && Holds(sealed, ck.disk)
    && (ck.flight.Writing? || ck.flight.Renaming? ==> Holds(sealed, ck.flight.snapshot))
  }

  ghost predicate InUpload(w: World) {
    var ph := w.phase;
    ph.Transfer? ==>
      && Reaches(ph.cfg, ph.loaded, ph.pool)
      && !ph.cfg.dryRun && ph.cfg.maxFailures == w.options.maxFailures
      && C.Inv(ph.ck)
      && ph.ck.memory == ph.pool.items
      && ph.ck.disk == w.stateFile
      && ManagerHolds(w.sealed, ph.ck)
      && Holds(w.sealed, ph.loaded)
      && (ph.ck.stopping ==> AllDone(ph.pool))
  }

  /** A recorded archive's keys are all sealed. */
  ghost predicate RecordedSealed(w: World) {
    forall a, i :: a in w.recorded && 0 <= i < |w.recorded[a]| ==> w.recorded[a][i] in w.sealed
  }

  ghost predicate Accounted(w: World, statusFile: map<string, Status>, name: string) {
    name in w.recorded || (name in statusFile && statusFile[name].Completed?)
  }

  ghost predicate Books(archives: set<string>, statusFile: map<string, Status>, w: World) {
    && (forall a :: a in archives && a !in w.present ==> a in w.recorded)
    && (forall a :: a in w.statusFile && w.statusFile[a].Completed? ==> Accounted(w, statusFile, a))
    && (forall a :: a in w.status && w.status[a].Completed? ==> Accounted(w, statusFile, a))
    && ((w.phase.Reported? || w.phase.Filed?) && w.phase.failed == 0 ==> w.phase.name in w.recorded)
  }

  /** What no option can break: keys once found or flushed as uploaded or skipped stay in the file. */
  ghost predicate FileInv(w: World) {
    InUpload(w) && Holds(w.sealed, w.stateFile)
  }

  /** After stopAndFlush was called no worker has an event left: all have returned. So the upload state
      is frozen while the last flush runs. */
  lemma StoppedPoolIsQuiet(w: World, e: UploadPool.Event)
    requires InUpload(w) && w.phase.Transfer? && w.phase.ck.stopping
    ensures !Enabled(w, Pool(e))
  {
  }

  lemma PoolStepKeepsUpload(w: World, e: UploadPool.Event)
    requires Enabled(w, Pool(e)) && InUpload(w)
    ensures InUpload(Apply(w, Pool(e)))
  {
    var ph := w.phase;
    var pool' := UploadPool.Apply(ph.cfg, ph.pool, e);
    if ph.ck.stopping {
      StoppedPoolIsQuiet(w, e);
    }
    ReachStep(ph.cfg, ph.loaded, ph.pool, e);
    ReachesInv(ph.cfg, ph.loaded, pool');
    forall k | k in w.sealed
      ensures Good(pool'.items, k)
    {
      assert Good(ph.loaded, k);
    }
    NoWriteNoChange(ph.cfg, ph.pool, e);
    if pool'.history.writes != ph.pool.history.writes {
      C.ApplyKeepsInv(w.options.persistEvery, ph.ck, C.Mutate(pool'.items));
    }
  }

  /** Every change of the upload state is followed by markDirty. */
  lemma NoWriteNoChange(c: Config, s: State, e: UploadPool.Event)
    requires UploadPool.Enabled(c, s, e)
    ensures UploadPool.Apply(c, s, e).history.writes == s.history.writes ==> UploadPool.Apply(c, s, e).items == s.items
  {
  }

  lemma BackgroundKeepsUpload(w: World, e: C.Event<Items>)
    requires Enabled(w, Background(e)) && InUpload(w)
    ensures InUpload(Apply(w, Background(e)))
    ensures Holds(w.sealed, Apply(w, Background(e)).stateFile)
  {
    C.ApplyKeepsInv(w.options.persistEvery, w.phase.ck, e);
  }

  lemma StartUploadKeepsUpload(w: World, cfg: Config, now: int)
    requires Enabled(w, StartUpload(cfg, now)) && Holds(w.sealed, w.stateFile)
    ensures InUpload(Apply(w, StartUpload(cfg, now)))
  {
    ReachInit(cfg, w.stateFile, now);
    C.InitInv(w.stateFile);
  }

  lemma StepKeepsFileInv(w: World, step: Step)
    requires Enabled(w, step) && FileInv(w)
    ensures FileInv(Apply(w, step)) && w.sealed <= Apply(w, step).sealed
  {
    match step {
      case Pool(e) => PoolStepKeepsUpload(w, e);
      case Background(e) => BackgroundKeepsUpload(w, e);
      case StartUpload(cfg, now) => StartUploadKeepsUpload(w, cfg, now);
      case PoolDone => C.ApplyKeepsInv(w.options.persistEvery, w.phase.ck, C.Stop);
      case _ =>
    }
  }

  /** Every crash, restart and step of every run keeps the file invariant, and never unseals a key. */
  lemma {:induction false} FileInvAlways(archives: set<string>, stateFile: Items, statusFile: map<string, Status>,
                                         trace: seq<World>, steps: seq<Step>, i: nat, j: nat)
    requires Behavior(archives, stateFile, statusFile, trace, steps) && i <= j < |trace|
    ensures FileInv(trace[j]) && trace[i].sealed <= trace[j].sealed
    decreases j
  {
    if j > 0 {
      FileInvAlways(archives, stateFile, statusFile, trace, steps, if i < j then i else j - 1, j - 1);
      StepKeepsFileInv(trace[j - 1], steps[j - 1]);
    }
  }

  /** A key found uploaded or skipped when an upload loads the state file stays so in that file for
      ever after: through later uploads with whatever options, failed flushes, crashes and restarts. */
  lemma LoadedKeysNeverRegress(archives: set<string>, stateFile: Items, statusFile: map<string, Status>,
                               trace: seq<World>, steps: seq<Step>, load: nat, j: nat, key: string)
    requires Behavior(archives, stateFile, statusFile, trace, steps)
    requires load < j < |trace| && steps[load].StartUpload? && Good(trace[load].stateFile, key)
    ensures Good(trace[j].stateFile, key)
  {
    assert key in trace[load + 1].sealed;
    FileInvAlways(archives, stateFile, statusFile, trace, steps, load + 1, j);
  }

  // -------------------------------------------------- uploads that end without a failure

  /** An upload returns having reported no failure: its archive counts as done. */
  predicate EndsClean(w: World, step: Step) {
    step.FlushReturned? && w.phase.Transfer? && w.phase.pool.summary.failed == 0
  }

  /** Its limit let it record everything. */
  ghost predicate Covered(w: World) {
    w.phase.Transfer? ==> Covers(w.phase.cfg, w.phase.loaded)
  }

  /** When an upload returns without a failure, every key of the manifest is in the state file if and
      only if the limit allowed the upload to get to all entries. */
  lemma FlushedFileHasAllKeysExactly(w: World)
    requires Enabled(w, FlushReturned) && EndsClean(w, FlushReturned) && InUpload(w)
    ensures w.stateFile == w.phase.pool.items
    ensures (forall i :: 0 <= i < |Keys(w.phase.cfg)| ==> Good(w.stateFile, Keys(w.phase.cfg)[i])) <==> Covered(w)
  {
    var ph := w.phase;
    AllRecordedExactly(ph.cfg, ph.loaded, ph.pool);
    assert forall i :: 0 <= i < |Keys(ph.cfg)| ==> Keys(ph.cfg)[i] == ph.cfg.entries[i].key;
  }

  lemma StepKeepsRecorded(w: World, step: Step)
    requires Enabled(w, step) && FileInv(w) && RecordedSealed(w)
    requires EndsClean(w, step) ==> Covered(w)
    ensures RecordedSealed(Apply(w, step))
  {
    StepKeepsFileInv(w, step);
    if EndsClean(w, step) {
      FlushedFileHasAllKeysExactly(w);
      var keys := Keys(w.phase.cfg);
      assert forall i :: 0 <= i < |keys| ==> keys[i] in GoodKeys(w.stateFile);
    }
  }

  lemma StepKeepsBooks(archives: set<string>, statusFile: map<string, Status>, w: World, step: Step)
    requires Enabled(w, step) && Books(archives, statusFile, w)
    ensures Books(archives, statusFile, Apply(w, step))
  {
  }

  lemma {:induction false} BooksAlways(archives: set<string>, stateFile: Items, statusFile: map<string, Status>,
                                       trace: seq<World>, steps: seq<Step>, i: nat)
    requires Behavior(archives, stateFile, statusFile, trace, steps) && i < |trace|
    ensures Books(archives, statusFile, trace[i])
  {
    if i > 0 {
      BooksAlways(archives, stateFile, statusFile, trace, steps, i - 1);
      StepKeepsBooks(archives, statusFile, trace[i - 1], steps[i - 1]);
    }
  }

  /** The uploads that ended without a failure in the first n steps were all covered. */
  ghost predicate AllCovered(trace: seq<World>, steps: seq<Step>, n: nat)
    requires n <= |steps| <= |trace|
  {
    forall i :: 0 <= i < n && EndsClean(trace[i], steps[i]) ==> Covered(trace[i])
  }

  lemma {:induction false} RecordedAlways(archives: set<string>, stateFile: Items, statusFile: map<string, Status>,
                                          trace: seq<World>, steps: seq<Step>, i: nat)
    requires Behavior(archives, stateFile, statusFile, trace, steps) && i < |trace| && AllCovered(trace, steps, i)
    ensures RecordedSealed(trace[i])
  {
    if i > 0 {
      RecordedAlways(archives, stateFile, statusFile, trace, steps, i - 1);
      FileInvAlways(archives, stateFile, statusFile, trace, steps, 0, i - 1);
      StepKeepsRecorded(trace[i - 1], steps[i - 1]);
    }
  }

  /** Each archive whose upload ended without a failure has all its manifest's keys in the state file. */
  ghost predicate RecordedInFile(w: World) {
    forall a, i :: a in w.recorded && 0 <= i < |w.recorded[a]| ==> Good(w.stateFile, w.recorded[a][i])
  }

  lemma UncoveredShows(archives: set<string>, stateFile: Items, statusFile: map<string, Status>,
                       trace: seq<World>, steps: seq<Step>, i: nat)
    requires Behavior(archives, stateFile, statusFile, trace, steps) && i < |steps|
    requires EndsClean(trace[i], steps[i]) && !Covered(trace[i])
    ensures !RecordedInFile(trace[i + 1])
  {
    var w, t := trace[i], trace[i + 1];
    FileInvAlways(archives, stateFile, statusFile, trace, steps, 0, i);
    FlushedFileHasAllKeysExactly(w);
    var k :| 0 <= k < |Keys(w.phase.cfg)| && !Good(w.stateFile, Keys(w.phase.cfg)[k]);
    assert t.recorded[w.phase.name] == Keys(w.phase.cfg) && t.stateFile == w.stateFile;
  }

  /** At every crash point of any sequence of real runs, whatever their options, the archives that count
      as done have all their keys in the state file on disk if and only if every upload that ended
      without a failure was allowed by its limit to get to all entries. */
  lemma RecordedInFileExactly(archives: set<string>, stateFile: Items, statusFile: map<string, Status>,
                              trace: seq<World>, steps: seq<Step>)
    requires Behavior(archives, stateFile, statusFile, trace, steps)
    ensures (forall i :: 0 <= i < |trace| ==> RecordedInFile(trace[i])) <==> AllCovered(trace, steps, |steps|)
  {
    if AllCovered(trace, steps, |steps|) {
      forall i | 0 <= i < |trace|
        ensures RecordedInFile(trace[i])
      {
        assert AllCovered(trace, steps, i);
        RecordedAlways(archives, stateFile, statusFile, trace, steps, i);
        FileInvAlways(archives, stateFile, statusFile, trace, steps, 0, i);
      }
    } else {
      var i :| 0 <= i < |steps| && EndsClean(trace[i], steps[i]) && !Covered(trace[i]);
      UncoveredShows(archives, stateFile, statusFile, trace, steps, i);
    }
  }

  // --------------------------------------------------------------- main theorems

  /** Every run of the sequence has a limit that is absent or at least 1. Each may have another one. */
  predicate LimitsAllowWork(steps: seq<Step>) {
    forall i :: 0 <= i < |steps| && steps[i].StartRun? ==> LimitAllowsWork(steps[i].options.maxFailures)
  }

  lemma {:induction false} RunningLimit(archives: set<string>, stateFile: Items, statusFile: map<string, Status>,
                                        trace: seq<World>, steps: seq<Step>, i: nat)
    requires Behavior(archives, stateFile, statusFile, trace, steps) && LimitsAllowWork(steps) && i < |trace|
    ensures !trace[i].phase.Off? ==> LimitAllowsWork(trace[i].options.maxFailures)
    ensures Covered(trace[i])
  {
    FileInvAlways(archives, stateFile, statusFile, trace, steps, 0, i);
    if i > 0 {
      RunningLimit(archives, stateFile, statusFile, trace, steps, i - 1);
      OptionsStay(trace[i - 1], steps[i - 1]);
    }
  }

  lemma OptionsStay(w: World, step: Step)
    requires Enabled(w, step)
    ensures !step.StartRun? ==> Apply(w, step).options == w.options && (w.phase.Off? ==> Apply(w, step).phase.Off?)
    ensures step.StartRun? ==> Apply(w, step).options == step.options
  {
  }

  lemma RecordedUnderLimits(archives: set<string>, stateFile: Items, statusFile: map<string, Status>,
                            trace: seq<World>, steps: seq<Step>, i: nat)
    requires Behavior(archives, stateFile, statusFile, trace, steps) && LimitsAllowWork(steps) && i < |trace|
    ensures RecordedInFile(trace[i])
  {
    forall j | 0 <= j < |steps|
      ensures Covered(trace[j])
    {
      RunningLimit(archives, stateFile, statusFile, trace, steps, j);
    }
    RecordedInFileExactly(archives, stateFile, statusFile, trace, steps);
  }

  /** At every crash point of any sequence of real runs, each with its own options, an archive is gone
      from disk only if every destination key of its manifest is recorded uploaded or skipped in the
      state file on disk. */
  lemma GoneMeansRecorded(archives: set<string>, stateFile: Items, statusFile: map<string, Status>,
                          trace: seq<World>, steps: seq<Step>, i: nat, name: string)
    requires Behavior(archives, stateFile, statusFile, trace, steps) && LimitsAllowWork(steps) && i < |trace|
    requires name in archives && name !in trace[i].present
    ensures name in trace[i].recorded
    ensures forall k :: k in trace[i].recorded[name] ==> Good(trace[i].stateFile, k)
  {
    BooksAlways(archives, stateFile, statusFile, trace, steps, i);
    RecordedUnderLimits(archives, stateFile, statusFile, trace, steps, i);
  }

  /** The status file is as trustworthy: an archive it lists as completed, and did not at the start,
      has all its keys in the state file. Later runs skip such an archive. */
  lemma CompletedMeansRecorded(archives: set<string>, stateFile: Items, statusFile: map<string, Status>,
                               trace: seq<World>, steps: seq<Step>, i: nat, name: string)
    requires Behavior(archives, stateFile, statusFile, trace, steps) && LimitsAllowWork(steps) && i < |trace|
    requires name in trace[i].statusFile && trace[i].statusFile[name].Completed?
    requires !(name in statusFile && statusFile[name].Completed?)
    ensures name in trace[i].recorded
    ensures forall k :: k in trace[i].recorded[name] ==> Good(trace[i].stateFile, k)
  {
    BooksAlways(archives, stateFile, statusFile, trace, steps, i);
    RecordedUnderLimits(archives, stateFile, statusFile, trace, steps, i);
  }

  // ------------------------------------------------------------- what a run comes to

  /** An upload that ends without a failure, and only that, leads to a completed archive in the status
      file, and to the archive's removal where the options ask for it; the other archives stay. */
  lemma CompletesExactly(w: World)
    requires Enabled(w, FlushReturned)
    ensures var name, clean, reported := w.phase.name, w.phase.pool.summary.failed == 0, Apply(w, FlushReturned);
            && Enabled(reported, FileStatus)
            && var filed := Apply(reported, FileStatus);
               && filed.statusFile == w.status[name := if clean then Completed else Status.Failed]
               && filed.present == w.present && filed.stateFile == w.stateFile
               && (Enabled(filed, RemoveArchive) <==> clean && w.options.removeArchive)
               && (Enabled(filed, RemoveArchive) ==> Apply(filed, RemoveArchive).present == w.present - {name})
               && Enabled(filed, KeepArchive) && Apply(filed, KeepArchive).present == w.present
  {
  }

  /** Where that write fails, the archive is kept; the next status write of the run, for another archive,
      carries the completed status, and a failed one is written again at once. */
  lemma UnfiledStatusIsCarried(w: World, next: string)
    requires Enabled(w, FlushReturned) && next != w.phase.name
    ensures var name, reported := w.phase.name, Apply(w, FlushReturned);
            && Enabled(reported, FileStatusFailed)
            && var unfiled := Apply(reported, FileStatusFailed);
               && unfiled.statusFile == w.statusFile && unfiled.present == w.present
               && if w.phase.pool.summary.failed == 0 then
                    Enabled(unfiled, StartArchive(next)) ==>
                      Apply(unfiled, StartArchive(next)).statusFile == w.status[name := Completed][next := Extracting]
                  else
                    && Enabled(unfiled, FailArchive) && !Enabled(unfiled, StartArchive(next))
                    && Apply(unfiled, FailArchive).statusFile == w.status[name := Status.Failed]
  {
  }

  /** An archive leaves the disk by a removal only, and by no crash. */
  lemma LeavesExactly(w: World, step: Step, name: string)
    requires Enabled(w, step)
    ensures name in w.present && name !in Apply(w, step).present
            <==> step == RemoveArchive && name in w.present && w.phase.Filed? && name == w.phase.name
    ensures Apply(w, step).present <= w.present
  {
  }

  /** The next run processes every archive that is still there, but those that are completed. */
  lemma RestartsExactly(w: World, options: Options, name: string)
    requires w.phase.Off?
    ensures Enabled(Apply(w, StartRun(options)), StartArchive(name))
            <==> name in w.present && (name in w.statusFile ==> w.statusFile[name] != Completed)
  {
  }
}
