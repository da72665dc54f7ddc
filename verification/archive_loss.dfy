/**
 The condition on the failure limit in ArchiveLifecycle is needed: a run, step by step, that deletes
 an archive one of whose files was neither uploaded nor found in the destination. Its limit is 0; one
 worker stops after the first of two entries, nothing has failed, and the archive counts as done.
*/
module ArchiveLoss {
  import C = Checkpoint
  import opened ArchiveLifecycle
  import opened UploadConditions
  import opened UploadPool
  import opened Wrappers

  const ARCHIVE := "takeout-001.zip"
  const LIMIT_0 := Options(Some(0), true, 100)
  const TWO_FILES := Config([Entry("a", 1), Entry("b", 1)], 0, Some(0), false, 1, 1, 0, 1)

  ghost predicate Reachable(w: World) {
    exists trace: seq<World>, steps: seq<Step> ::
      ArchiveLifecycle.Behavior({ARCHIVE}, map[], map[], trace, steps) && trace[|steps|] == w
  }

  lemma Next(w: World, step: Step, t: World)
    requires Reachable(w) && ArchiveLifecycle.Enabled(w, step) && t == ArchiveLifecycle.Apply(w, step)
    ensures Reachable(t)
  {
    var trace: seq<World>, steps: seq<Step> :|
      ArchiveLifecycle.Behavior({ARCHIVE}, map[], map[], trace, steps) && trace[|steps|] == w;
    assert ArchiveLifecycle.Behavior({ARCHIVE}, map[], map[], trace + [t], steps + [step]);
  }

  // ------------------------------------------------------------ the states of the run

  const ONLY_A: Items := map["a" := Skipped(0)]
  const NOTHING := Summary(0, 0, 0, 0, 0, 0, 0, 0, 0)
  const ONE_SKIPPED := Summary(1, 0, 1, 0, 0, 0, 0, 0, 1)
  const NO_BREAKER := Breaker([], 0)

  function Idle(): World {
    World({ARCHIVE}, map[], map[], map[], LIMIT_0, Off, map[], {})
  }

  function Extracted(): World {
    var status := map[ARCHIVE := Extracting];
    World({ARCHIVE}, map[], status, status, LIMIT_0, Preparing(ARCHIVE), map[], {})
  }

  function During(pool: State, ck: C.State<Items>): World {
    var status := map[ARCHIVE := Status.Uploading];
    World({ARCHIVE}, ck.disk, status, status, LIMIT_0, Transfer(ARCHIVE, TWO_FILES, map[], pool, ck), map[], {})
  }

  function Fresh(): State {
    State(0, false, [NotStarted], map[], NOTHING, NO_BREAKER, map[], 0, 0, History({}, 0, [], 0, 0))
  }

  function CheckingA(): State {
    State(1, false, [Checking(0, 0)], map[], NOTHING, NO_BREAKER, map[], 0, 0, History({}, 0, [], 0, 0))
  }

  function FoundA(): State {
    State(1, false, [Returned], ONLY_A, ONE_SKIPPED, NO_BREAKER, map[], 0, 0, History({0}, 0, [], 0, 1))
  }

  function Stopped(): State {
    State(1, true, [Done], ONLY_A, ONE_SKIPPED, NO_BREAKER, map[], 0, 0, History({0}, 0, [], 0, 1))
  }

  function Clean(): C.State<Items> {
    C.State(map[], 0, false, 0, 0, C.Idle, false, map[], 0, false)
  }

  function Dirty(): C.State<Items> {
    C.State(ONLY_A, 1, true, 1, 0, C.Idle, false, map[], 0, false)
  }

  function Flushing(queued: nat, flight: C.Flight<Items>): C.State<Items> {
    C.State(ONLY_A, 1, false, 0, queued, flight, false, map[], 0, true)
  }

  function Flushed(flight: C.Flight<Items>): C.State<Items> {
    C.State(ONLY_A, 1, false, 0, 0, flight, false, ONLY_A, 1, true)
  }

  function Finished(phase: Phase, status: map<string, Status>, present: set<string>): World {
    World(present, ONLY_A, status, status, LIMIT_0, phase, map[ARCHIVE := ["a", "b"]], {"a"})
  }

  // ----------------------------------------------------------------- and its steps

  lemma Extraction()
    ensures Reachable(Extracted())
  {
    assert GoodKeys(map[]) == {};
    var none: seq<Step> := [];
    assert ArchiveLifecycle.Behavior({ARCHIVE}, map[], map[], [Idle()], none);
    var running := Idle().(phase := Between);
    Next(Idle(), StartRun(LIMIT_0), running);
    Next(running, StartArchive(ARCHIVE), Extracted());
  }

  lemma UploadStarts()
    ensures Reachable(During(Fresh(), Clean()))
  {
    Extraction();
    assert GoodKeys(map[]) == {};
    assert UploadPool.Init(TWO_FILES, map[], 0) == Fresh();
    Next(Extracted(), StartUpload(TWO_FILES, 0), During(Fresh(), Clean()));
  }

  lemma WorkerChecksA()
    ensures Reachable(During(CheckingA(), Clean()))
  {
    UploadStarts();
    assert UploadPool.Apply(TWO_FILES, Fresh(), Resume(0, 0)) == CheckingA();
    Next(During(Fresh(), Clean()), Pool(Resume(0, 0)), During(CheckingA(), Clean()));
  }

  lemma WorkerFindsA()
    ensures Reachable(During(FoundA(), Dirty()))
  {
    WorkerChecksA();
    assert UploadPool.Apply(TWO_FILES, CheckingA(), Checked(0, true, true)) == FoundA();
    Next(During(CheckingA(), Clean()), Pool(Checked(0, true, true)), During(FoundA(), Dirty()));
  }

  lemma WorkerStops()
    ensures Reachable(During(Stopped(), Dirty()))
  {
    WorkerFindsA();
    assert UploadPool.Apply(TWO_FILES, FoundA(), Resume(0, 0)) == Stopped();
    Next(During(FoundA(), Dirty()), Pool(Resume(0, 0)), During(Stopped(), Dirty()));
  }

  lemma FlushBegins()
    ensures Reachable(During(Stopped(), Flushing(1, C.Idle)))
  {
    WorkerStops();
    Next(During(Stopped(), Dirty()), PoolDone, During(Stopped(), Flushing(1, C.Idle)));
  }

  lemma FlushGoesOn(ck: C.State<Items>, e: C.Event<Items>, next: C.State<Items>)
    requires Reachable(During(Stopped(), ck)) && BackgroundEvent(e)
    requires C.Enabled(ck, e) && next == C.Apply(LIMIT_0.persistEvery, ck, e)
    ensures Reachable(During(Stopped(), next))
  {
    Next(During(Stopped(), ck), Background(e), During(Stopped(), next));
  }

  lemma StateIsFlushed()
    ensures Reachable(During(Stopped(), Flushed(C.Idle)))
  {
    FlushBegins();
    FlushGoesOn(Flushing(1, C.Idle), C.StartLink, Flushing(0, C.Writing(ONLY_A, 1)));
    FlushGoesOn(Flushing(0, C.Writing(ONLY_A, 1)), C.TmpWritten, Flushing(0, C.Renaming(ONLY_A, 1, 0)));
    FlushGoesOn(Flushing(0, C.Renaming(ONLY_A, 1, 0)), C.RenameOk, Flushed(C.Landed));
    FlushGoesOn(Flushed(C.Landed), C.Settle, Flushed(C.Idle));
  }

  lemma UploadReturns()
    ensures Reachable(Finished(Reported(ARCHIVE, 0), map[ARCHIVE := Status.Uploading], {ARCHIVE}))
  {
    StateIsFlushed();
    assert GoodKeys(ONLY_A) == {"a"};
    assert Keys(TWO_FILES) == ["a", "b"];
    Next(During(Stopped(), Flushed(C.Idle)), FlushReturned,
         Finished(Reported(ARCHIVE, 0), map[ARCHIVE := Status.Uploading], {ARCHIVE}));
  }

  lemma ArchiveIsRemoved()
    ensures Reachable(Finished(Between, map[ARCHIVE := Completed], {}))
  {
    UploadReturns();
    var uploading, completed := map[ARCHIVE := Status.Uploading], map[ARCHIVE := Completed];
    var filed := Finished(Filed(ARCHIVE, 0), completed, {ARCHIVE});
    Next(Finished(Reported(ARCHIVE, 0), uploading, {ARCHIVE}), FileStatus, filed);
    Next(filed, RemoveArchive, Finished(Between, completed, {}));
  }

  /** With a limit of 0 a world is reached in which the archive is gone and completed, and the key of one
      of its manifest's entries is not in the state file at all. */
  lemma LimitBelowOneLosesAFile()
    ensures exists w :: Reachable(w) && ARCHIVE !in w.present && ARCHIVE in w.recorded && "b" in w.recorded[ARCHIVE]
              && "b" !in w.stateFile && w.statusFile == map[ARCHIVE := Completed]
  {
    ArchiveIsRemoved();
  }
}
