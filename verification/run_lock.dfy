/**
 The cross-process run lock (src/takeout/run-lock.ts) as a protocol: any number of processes, each
 file-system call of acquire, release and heartbeat one step, crashes anywhere.
*/
module RunLock {
  import opened Wrappers

  // A record stands for the JSON written by one acquire and is identified by its instance id, which
  // crypto.randomUUID makes fresh. Judging a record dead is a nondeterministic outcome, allowed only
  // when no process has that handle open: holders are judged alive until their release is over.

  datatype File =
    | Absent
    | Garbage                     // cannot be parsed, not being written by anyone
    | Partial(instance: nat)      // created with O_EXCL, content not yet written: cannot be parsed
    | Holds(instance: nat)

  datatype Pc =
    | Idle
    | Judged(dead: nat, retry: bool)    // readRunLock found a dead record and is about to remove the file
    | Creating(retry: bool)             // about to create the file with O_EXCL
    | Rereading                         // EEXIST: readRunLock again before the one retry
    | Filling(instance: nat)            // created, about to write the content
    | Holding(instance: nat)            // acquireRunLock has returned a handle
    | Releasing(instance: nat)          // `released` is set, about to read the file
    | Removing(instance: nat)           // read its own record, about to remove the file
  {
    /** The process has a handle, or is on its way in or out of one. */
    predicate Active() {
      Filling? || Holding? || Releasing? || Removing?
    }
  }

  /** `beat`: a heartbeat that has read its own record and whose rename is outstanding. It runs beside
      the rest of its process, so a release may overtake it. */
  datatype Proc = Proc(pc: Pc, beat: Option<nat>)

  datatype State = State(file: File, procs: seq<Proc>, next: nat)

  datatype Step =
    | Read(p: nat, judgedAlive: bool)
    | RemoveStale(p: nat)
    | Create(p: nat)
    | Fill(p: nat)
    | ReleaseStart(p: nat)
    | ReleaseRead(p: nat)
    | ReleaseRemove(p: nat)
    | BeatRead(p: nat)
    | BeatRename(p: nat)
    | Crash(p: nat)
    | Corrupt(p: nat)

  predicate ActiveInstance(s: State, instance: nat) {
    exists p :: 0 <= p < |s.procs| && s.procs[p].pc.Active() && s.procs[p].pc.instance == instance
  }

  predicate Enabled(s: State, step: Step) {
    && step.p < |s.procs|
    && var proc := s.procs[step.p];
       match step
       case Read(_, judgedAlive) =>
         && (proc.pc.Idle? || proc.pc.Rereading?)
         && (s.file.Holds? && !judgedAlive ==> !ActiveInstance(s, s.file.instance))
       case RemoveStale(_) => proc.pc.Judged?
       case Create(_) => proc.pc.Creating?
       case Fill(_) => proc.pc.Filling?
       case ReleaseStart(_) => proc.pc.Holding?
       case ReleaseRead(_) => proc.pc.Releasing?
       case ReleaseRemove(_) => proc.pc.Removing?
       case BeatRead(_) => proc.pc.Holding? && proc.beat.None?
       case BeatRename(_) => proc.beat.Some?
       case Crash(_) => true
       case Corrupt(_) => true
  }

  function Goto(s: State, p: nat, pc: Pc): State
    requires p < |s.procs|
  {
    s.(procs := s.procs[p := s.procs[p].(pc := pc)])
  }

  function Apply(s: State, step: Step): State
    requires Enabled(s, step)
  {
    var p := step.p;
    var proc := s.procs[p];
    match step
    case Read(_, judgedAlive) =>
      var retry := proc.pc.Rereading?;
      if s.file.Absent? then Goto(s, p, Creating(retry))
      else if !s.file.Holds? || judgedAlive then Goto(s, p, Idle)      // unreadable, or RunLockBusyError
      else Goto(s, p, Judged(s.file.instance, retry))
    case RemoveStale(_) => Goto(s.(file := Absent), p, Creating(proc.pc.retry))
    case Create(_) =>
      if s.file.Absent? then Goto(s.(file := Partial(s.next), next := s.next + 1), p, Filling(s.next))
      else if proc.pc.retry then Goto(s, p, Idle)
      else Goto(s, p, Rereading)
    case Fill(_) =>
      // the descriptor is the created file's: if that was unlinked meanwhile, the path keeps what it has
      var filled := if s.file == Partial(proc.pc.instance) then s.(file := Holds(proc.pc.instance)) else s;
      Goto(filled, p, Holding(proc.pc.instance))
    case ReleaseStart(_) => Goto(s, p, Releasing(proc.pc.instance))
    case ReleaseRead(_) =>
      Goto(s, p, if s.file == Holds(proc.pc.instance) then Removing(proc.pc.instance) else Idle)
    case ReleaseRemove(_) => Goto(s.(file := Absent), p, Idle)
    case BeatRead(_) =>
      if s.file == Holds(proc.pc.instance)
      then s.(procs := s.procs[p := proc.(beat := Some(proc.pc.instance))])
      else s
    case BeatRename(_) => s.(file := Holds(proc.beat.value), procs := s.procs[p := proc.(beat := None)])
    case Crash(_) => s.(procs := s.procs[p := Proc(Idle, None)])
    case Corrupt(_) => s.(file := Garbage)
  }

  /** At the start no process has a handle; the file may hold what an earlier crash left. */
  predicate Init(s: State) {
    && (forall p :: 0 <= p < |s.procs| ==> s.procs[p] == Proc(Idle, None))
    && (s.file.Absent? || s.file.Garbage? || (s.file.Holds? && s.file.instance < s.next))
  }

  /** The removal or rename finds the file as the read before it left it (or already gone). */
  predicate Benign(s: State, step: Step)
    requires Enabled(s, step)
  {
    match step
    case RemoveStale(p) => s.file.Absent? || s.file == Holds(s.procs[p].pc.dead)
    case BeatRename(p) => s.file == Holds(s.procs[p].beat.value)
    case _ => true
  }

  /** A run of the protocol from any state. */
  ghost predicate Runs(trace: seq<State>, steps: seq<Step>) {
    && |trace| == |steps| + 1
    && forall i :: 0 <= i < |steps| ==> Enabled(trace[i], steps[i]) && trace[i + 1] == Apply(trace[i], steps[i])
  }

  ghost predicate Behavior(trace: seq<State>, steps: seq<Step>) {
    Runs(trace, steps) && Init(trace[0])
  }

  ghost predicate AllBenign(trace: seq<State>, steps: seq<Step>)
    requires Behavior(trace, steps)
  {
    forall i :: 0 <= i < |steps| ==> Benign(trace[i], steps[i])
  }

  // ------------------------------------------------------------------- invariant

  ghost predicate AtMostOneActive(s: State) {
    forall p, q :: 0 <= p < q < |s.procs| ==> !(s.procs[p].pc.Active() && s.procs[q].pc.Active())
  }

  /** While a process is active the path holds its own file or unparseable bytes, never nothing. */
  ghost predicate ActiveOwnsFile(s: State) {
    forall p :: 0 <= p < |s.procs| && s.procs[p].pc.Active() ==>
      var instance := s.procs[p].pc.instance;
      instance < s.next && (s.file == Holds(instance) || s.file == Partial(instance) || s.file.Garbage?)
  }

  ghost predicate DeadStayDead(s: State) {
    && (forall p :: 0 <= p < |s.procs| && s.procs[p].pc.Judged? ==>
          s.procs[p].pc.dead < s.next && !ActiveInstance(s, s.procs[p].pc.dead))
    && (s.file.Holds? || s.file.Partial? ==> s.file.instance < s.next)
    && (forall p :: 0 <= p < |s.procs| && s.procs[p].beat.Some? ==> s.procs[p].beat.value < s.next)
  }

  ghost predicate Inv(s: State) {
    AtMostOneActive(s) && ActiveOwnsFile(s) && DeadStayDead(s)
  }

  /** A step touches the program counter of its own process only. */
  lemma StepIsLocal(s: State, step: Step)
    requires Enabled(s, step)
    ensures |Apply(s, step).procs| == |s.procs|
    ensures forall q :: 0 <= q < |s.procs| && q != step.p ==> Apply(s, step).procs[q] == s.procs[q]
  {
  }

  /** The only step that makes a process active is the exclusive creation of an absent file. */
  lemma OnlyCreateActivates(s: State, step: Step)
    requires Enabled(s, step)
    ensures var t := Apply(s, step);
            t.procs[step.p].pc.Active() && !s.procs[step.p].pc.Active() ==>
              step.Create? && s.file.Absent? && t.procs[step.p].pc == Filling(s.next) && t.file == Partial(s.next)
    ensures var t := Apply(s, step);
            t.procs[step.p].pc.Active() && s.procs[step.p].pc.Active() ==>
              t.procs[step.p].pc.instance == s.procs[step.p].pc.instance
  {
  }

  lemma ActiveKept(s: State, step: Step)
    requires Enabled(s, step) && Inv(s) && Benign(s, step)
    ensures AtMostOneActive(Apply(s, step)) && ActiveOwnsFile(Apply(s, step))
  {
    StepIsLocal(s, step);
    OnlyCreateActivates(s, step);
  }

  lemma InactiveStaysInactive(s: State, step: Step, instance: nat)
    requires Enabled(s, step) && instance < s.next && !ActiveInstance(s, instance)
    ensures !ActiveInstance(Apply(s, step), instance)
  {
    StepIsLocal(s, step);
    OnlyCreateActivates(s, step);
  }

  lemma DeadKept(s: State, step: Step)
    requires Enabled(s, step) && Inv(s)
    ensures DeadStayDead(Apply(s, step))
  {
    StepIsLocal(s, step);
    var t := Apply(s, step);
    forall p | 0 <= p < |t.procs| && t.procs[p].pc.Judged?
      ensures t.procs[p].pc.dead < t.next && !ActiveInstance(t, t.procs[p].pc.dead)
    {
      InactiveStaysInactive(s, step, t.procs[p].pc.dead);
    }
  }

  lemma {:induction false} BehaviorInv(trace: seq<State>, steps: seq<Step>, i: nat)
    requires Behavior(trace, steps) && AllBenign(trace, steps) && i < |trace|
    ensures Inv(trace[i])
  {
    if i > 0 {
      BehaviorInv(trace, steps, i - 1);
      ActiveKept(trace[i - 1], steps[i - 1]);
      DeadKept(trace[i - 1], steps[i - 1]);
    }
  }

  // ---------------------------------------------------------------- main theorems

  /** Mutual exclusion for any number of processes: as long as no removal or rename is overtaken
      between its read and itself, at most one handle is unreleased in every reachable state. */
  lemma MutualExclusion(trace: seq<State>, steps: seq<Step>, i: nat, p: nat, q: nat)
    requires Behavior(trace, steps) && AllBenign(trace, steps) && i < |trace|
    requires p < |trace[i].procs| && q < |trace[i].procs|
    requires trace[i].procs[p].pc.Holding? && trace[i].procs[q].pc.Holding?
    ensures p == q
  {
    BehaviorInv(trace, steps, i);
  }

  /** A removal or rename that directly follows its own read is never overtaken. */
  lemma IndivisibleIsBenign(trace: seq<State>, steps: seq<Step>, i: nat)
    requires Behavior(trace, steps) && 0 < i < |steps|
    requires (steps[i].RemoveStale? && steps[i - 1].Read?) || (steps[i].BeatRename? && steps[i - 1].BeatRead?)
    requires steps[i - 1].p == steps[i].p
    ensures Benign(trace[i], steps[i])
  {
    assert trace[i] == Apply(trace[i - 1], steps[i - 1]);
    assert Enabled(trace[i - 1], steps[i - 1]) && Enabled(trace[i], steps[i]);
  }

  /** Read-judge-remove and read-check-rename are each one indivisible step. */
  ghost predicate Indivisible(steps: seq<Step>) {
    forall i :: 0 <= i < |steps| && (steps[i].RemoveStale? || steps[i].BeatRename?) ==>
      && 0 < i && steps[i - 1].p == steps[i].p
      && if steps[i].RemoveStale? then steps[i - 1].Read? else steps[i - 1].BeatRead?
  }

  /** Mutual exclusion when they are, with no other assumption on the schedule. */
  lemma IndivisibleExcludes(trace: seq<State>, steps: seq<Step>, i: nat, p: nat, q: nat)
    requires Behavior(trace, steps) && Indivisible(steps) && i < |trace|
    requires p < |trace[i].procs| && q < |trace[i].procs|
    requires trace[i].procs[p].pc.Holding? && trace[i].procs[q].pc.Holding?
    ensures p == q
  {
    forall j | 0 <= j < |steps|
      ensures Benign(trace[j], steps[j])
    {
      if steps[j].RemoveStale? || steps[j].BeatRename? {
        IndivisibleIsBenign(trace, steps, j);
      }
    }
    MutualExclusion(trace, steps, i, p, q);
  }

  // ------------------------------------------------------------------ reachability

  /** What may find the file other than its read had left it. */
  datatype Overtaken = Nothing | StaleReclaim | LateBeat

  predicate Allowed(overtaken: Overtaken, s: State, step: Step) {
    Enabled(s, step) && (Benign(s, step) || if step.RemoveStale? then overtaken.StaleReclaim? else overtaken.LateBeat?)
  }

  ghost predicate Reachable(overtaken: Overtaken, s: State) {
    exists trace: seq<State>, steps: seq<Step> :: Reaches(overtaken, trace, steps) && trace[|steps|] == s
  }

  ghost predicate Reaches(overtaken: Overtaken, trace: seq<State>, steps: seq<Step>) {
    Behavior(trace, steps) && forall i :: 0 <= i < |steps| ==> Allowed(overtaken, trace[i], steps[i])
  }

  lemma ReachInit(overtaken: Overtaken, s: State)
    requires Init(s)
    ensures Reachable(overtaken, s)
  {
    var steps: seq<Step> := [];
    assert Reaches(overtaken, [s], steps);
  }

  lemma ReachStep(overtaken: Overtaken, s: State, step: Step)
    requires Reachable(overtaken, s) && Allowed(overtaken, s, step)
    ensures Reachable(overtaken, Apply(s, step))
  {
    var trace: seq<State>, steps: seq<Step> :| Reaches(overtaken, trace, steps) && trace[|steps|] == s;
    assert Reaches(overtaken, trace + [Apply(s, step)], steps + [step]);
  }

  lemma ReachTo(overtaken: Overtaken, s: State, step: Step, t: State)
    requires Reachable(overtaken, s) && Allowed(overtaken, s, step) && Apply(s, step) == t
    ensures Reachable(overtaken, t)
  {
    ReachStep(overtaken, s, step);
  }

  // ------------------------------------------------------------- unreadable lock files

  /** What readRunLock cannot parse: garbage, or the file of a creator that has not written it. */
  predicate Unparseable(s: State) {
    s.file.Garbage? || s.file.Partial?
  }

  /** The process has no write outstanding that could clear or repair such a file: no removal of a
      record it judged dead or read as its own, no rename of a heartbeat, not the content of the file. */
  predicate Quiet(s: State, p: nat)
    requires p < |s.procs|
  {
    var proc := s.procs[p];
    && proc.beat.None? && !proc.pc.Judged? && !proc.pc.Removing?
    && (proc.pc.Filling? ==> s.file != Partial(proc.pc.instance))
  }

  ghost predicate Blocked(s: State) {
    Unparseable(s) && forall p :: 0 <= p < |s.procs| ==> Quiet(s, p)
  }

  /** Whoever is active was so before, with the same handle: nobody has got in. */
  ghost predicate NobodyNew(s: State, t: State) {
    && |t.procs| == |s.procs|
    && forall p :: 0 <= p < |t.procs| && t.procs[p].pc.Active() ==>
         s.procs[p].pc.Active() && s.procs[p].pc.instance == t.procs[p].pc.instance
  }

  lemma BlockedStep(s: State, step: Step)
    requires Enabled(s, step) && Blocked(s)
    ensures Blocked(Apply(s, step)) && NobodyNew(s, Apply(s, step))
  {
    StepIsLocal(s, step);
    OnlyCreateActivates(s, step);
    assert Quiet(s, step.p);
    var t := Apply(s, step);
    forall p | 0 <= p < |t.procs|
      ensures Quiet(t, p)
    {
      assert Quiet(s, p);
    }
  }

  /** An unparseable lock file with no write outstanding blocks every acquire for good: along any run,
      whatever steps are overtaken, it stays unparseable and no process gets in. In particular no
      heartbeat that starts afterwards repairs it, contrary to the comment in readRunLock. */
  lemma {:induction false} UnparseableBlocks(trace: seq<State>, steps: seq<Step>, i: nat)
    requires Runs(trace, steps) && Blocked(trace[0]) && i < |trace|
    ensures Blocked(trace[i]) && NobodyNew(trace[0], trace[i])
  {
    if i > 0 {
      UnparseableBlocks(trace, steps, i - 1);
      BlockedStep(trace[i - 1], steps[i - 1]);
    }
  }

  ghost predicate StaysUnparseable(s: State) {
    forall trace: seq<State>, steps: seq<Step> :: Runs(trace, steps) && trace[0] == s ==> AllUnparseable(trace)
  }

  ghost predicate AllUnparseable(trace: seq<State>) {
    forall i :: 0 <= i < |trace| ==> Unparseable(trace[i])
  }

  lemma OutstandingRepairs(s: State, p: nat) returns (step: Step)
    requires p < |s.procs| && !Quiet(s, p)
    ensures Enabled(s, step) && !Unparseable(Apply(s, step))
  {
    var proc := s.procs[p];
    step := if proc.beat.Some? then BeatRename(p)
            else if proc.pc.Judged? then RemoveStale(p)
            else if proc.pc.Removing? then ReleaseRemove(p)
            else Fill(p);
  }

  /** It does so exactly then: any outstanding write clears or repairs it in one step. */
  lemma BlocksExactly(s: State)
    requires Unparseable(s)
    ensures StaysUnparseable(s) <==> Blocked(s)
  {
    if Blocked(s) {
      forall trace: seq<State>, steps: seq<Step>, i: nat | Runs(trace, steps) && trace[0] == s && i < |trace|
        ensures Unparseable(trace[i])
      {
        UnparseableBlocks(trace, steps, i);
      }
    } else {
      var p :| 0 <= p < |s.procs| && !Quiet(s, p);
      var step := OutstandingRepairs(s, p);
      var trace, steps := [s, Apply(s, step)], [step];
      assert Runs(trace, steps) && !Unparseable(trace[1]);
    }
  }

  lemma GarbageAtStartBlocks(s: State)
    requires Init(s) && s.file.Garbage?
    ensures Blocked(s)
  {
  }

  /** A creator that crashes between open and write blocks every later acquire. */
  lemma AbandonedPartialReachable()
    ensures exists s :: && Reachable(Nothing, s) && s.file.Partial? && Blocked(s)
                        && forall p :: 0 <= p < |s.procs| ==> s.procs[p].pc.Idle?
  {
    var idle := Proc(Idle, None);
    ReachInit(Nothing, State(Absent, [idle], 0));
    ReachTo(Nothing, State(Absent, [idle], 0), Read(0, false), State(Absent, [Proc(Creating(false), None)], 0));
    ReachTo(Nothing, State(Absent, [Proc(Creating(false), None)], 0), Create(0),
            State(Partial(0), [Proc(Filling(0), None)], 1));
    ReachTo(Nothing, State(Partial(0), [Proc(Filling(0), None)], 1), Crash(0), State(Partial(0), [idle], 1));
    assert Blocked(State(Partial(0), [idle], 1));
  }

  // ------------------------------------------------- the condition is needed

  /** Each time a reclaim is overtaken by a new holder q, three further steps of the reclaiming
      process give it a second handle. */
  lemma OvertakenReclaimBreaksLock(s: State, p: nat, q: nat)
    requires Enabled(s, RemoveStale(p)) && q < |s.procs| && s.procs[q].pc.Holding? && q != p
    ensures var s1 := Apply(s, RemoveStale(p));
            && Enabled(s1, Create(p))
            && var s2 := Apply(s1, Create(p));
               && Enabled(s2, Fill(p))
               && var s3 := Apply(s2, Fill(p));
                  s3.procs[p].pc.Holding? && s3.procs[q].pc.Holding?
  {
    var s1 := Apply(s, RemoveStale(p));
    assert s1.procs[q] == s.procs[q];
    var s2 := Apply(s1, Create(p));
    assert s2.procs[q] == s.procs[q];
  }

  /** A heartbeat whose rename lands after its handle was released and q has acquired replaces q's
      record by a dead one; any idle process r then reclaims it by benign steps, and has a second handle. */
  lemma LateHeartbeatBreaksLock(s: State, p: nat, q: nat, r: nat)
    requires Enabled(s, BeatRename(p)) && !ActiveInstance(s, s.procs[p].beat.value)
    requires q < |s.procs| && r < |s.procs| && s.procs[q].pc.Holding? && s.procs[r].pc.Idle?
    ensures var s1 := Apply(s, BeatRename(p));
            && Enabled(s1, Read(r, false))
            && var s2 := Apply(s1, Read(r, false));
               && Enabled(s2, RemoveStale(r)) && Benign(s2, RemoveStale(r))
               && var s3 := Apply(s2, RemoveStale(r));
                  && Enabled(s3, Create(r))
                  && var s4 := Apply(s3, Create(r));
                     && Enabled(s4, Fill(r))
                     && var s5 := Apply(s4, Fill(r));
                        q != r && s5.procs[q].pc.Holding? && s5.procs[r].pc.Holding?
  {
    var s1 := Apply(s, BeatRename(p));
    assert forall x :: 0 <= x < |s.procs| ==> s1.procs[x].pc == s.procs[x].pc;
    forall x | 0 <= x < |s1.procs| && s1.procs[x].pc.Active()
      ensures s1.procs[x].pc.instance != s1.file.instance
    {
      assert s.procs[x].pc.Active();
    }
    var s2 := Apply(s1, Read(r, false));
    OvertakenReclaimBreaksLock(s2, r, q);
  }

  const LATE := Proc(Judged(0, false), None)    // judged record 0 dead, has not removed it yet

  lemma BothJudge()
    ensures Reachable(StaleReclaim, State(Holds(0), [LATE, LATE], 1))
  {
    var idle := Proc(Idle, None);
    var stale := State(Holds(0), [idle, idle], 1);
    ReachInit(StaleReclaim, stale);
    ReachStep(StaleReclaim, stale, Read(0, false));
    var s1 := State(Holds(0), [LATE, idle], 1);
    assert Apply(stale, Read(0, false)) == s1;
    ReachStep(StaleReclaim, s1, Read(1, false));
    assert Apply(s1, Read(1, false)) == State(Holds(0), [LATE, LATE], 1);
  }

  lemma FirstReclaims()
    ensures Reachable(StaleReclaim, State(Absent, [Proc(Creating(false), None), LATE], 1))
  {
    BothJudge();
    var s := State(Holds(0), [LATE, LATE], 1);
    ReachStep(StaleReclaim, s, RemoveStale(0));
    assert Apply(s, RemoveStale(0)) == State(Absent, [Proc(Creating(false), None), LATE], 1);
  }

  lemma FirstAcquires()
    ensures Reachable(StaleReclaim, State(Holds(1), [Proc(Holding(1), None), LATE], 2))
  {
    FirstReclaims();
    var s := State(Absent, [Proc(Creating(false), None), LATE], 1);
    var t := State(Partial(1), [Proc(Filling(1), None), LATE], 2);
    ReachStep(StaleReclaim, s, Create(0));
    assert Apply(s, Create(0)) == t;
    ReachStep(StaleReclaim, t, Fill(0));
    assert Apply(t, Fill(0)) == State(Holds(1), [Proc(Holding(1), None), LATE], 2);
  }

  /** Such an overtaking does happen: two processes find the record of a crashed holder, both judge
      it dead, the first reclaims and acquires, and the second is about to remove the first's lock. */
  lemma OvertakenReclaimReachable()
    ensures exists s :: Reachable(StaleReclaim, s) && |s.procs| == 2 && s.procs[0].pc.Holding? && s.procs[1].pc.Judged?
                        && !Benign(s, RemoveStale(1))
  {
    FirstAcquires();
    assert !Benign(State(Holds(1), [Proc(Holding(1), None), LATE], 2), RemoveStale(1));
  }

  /** Two unreleased handles at once, with every heartbeat in time. */
  lemma TwoHoldersReachable()
    ensures exists s :: Reachable(StaleReclaim, s) && |s.procs| == 2 && s.procs[0].pc.Holding? && s.procs[1].pc.Holding?
  {
    OvertakenReclaimReachable();
    var s :| Reachable(StaleReclaim, s) && |s.procs| == 2 && s.procs[0].pc.Holding? && s.procs[1].pc.Judged?;
    OvertakenReclaimBreaksLock(s, 1, 0);
    ReachStep(StaleReclaim, s, RemoveStale(1));
    ReachStep(StaleReclaim, Apply(s, RemoveStale(1)), Create(1));
    ReachStep(StaleReclaim, Apply(Apply(s, RemoveStale(1)), Create(1)), Fill(1));
  }

  const IDLE := Proc(Idle, None)

  lemma HolderBeats()
    ensures Reachable(LateBeat, State(Holds(0), [Proc(Holding(0), Some(0)), IDLE], 1))
  {
    var s0, s1 := State(Absent, [IDLE, IDLE], 0), State(Absent, [Proc(Creating(false), None), IDLE], 0);
    var s2 := State(Partial(0), [Proc(Filling(0), None), IDLE], 1);
    var s3 := State(Holds(0), [Proc(Holding(0), None), IDLE], 1);
    ReachInit(LateBeat, s0);
    ReachTo(LateBeat, s0, Read(0, false), s1);
    ReachTo(LateBeat, s1, Create(0), s2);
    ReachTo(LateBeat, s2, Fill(0), s3);
    ReachTo(LateBeat, s3, BeatRead(0), State(Holds(0), [Proc(Holding(0), Some(0)), IDLE], 1));
  }

  lemma HolderReleases()
    ensures Reachable(LateBeat, State(Absent, [Proc(Idle, Some(0)), IDLE], 1))
  {
    var s0 := State(Holds(0), [Proc(Holding(0), Some(0)), IDLE], 1);
    var s1 := State(Holds(0), [Proc(Releasing(0), Some(0)), IDLE], 1);
    var s2 := State(Holds(0), [Proc(Removing(0), Some(0)), IDLE], 1);
    HolderBeats();
    ReachTo(LateBeat, s0, ReleaseStart(0), s1);
    ReachTo(LateBeat, s1, ReleaseRead(0), s2);
    ReachTo(LateBeat, s2, ReleaseRemove(0), State(Absent, [Proc(Idle, Some(0)), IDLE], 1));
  }

  /** A heartbeat that has read its record before the release is still to be renamed when another
      process has acquired. */
  lemma LateHeartbeatReachable()
    ensures Reachable(LateBeat, State(Holds(1), [Proc(Idle, Some(0)), Proc(Holding(1), None)], 2))
  {
    var late := Proc(Idle, Some(0));
    var s0, s1 := State(Absent, [late, IDLE], 1), State(Absent, [late, Proc(Creating(false), None)], 1);
    var s2 := State(Partial(1), [late, Proc(Filling(1), None)], 2);
    HolderReleases();
    ReachTo(LateBeat, s0, Read(1, false), s1);
    ReachTo(LateBeat, s1, Create(1), s2);
    ReachTo(LateBeat, s2, Fill(1), State(Holds(1), [late, Proc(Holding(1), None)], 2));
  }

  /** Two unreleased handles by a late heartbeat, with no reclaim overtaken. */
  lemma LateHeartbeatTwoHolders()
    ensures exists s :: Reachable(LateBeat, s) && |s.procs| == 2 && s.procs[0].pc.Holding? && s.procs[1].pc.Holding?
  {
    var s := State(Holds(1), [Proc(Idle, Some(0)), Proc(Holding(1), None)], 2);
    LateHeartbeatReachable();
    LateHeartbeatBreaksLock(s, 0, 1, 0);
    var s1 := Apply(s, BeatRename(0));
    var s2 := Apply(s1, Read(0, false));
    var s3 := Apply(s2, RemoveStale(0));
    var s4 := Apply(s3, Create(0));
    ReachStep(LateBeat, s, BeatRename(0));
    ReachStep(LateBeat, s1, Read(0, false));
    ReachStep(LateBeat, s2, RemoveStale(0));
    ReachStep(LateBeat, s3, Create(0));
    ReachStep(LateBeat, s4, Fill(0));
  }

  // ------------------------------------------------------------------ one retry

  /** From event i to event j process p is in one call of acquire that is not over. */
  ghost predicate OneAcquire(trace: seq<State>, steps: seq<Step>, p: nat, i: nat, j: nat) {
    && Runs(trace, steps)
    && i < j < |steps| && p < |trace[i].procs| && |trace[i].procs| == |trace[j].procs|
    && steps[i].Read? && steps[i].p == p && trace[i].procs[p].pc.Idle?
    && (forall k :: i < k <= j ==>
          p < |trace[k].procs| && !trace[k].procs[p].pc.Idle? && !trace[k].procs[p].pc.Active())
  }

  ghost predicate Created(steps: seq<Step>, p: nat, i: nat, j: nat) {
    exists k :: i <= k < j < |steps| && steps[k] == Create(p)
  }

  lemma {:induction false} RetryRemembers(trace: seq<State>, steps: seq<Step>, p: nat, i: nat, j: nat)
    requires OneAcquire(trace, steps, p, i, j)
    ensures var pc := trace[j].procs[p].pc;
            (pc == Rereading || pc == Creating(true) || (pc.Judged? && pc.retry)) <==> Created(steps, p, i, j)
  {
    if j > i + 1 {
      assert OneAcquire(trace, steps, p, i, j - 1) by {
        assert Enabled(trace[j - 1], steps[j - 1]) && trace[j] == Apply(trace[j - 1], steps[j - 1]);
        StepIsLocal(trace[j - 1], steps[j - 1]);
      }
      RetryRemembers(trace, steps, p, i, j - 1);
    }
    var s, step := trace[j - 1], steps[j - 1];
    assert Enabled(s, step) && trace[j] == Apply(s, step);
    StepIsLocal(s, step);
    assert Created(steps, p, i, j) <==> step == Create(p) || (j > i + 1 && Created(steps, p, i, j - 1));
  }

  /** An acquire that finds the file taken when it comes to create it reads the lock again, once: at
      the second time it is refused. */
  lemma RetriesOnce(trace: seq<State>, steps: seq<Step>, p: nat, i: nat, j: nat)
    requires OneAcquire(trace, steps, p, i, j)
    requires steps[j] == Create(p) && trace[j].file != Absent
    ensures trace[j + 1].procs[p].pc == if Created(steps, p, i, j) then Idle else Rereading
  {
    RetryRemembers(trace, steps, p, i, j);
    assert Enabled(trace[j], steps[j]) && trace[j + 1] == Apply(trace[j], steps[j]);
  }

  // ------------------------------------------------------- records and liveness

  /** RunLockInfo, as far as identity and liveness depend on it; an empty id is an absent one. */
  datatype Info = Info(pid: int, startedAt: string, instanceId: string, lastSeenAt: Option<int>)

  const HEARTBEAT_STALE_MS := 5 * 60000

  predicate IsSameLockHolder(a: Info, b: Info) {
    if a.instanceId != "" && b.instanceId != "" then a.instanceId == b.instanceId
    else a.pid == b.pid && a.startedAt == b.startedAt
  }

  predicate IsLockHolderAlive(info: Info, pidAlive: bool, now: int) {
    pidAlive || (info.lastSeenAt.Some? && now - info.lastSeenAt.value < HEARTBEAT_STALE_MS)
  }

  /** The reader sees the recorded process, or its last heartbeat is less than five minutes old. */
  predicate SignOfLife(info: Info, pidAlive: int -> bool, now: int) {
    pidAlive(info.pid) || (info.lastSeenAt.Some? && now < info.lastSeenAt.value + 300000)
  }

  datatype LockFile = NoFile | Unparseable | Record(info: Info)

  /** The lock file after an acquire that no other process disturbs, a release, and a heartbeat. */
  function AfterAcquire(file: LockFile, info: Info, alive: bool): LockFile {
    if file.Unparseable? || (file.Record? && alive) then file else Record(info)
  }

  function AfterRelease(file: LockFile, info: Info): LockFile {
    if file.Record? && IsSameLockHolder(file.info, info) then NoFile else file
  }

  function AfterHeartbeat(file: LockFile, info: Info, now: int): LockFile {
    if file.Record? && IsSameLockHolder(file.info, info) then Record(info.(lastSeenAt := Some(now))) else file
  }

  /** The record is of another acquire: it has another id, whatever its pid; or, where one has no id,
      another pid or starting time. */
  predicate Another(record: Info, info: Info) {
    if record.instanceId == "" || info.instanceId == ""
    then record.pid != info.pid || record.startedAt != info.startedAt
    else record.instanceId != info.instanceId
  }

  datatype Acquired = Handle(handle: RunLockHandle) | Busy(existing: Info) | Unreadable

  /** The lock directory. */
  class LockDir {
    var file: LockFile

    /** readRunLock: a dead record is removed, an unparseable one is left alone and reported. */
    method ReadRunLock(pidAlive: int -> bool, now: int) returns (existing: Option<Info>, unreadable: bool)
      modifies this
      ensures unreadable <==> old(file).Unparseable?
      ensures existing.Some? <==> old(file).Record? && SignOfLife(old(file).info, pidAlive, now)
      ensures existing.Some? ==> existing.value == old(file).info
      ensures file == if existing.Some? || unreadable then old(file) else NoFile
    {
      if file.NoFile? {
        return None, false;
      }
      if file.Unparseable? {
        return None, true;
      }
      if !IsLockHolderAlive(file.info, pidAlive(file.info.pid), now) {
        file := NoFile;
        return None, false;
      }
      return Some(file.info), false;
    }

    /** acquireRunLock with no other process in between. */
    method Acquire(pid: int, startedAt: string, instanceId: string, pidAlive: int -> bool, now: int)
      returns (r: Acquired)
      modifies this
      ensures r.Unreadable? <==> old(file).Unparseable?
      ensures r.Busy? <==> old(file).Record? && SignOfLife(old(file).info, pidAlive, now)
      ensures r.Busy? ==> r.existing == old(file).info
      ensures file == AfterAcquire(old(file), Info(pid, startedAt, instanceId, Some(now)), r.Busy?)
      ensures r.Handle? ==>
                && fresh(r.handle) && r.handle.dir == this && !r.handle.released
                && r.handle.info == Info(pid, startedAt, instanceId, Some(now))
    {
      var existing, unreadable := ReadRunLock(pidAlive, now);
      if unreadable {
        return Unreadable;
      }
      if existing.Some? {
        return Busy(existing.value);
      }
      var info := Info(pid, startedAt, instanceId, Some(now));
      file := Record(info);
      var handle := new RunLockHandle(this, info);
      return Handle(handle);
    }
  }

  class RunLockHandle {
    const dir: LockDir
    const info: Info
    var released: bool

    constructor (dir: LockDir, info: Info)
      ensures this.dir == dir && this.info == info && !released
    {
      this.dir, this.info, released := dir, info, false;
    }

    /** Idempotent; removes the file only if it still names this holder. */
    method Release()
      modifies this, dir
      ensures released
      ensures dir.file == if old(released) then old(dir.file) else AfterRelease(old(dir.file), info)
      ensures old(dir.file).Record? && Another(old(dir.file).info, info) ==> dir.file == old(dir.file)
      ensures !old(released) && old(dir.file).Record? && !Another(old(dir.file).info, info) ==> dir.file.NoFile?
    {
      if released {
        return;
      }
      released := true;
      if dir.file.Record? && IsSameLockHolder(dir.file.info, info) {
        dir.file := NoFile;
      }
    }

    /** Refreshes lastSeenAt in its own record and in no other. */
    method Heartbeat(now: int)
      modifies dir
      ensures dir.file == if released then old(dir.file) else AfterHeartbeat(old(dir.file), info, now)
      ensures !old(dir.file).Record? || Another(old(dir.file).info, info) ==> dir.file == old(dir.file)
      ensures !released && old(dir.file).Record? && !Another(old(dir.file).info, info) ==>
                dir.file == Record(Info(info.pid, info.startedAt, info.instanceId, Some(now)))
    {
      if released {
        return;
      }
      var updated := info.(lastSeenAt := Some(now));
      if dir.file.Record? && IsSameLockHolder(dir.file.info, info) {
        dir.file := Record(updated);
      }
    }
  }

  /** What happens to a lock that is held: a heartbeat, or an acquire by another process. */
  datatype Event = Beat(at: int) | Try(pid: int, startedAt: string, instanceId: string, pidAlive: int -> bool, at: int)

  /** Every try comes within the window after the last heartbeat before it. */
  predicate InTime(events: seq<Event>, lastSeen: int) {
    events == []
    || match events[0]
       case Beat(at) => InTime(events[1..], at)
       case Try(_, _, _, _, at) => at < lastSeen + 300000 && InTime(events[1..], lastSeen)
  }

  function Tries(events: seq<Event>): nat {
    if events == [] then 0 else Tries(events[..|events| - 1]) + if events[|events| - 1].Try? then 1 else 0
  }

  /** A holder that keeps its handle and heartbeats within the window is never judged dead, even by
      readers that cannot see its pid: every acquire in between is refused. */
  method HeartbeatKeepsLock(dir: LockDir, pid: int, startedAt: string, id: string, pidAlive: int -> bool, now: int,
                            events: seq<Event>) returns (refused: seq<Acquired>)
    requires dir.file.NoFile? && id != "" && InTime(events, now)
    modifies dir
    ensures |refused| == Tries(events) && forall r :: r in refused ==> r.Busy? && r.existing.instanceId == id
    ensures dir.file.Record? && dir.file.info.instanceId == id
  {
    var first := dir.Acquire(pid, startedAt, id, pidAlive, now);
    refused := [];
    ghost var lastSeen := now;
    for i := 0 to |events|
      invariant first.Handle? && first.handle.dir == dir && !first.handle.released
      invariant first.handle.info.instanceId == id
      invariant dir.file == Record(first.handle.info.(lastSeenAt := Some(lastSeen)))
      invariant InTime(events[i..], lastSeen)
      invariant |refused| == Tries(events[..i]) && forall r :: r in refused ==> r.Busy? && r.existing.instanceId == id
    {
      assert events[..i + 1][..i] == events[..i] && events[i..][1..] == events[i + 1..];
      match events[i] {
        case Beat(at) =>
          first.handle.Heartbeat(at);
          lastSeen := at;
        case Try(otherPid, otherStart, otherId, alive, at) =>
          var r := dir.Acquire(otherPid, otherStart, otherId, alive, at);
          refused := refused + [r];
      }
    }
    assert events[..|events|] == events;
  }

  predicate AllSee(pid: int, events: seq<Event>) {
    forall i :: 0 <= i < |events| ==> events[i].Try? && events[i].pidAlive(pid)
  }

  /** So is a holder that never heartbeats, as long as every reader sees its pid, however old its record
      is: every acquire is refused, and the file stays as it is. */
  method PidKeepsLock(dir: LockDir, events: seq<Event>) returns (refused: seq<Acquired>)
    requires dir.file.Record? && AllSee(dir.file.info.pid, events)
    modifies dir
    ensures |refused| == |events| && forall k :: 0 <= k < |refused| ==> refused[k] == Busy(old(dir.file).info)
    ensures dir.file == old(dir.file)
  {
    refused := [];
    for i := 0 to |events|
      invariant |refused| == i && forall k :: 0 <= k < |refused| ==> refused[k] == Busy(old(dir.file).info)
      invariant dir.file == old(dir.file)
    {
      match events[i] {
        case Try(pid, startedAt, id, alive, at) =>
          var r := dir.Acquire(pid, startedAt, id, alive, at);
          refused := refused + [r];
      }
    }
  }

  /** A record whose pid the reader does not see, with no heartbeat or one at least five minutes old, is
      always reclaimed: the lock passes to the next acquire. */
  method DeadIsReclaimed(dir: LockDir, pid: int, startedAt: string, id: string, pidAlive: int -> bool, now: int)
    returns (r: Acquired)
    requires dir.file.Record? && !pidAlive(dir.file.info.pid)
    requires dir.file.info.lastSeenAt.None? || now - dir.file.info.lastSeenAt.value >= 300000
    modifies dir
    ensures r.Handle? && dir.file == Record(Info(pid, startedAt, id, Some(now)))
  {
    r := dir.Acquire(pid, startedAt, id, pidAlive, now);
  }

  // ------------------------------------------- the undisturbed calls are runs of the protocol

  /** The protocol's view of a lock file; `number` is the number of an instance id. */
  function Viewed(file: LockFile, number: string -> nat): File {
    match file
    case NoFile => Absent
    case Unparseable => Garbage
    case Record(info) => Holds(number(info.instanceId))
  }

  ghost predicate Alone(trace: seq<State>, steps: seq<Step>, s: State, p: nat) {
    && Runs(trace, steps) && trace[0] == s
    && forall i :: 0 <= i < |steps| ==> steps[i].p == p && Benign(trace[i], steps[i])
  }

  lemma AloneFirst(s: State, p: nat) returns (trace: seq<State>, steps: seq<Step>)
    ensures Alone(trace, steps, s, p) && trace == [s] && steps == []
  {
    trace, steps := [s], [];
  }

  lemma AloneNext(trace: seq<State>, steps: seq<Step>, s: State, p: nat, step: Step)
    requires Alone(trace, steps, s, p) && Allowed(Nothing, trace[|steps|], step) && step.p == p
    ensures Alone(trace + [Apply(trace[|steps|], step)], steps + [step], s, p)
  {
  }

  /** An undisturbed acquire is a run of the protocol by one process, to the same file; it ends with a
      handle exactly when the file is the new record. */
  lemma AcquireAlone(s: State, p: nat, file: LockFile, info: Info, alive: bool, number: string -> nat)
    returns (trace: seq<State>, steps: seq<Step>)
    requires p < |s.procs| && s.procs[p].pc.Idle? && s.file == Viewed(file, number) && number(info.instanceId) == s.next
    requires file.Record? && !alive ==> !ActiveInstance(s, s.file.instance)
    ensures Alone(trace, steps, s, p)
    ensures var t := trace[|steps|];
            && t.file == Viewed(AfterAcquire(file, info, alive), number)
            && p < |t.procs|
            && t.procs[p].pc == if file.Unparseable? || (file.Record? && alive) then Idle else Holding(s.next)
  {
    trace, steps := AloneFirst(s, p);
    AloneNext(trace, steps, s, p, Read(p, alive));
    trace, steps := trace + [Apply(s, Read(p, alive))], steps + [Read(p, alive)];
    if trace[1].procs[p].pc.Judged? {
      AloneNext(trace, steps, s, p, RemoveStale(p));
      trace, steps := trace + [Apply(trace[1], RemoveStale(p))], steps + [RemoveStale(p)];
    }
    var now := trace[|steps|];
    if now.procs[p].pc.Creating? {
      var created := Apply(now, Create(p));
      AloneNext(trace, steps, s, p, Create(p));
      trace, steps := trace + [created], steps + [Create(p)];
      AloneNext(trace, steps, s, p, Fill(p));
      trace, steps := trace + [Apply(created, Fill(p))], steps + [Fill(p)];
    }
  }

  /** So are an undisturbed release and heartbeat of a handle whose id is told apart by its number. */
  lemma ReleaseAlone(s: State, p: nat, file: LockFile, info: Info, number: string -> nat)
    returns (trace: seq<State>, steps: seq<Step>)
    requires p < |s.procs| && s.procs[p].pc == Holding(number(info.instanceId)) && s.file == Viewed(file, number)
    requires file.Record? ==>
               (IsSameLockHolder(file.info, info) <==> number(file.info.instanceId) == number(info.instanceId))
    ensures Alone(trace, steps, s, p)
    ensures var t := trace[|steps|];
            t.file == Viewed(AfterRelease(file, info), number) && p < |t.procs| && t.procs[p].pc.Idle?
  {
    trace, steps := AloneFirst(s, p);
    var started := Apply(s, ReleaseStart(p));
    AloneNext(trace, steps, s, p, ReleaseStart(p));
    trace, steps := trace + [started], steps + [ReleaseStart(p)];
    var checked := Apply(started, ReleaseRead(p));
    AloneNext(trace, steps, s, p, ReleaseRead(p));
    trace, steps := trace + [checked], steps + [ReleaseRead(p)];
    if checked.procs[p].pc.Removing? {
      AloneNext(trace, steps, s, p, ReleaseRemove(p));
      trace, steps := trace + [Apply(checked, ReleaseRemove(p))], steps + [ReleaseRemove(p)];
    }
  }

  lemma HeartbeatAlone(s: State, p: nat, file: LockFile, info: Info, now: int, number: string -> nat)
    returns (trace: seq<State>, steps: seq<Step>)
    requires p < |s.procs| && s.procs[p] == Proc(Holding(number(info.instanceId)), None)
             && s.file == Viewed(file, number)
    requires file.Record? ==>
               (IsSameLockHolder(file.info, info) <==> number(file.info.instanceId) == number(info.instanceId))
    ensures Alone(trace, steps, s, p)
    ensures trace[|steps|].file == Viewed(AfterHeartbeat(file, info, now), number) && trace[|steps|].procs == s.procs
  {
    trace, steps := AloneFirst(s, p);
    var checked := Apply(s, BeatRead(p));
    AloneNext(trace, steps, s, p, BeatRead(p));
    trace, steps := trace + [checked], steps + [BeatRead(p)];
    if checked.procs[p].beat.Some? {
      AloneNext(trace, steps, s, p, BeatRename(p));
      trace, steps := trace + [Apply(checked, BeatRename(p))], steps + [BeatRename(p)];
      assert s.procs[p := s.procs[p]] == s.procs;
    }
  }
}
