/**
 When the upload engine keeps two promises, exactly: that a run without failures records every
 entry (the failure limit), and that a key recorded as uploaded or skipped stays so (shared keys).
*/
module UploadConditions {
  import opened UploadPool
  import opened Wrappers

  // ------------------------------------------------------------ starting in one tick

  /** The workers that have not started are those from nextIndex on. */
  ghost predicate StartsInOrder(s: State) {
    && (forall w :: 0 <= w < |s.pcs| ==> (s.pcs[w].NotStarted? <==> w >= s.nextIndex))
    && (s.nextIndex < |s.pcs| ==> !s.stopScheduling)
  }

  lemma StartsKept(c: Config, s: State, e: Event)
    requires Enabled(c, s, e) && StartsInOrder(s)
    ensures StartsInOrder(Apply(c, s, e))
  {
    DecideShape(c, s, e);
  }

  // --------------------------------------------------------------- the failure limit

  /** The only runs that claim too little are those with a limit below 1. */
  predicate LimitAllowsWork(maxFailures: Option<int>) {
    maxFailures.Some? ==> maxFailures.value >= 1
  }

  ghost predicate KeyBefore(c: Config, n: nat, key: string) {
    exists i :: 0 <= i < n && i < |c.entries| && c.entries[i].key == key
  }

  /** Whatever became uploaded or skipped was loaded so, or is the key of a claimed entry. */
  ghost predicate GoodHasOrigin(c: Config, loaded: Items, s: State) {
    forall key :: Good(s.items, key) ==> Good(loaded, key) || KeyBefore(c, s.nextIndex, key)
  }

  lemma OriginKept(c: Config, loaded: Items, s: State, e: Event)
    requires Enabled(c, s, e) && ClaimsPartition(c, s) && GoodHasOrigin(c, loaded, s)
    ensures GoodHasOrigin(c, loaded, Apply(c, s, e))
  {
    var t, d := Apply(c, s, e), Decide(c, s, e);
    DecideShape(c, s, e);
    forall key | Good(t.items, key)
      ensures Good(loaded, key) || KeyBefore(c, t.nextIndex, key)
    {
      if Writes(d) && d.index < |c.entries| && c.entries[d.index].key == key {
        WritesPastCheck(c, s, e);
        assert d.index < t.nextIndex;
      } else {
        assert Good(s.items, key);
        if KeyBefore(c, s.nextIndex, key) {
          var i :| 0 <= i < s.nextIndex && i < |c.entries| && c.entries[i].key == key;
          assert i < t.nextIndex;
        }
      }
    }
  }

  /** With a limit below 1 a worker stops after its first entry. */
  ghost predicate Starved(c: Config, s: State) {
    c.maxFailures.Some? && c.maxFailures.value <= 0 ==> s.nextIndex <= |s.pcs|
  }

  lemma StarvedKept(c: Config, s: State, e: Event)
    requires Enabled(c, s, e) && StartsInOrder(s) && Starved(c, s)
    ensures Starved(c, Apply(c, s, e))
  {
  }

  ghost predicate RunInv(c: Config, loaded: Items, s: State) {
    StartsInOrder(s) && GoodHasOrigin(c, loaded, s) && Starved(c, s)
  }

  lemma {:induction false} RunInvAlways(c: Config, loaded: Items, trace: seq<State>, events: seq<Event>, i: nat)
    requires Behavior(c, loaded, trace, events) && i < |trace|
    ensures RunInv(c, loaded, trace[i])
  {
    if i > 0 {
      RunInvAlways(c, loaded, trace, events, i - 1);
      BehaviorInv(c, loaded, trace, events, i - 1);
      StartsKept(c, trace[i - 1], events[i - 1]);
      OriginKept(c, loaded, trace[i - 1], events[i - 1]);
      StarvedKept(c, trace[i - 1], events[i - 1]);
    }
  }

  lemma ReachesRunInv(c: Config, loaded: Items, s: State)
    requires Reaches(c, loaded, s)
    ensures RunInv(c, loaded, s)
  {
    var trace: seq<State>, events: seq<Event> :| Behavior(c, loaded, trace, events) && trace[|events|] == s;
    RunInvAlways(c, loaded, trace, events, |events|);
  }

  /** With a limit below 1, a finished real run without failures has recorded exactly the entries the
      workers started with, besides what was loaded. */
  lemma LimitBelowOneRecordsExactly(c: Config, loaded: Items, s: State, key: string)
    requires Reaches(c, loaded, s) && AllDone(s) && !c.dryRun && s.summary.failed == 0
    requires !LimitAllowsWork(c.maxFailures)
    ensures Good(s.items, key) <==> Good(loaded, key) || KeyBefore(c, c.workerCount, key)
  {
    ReachesInv(c, loaded, s);
    ReachesRunInv(c, loaded, s);
    if KeyBefore(c, c.workerCount, key) {
      var i :| 0 <= i < c.workerCount && i < |c.entries| && c.entries[i].key == key;
      assert s.pcs[i].Done?;
      assert !Held(s.pcs, i);
      assert i in s.history.finished;
    }
    if KeyBefore(c, s.nextIndex, key) {
      var i :| 0 <= i < s.nextIndex && i < |c.entries| && c.entries[i].key == key;
      assert i < c.workerCount;
    }
  }

  /** What a caller can check before the run: the limit is absent or at least 1, or each entry is
      recorded already or shares its key with one that a worker starts with. */
  ghost predicate Covers(c: Config, loaded: Items) {
    LimitAllowsWork(c.maxFailures)
    || forall i :: 0 <= i < |c.entries| ==>
        Good(loaded, c.entries[i].key) || KeyBefore(c, c.workerCount, c.entries[i].key)
  }

  /** A finished real run without failures has every destination key recorded uploaded or skipped if
      and only if the limit allowed it to. */
  lemma AllRecordedExactly(c: Config, loaded: Items, s: State)
    requires Reaches(c, loaded, s) && AllDone(s) && !c.dryRun && s.summary.failed == 0
    ensures (forall i :: 0 <= i < |c.entries| ==> Good(s.items, c.entries[i].key)) <==> Covers(c, loaded)
  {
    if LimitAllowsWork(c.maxFailures) {
      ReachesInv(c, loaded, s);
      NoFailureMeansAllRecorded(c, loaded, s);
    } else {
      forall i | 0 <= i < |c.entries|
        ensures Good(s.items, c.entries[i].key)
                <==> Good(loaded, c.entries[i].key) || KeyBefore(c, c.workerCount, c.entries[i].key)
      {
        LimitBelowOneRecordsExactly(c, loaded, s, c.entries[i].key);
      }
    }
  }

  /** As long as a worker is not done, some event can happen: no schedule gets stuck. */
  lemma NeverStuck(c: Config, loaded: Items, s: State) returns (e: Event)
    requires Reaches(c, loaded, s) && !AllDone(s)
    ensures Enabled(c, s, e) && !e.Progress?
  {
    ReachesInv(c, loaded, s);
    var w := if s.nextIndex < |s.pcs| && s.pcs[s.nextIndex].NotStarted? then s.nextIndex else FirstNotDone(s.pcs);
    var pc := s.pcs[w];
    e := if pc.NotStarted? || pc.Returned? then Resume(w, s.clock)
         else if pc.Sleeping? then Wake(w, if pc.until < s.clock then s.clock else pc.until)
         else if pc.Checking? then Checked(w, true, true)
         else if pc.Uploading? then UploadOk(w)
         else BackoffOver(w);
  }

  function FirstNotDone(pcs: seq<Pc>): (w: nat)
    requires exists v :: 0 <= v < |pcs| && !pcs[v].Done?
    ensures w < |pcs| && !pcs[w].Done?
  {
    if !pcs[0].Done? then 0 else 1 + FirstNotDone(pcs[1..])
  }

  /** No limit is too low for as many workers as entries. */
  lemma EnoughWorkersCover(c: Config, loaded: Items)
    requires |c.entries| <= c.workerCount
    ensures Covers(c, loaded)
  {
    forall i | 0 <= i < |c.entries|
      ensures KeyBefore(c, c.workerCount, c.entries[i].key)
    {
    }
  }
}
