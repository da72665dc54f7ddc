/**
 Destination keys shared by several entries of one run of the upload engine: when a key that was
 recorded uploaded or skipped can be recorded as failed afterwards.
*/
module UploadSharing {
  import opened UploadConditions
  import opened UploadPool
  import opened Wrappers

  predicate PermanentlyFailed(items: Items, key: string) {
    key in items && items[key].Failed? && items[key].kind.Permanent?
  }

  /** Neither short cut of the state check applies: an entry with this key gets uploaded. */
  predicate Open(items: Items, key: string) {
    !Good(items, key) && !PermanentlyFailed(items, key)
  }

  /** Two entries of one key, both to be uploaded. */
  predicate Contended(c: Config, loaded: Items, i: int, j: int) {
    0 <= i < j < |c.entries| && c.entries[i].key == c.entries[j].key && Open(loaded, c.entries[i].key)
  }

  /** What a caller can check before the run: nothing is uploaded, or not by two workers at a time, or no
      two entries contend for a key. */
  ghost predicate SafeSharing(c: Config, loaded: Items) {
    c.dryRun || c.workerCount == 1 || forall i, j :: !Contended(c, loaded, i, j)
  }

  // ------------------------------------------------------------- safe runs lose nothing

  /** A key that was loaded as permanently failed is never touched. */
  ghost predicate FailedKept(c: Config, loaded: Items, s: State) {
    && (forall key :: PermanentlyFailed(loaded, key) ==> PermanentlyFailed(s.items, key))
    && (forall w :: 0 <= w < |s.pcs| && s.pcs[w].PastStateCheck() && s.pcs[w].index < |c.entries| ==>
          !PermanentlyFailed(loaded, c.entries[s.pcs[w].index].key))
  }

  lemma CheckBlocksFailed(c: Config, s: State, e: Event)
    requires Enabled(c, s, e)
    ensures Decide(c, s, e).next.PastStateCheck() && !s.pcs[e.worker].PastStateCheck() ==>
              && Decide(c, s, e).next.index < |c.entries|
              && !PermanentlyFailed(s.items, c.entries[Decide(c, s, e).next.index].key)
  {
  }

  lemma FailedStays(c: Config, loaded: Items, s: State, e: Event)
    requires Enabled(c, s, e) && FailedKept(c, loaded, s)
    ensures FailedKept(c, loaded, Apply(c, s, e))
  {
    WritesPastCheck(c, s, e);
    CheckBlocksFailed(c, s, e);
    DecideShape(c, s, e);
  }

  /** Workers past the state check hold entries of different keys. */
  ghost predicate HoldApart(c: Config, s: State) {
    forall v, w :: 0 <= v < w < |s.pcs| && s.pcs[v].PastStateCheck() && s.pcs[w].PastStateCheck()
      && s.pcs[v].index < |c.entries| && s.pcs[w].index < |c.entries|
      ==> c.entries[s.pcs[v].index].key != c.entries[s.pcs[w].index].key
  }

  lemma SafeHoldApart(c: Config, loaded: Items, s: State)
    requires SafeSharing(c, loaded) && !c.dryRun
    requires ClaimsPartition(c, s) && LoadedGoodKept(c, loaded, s) && FailedKept(c, loaded, s)
    ensures HoldApart(c, s)
  {
    forall v, w | 0 <= v < w < |s.pcs| && s.pcs[v].PastStateCheck() && s.pcs[w].PastStateCheck()
      && s.pcs[v].index < |c.entries| && s.pcs[w].index < |c.entries|
      ensures c.entries[s.pcs[v].index].key != c.entries[s.pcs[w].index].key
    {
      var i, j := s.pcs[v].index, s.pcs[w].index;
      assert i != j;
      assert !Contended(c, loaded, if i < j then i else j, if i < j then j else i);
    }
  }

  /** No worker past the state check holds an entry whose key is recorded uploaded or skipped. */
  ghost predicate HeldKeysNotGood(c: Config, s: State) {
    forall w :: 0 <= w < |s.pcs| && s.pcs[w].PastStateCheck() && s.pcs[w].index < |c.entries| ==>
      !Good(s.items, c.entries[s.pcs[w].index].key)
  }

  lemma HeldKeysStayNotGood(c: Config, s: State, e: Event)
    requires Enabled(c, s, e) && ClaimsPartition(c, s) && HoldApart(c, s) && HeldKeysNotGood(c, s)
    ensures HeldKeysNotGood(c, Apply(c, s, e))
    ensures forall k :: Good(s.items, k) ==> Good(Apply(c, s, e).items, k)
  {
    WritesPastCheck(c, s, e);
    CheckBlocksGood(c, s, e);
    DecideShape(c, s, e);
    var t, d := Apply(c, s, e), Decide(c, s, e);
    forall w | 0 <= w < |t.pcs| && t.pcs[w].PastStateCheck() && t.pcs[w].index < |c.entries|
      ensures !Good(t.items, c.entries[t.pcs[w].index].key)
    {
      if w == e.worker {
        assert d.verdict.Some? ==> d.verdict.value.IsFailure();
      } else {
        assert t.pcs[w] == s.pcs[w];
      }
    }
  }

  /** A dry run records nothing but what it finds in the destination. */
  lemma DryRunLosesNothing(c: Config, s: State, e: Event)
    requires c.dryRun && Enabled(c, s, e)
    requires forall w :: 0 <= w < |s.pcs| ==> !s.pcs[w].Uploading? && !s.pcs[w].Backoff?
    ensures forall k :: Good(s.items, k) ==> Good(Apply(c, s, e).items, k)
    ensures forall w :: 0 <= w < |s.pcs| ==> !Apply(c, s, e).pcs[w].Uploading? && !Apply(c, s, e).pcs[w].Backoff?
  {
  }

  ghost predicate SharingInv(c: Config, loaded: Items, s: State) {
    && FailedKept(c, loaded, s)
    && if c.dryRun then forall w :: 0 <= w < |s.pcs| ==> !s.pcs[w].Uploading? && !s.pcs[w].Backoff?
       else HeldKeysNotGood(c, s)
  }

  lemma SafeStep(c: Config, loaded: Items, s: State, e: Event)
    requires SafeSharing(c, loaded) && Enabled(c, s, e) && Inv(c, loaded, s) && SharingInv(c, loaded, s)
    ensures SharingInv(c, loaded, Apply(c, s, e))
    ensures forall k :: Good(s.items, k) ==> Good(Apply(c, s, e).items, k)
  {
    FailedStays(c, loaded, s, e);
    if c.dryRun {
      DryRunLosesNothing(c, s, e);
    } else {
      SafeHoldApart(c, loaded, s);
      HeldKeysStayNotGood(c, s, e);
    }
  }

  lemma {:induction false} SharingInvAlways(c: Config, loaded: Items, trace: seq<State>, events: seq<Event>, i: nat)
    requires SafeSharing(c, loaded) && Behavior(c, loaded, trace, events) && i < |trace|
    ensures SharingInv(c, loaded, trace[i])
  {
    if i > 0 {
      SharingInvAlways(c, loaded, trace, events, i - 1);
      BehaviorInv(c, loaded, trace, events, i - 1);
      SafeStep(c, loaded, trace[i - 1], events[i - 1]);
    }
  }

  lemma NothingLostNext(c: Config, loaded: Items, trace: seq<State>, events: seq<Event>, i: nat, key: string)
    requires SafeSharing(c, loaded) && Behavior(c, loaded, trace, events) && i < |events|
    ensures Good(trace[i].items, key) ==> Good(trace[i + 1].items, key)
  {
    SharingInvAlways(c, loaded, trace, events, i);
    BehaviorInv(c, loaded, trace, events, i);
    SafeStep(c, loaded, trace[i], events[i]);
  }

  /** With distinct keys, one worker, or no contended key, a key that became uploaded or skipped stays
      so, whatever the other workers do afterwards. */
  lemma {:induction false} GoodNeverLost(c: Config, loaded: Items, trace: seq<State>, events: seq<Event>, i: nat,
                                         j: nat, key: string)
    requires SafeSharing(c, loaded) && Behavior(c, loaded, trace, events) && i <= j < |trace|
    requires Good(trace[i].items, key)
    ensures Good(trace[j].items, key)
  {
    if i < j {
      GoodNeverLost(c, loaded, trace, events, i, j - 1, key);
      NothingLostNext(c, loaded, trace, events, j - 1, key);
    }
  }

  /** Some schedule records the key as uploaded or skipped, and the next event takes that back. */
  ghost predicate CanLose(c: Config, loaded: Items) {
    exists s: State, e: Event, key: string :: Loses(c, loaded, s, e, key)
  }

  ghost predicate Loses(c: Config, loaded: Items, s: State, e: Event, key: string) {
    Reaches(c, loaded, s) && Enabled(c, s, e) && Good(s.items, key) && !Good(Apply(c, s, e).items, key)
  }

  lemma SafeNeverLoses(c: Config, loaded: Items)
    requires SafeSharing(c, loaded)
    ensures !CanLose(c, loaded)
  {
    forall s: State, e: Event, key: string
      ensures !Loses(c, loaded, s, e, key)
    {
      if Loses(c, loaded, s, e, key) {
        var trace: seq<State>, events: seq<Event> :| Behavior(c, loaded, trace, events) && trace[|events|] == s;
        SharingInvAlways(c, loaded, trace, events, |events|);
        BehaviorInv(c, loaded, trace, events, |events|);
        SafeStep(c, loaded, s, e);
      }
    }
  }

  // ------------------------------------------------------- unsafe runs can lose a record

  /** How many of the first n entries were loaded as permanently failed: failures no schedule avoids. */
  function Hopeless(c: Config, loaded: Items, n: nat): nat {
    if n == 0 then 0
    else Hopeless(c, loaded, n - 1)
         + if n - 1 < |c.entries| && PermanentlyFailed(loaded, c.entries[n - 1].key) then 1 else 0
  }

  lemma {:induction false} HopelessGrows(c: Config, loaded: Items, m: nat, n: nat)
    requires m <= n
    ensures Hopeless(c, loaded, m) <= Hopeless(c, loaded, n)
  {
    if m < n {
      HopelessGrows(c, loaded, m, n - 1);
    }
  }

  /** A state of a schedule in which nothing has failed but the hopeless entries. */
  ghost predicate Quiet(c: Config, loaded: Items, s: State) {
    && Reaches(c, loaded, s)
    && |s.pcs| == c.workerCount
    && !s.stopScheduling && s.breaker.pauseUntilMs == 0
    && s.summary.failed == Hopeless(c, loaded, s.nextIndex)
    && forall key :: PermanentlyFailed(s.items, key) <==> PermanentlyFailed(loaded, key)
  }

  /** The rest of the upload state after an event on one key. */
  predicate SameRecord(before: Items, after: Items, key: string) {
    (key in before <==> key in after) && (key in before ==> before[key] == after[key])
  }

  function ClaimPc(c: Config, items: Items, i: nat): Pc {
    if i < |c.entries| then CheckState(c, items, i, true).next else Done
  }

  /** A worker that starts or comes back claims the next entry. */
  lemma Claim(c: Config, loaded: Items, s: State, w: nat) returns (t: State)
    requires Quiet(c, loaded, s) && w < |s.pcs| && InTurn(s, w)
    requires s.pcs[w].NotStarted? || (s.pcs[w].Returned? && !c.LimitHit(s.summary.failed))
    ensures Quiet(c, loaded, t) && t.items == s.items
    ensures t.nextIndex == s.nextIndex + 1 && t.pcs == s.pcs[w := ClaimPc(c, s.items, s.nextIndex)]
  {
    var e := Resume(w, s.clock);
    ReachStep(c, loaded, s, e);
    t := Apply(c, s, e);
  }

  /** A worker finds its entry in the destination. */
  lemma Find(c: Config, loaded: Items, s: State, w: nat) returns (t: State)
    requires Quiet(c, loaded, s) && w < |s.pcs| && |s.pcs| <= s.nextIndex
    requires s.pcs[w].Checking? && s.pcs[w].index < |c.entries|
    requires !PermanentlyFailed(s.items, c.entries[s.pcs[w].index].key)
    ensures Quiet(c, loaded, t) && t.nextIndex == s.nextIndex && t.pcs == s.pcs[w := Returned]
    ensures forall key :: key != c.entries[s.pcs[w].index].key ==> SameRecord(s.items, t.items, key)
  {
    var e := Checked(w, true, true);
    ReachStep(c, loaded, s, e);
    t := Apply(c, s, e);
    assert t.items == s.items[c.entries[s.pcs[w].index].key := Skipped(s.pcs[w].prior)];
  }

  /** The first k workers have started; nothing has been written. */
  lemma {:induction false} Start(c: Config, loaded: Items, k: nat) returns (s: State)
    requires c.Valid() && k <= c.workerCount
    ensures Quiet(c, loaded, s) && s.nextIndex == k && s.items == loaded
    ensures forall w :: 0 <= w < c.workerCount ==> s.pcs[w] == if w < k then ClaimPc(c, loaded, w) else NotStarted
  {
    if k == 0 {
      ReachInit(c, loaded, 0);
      s := Init(c, loaded, 0);
    } else {
      var before := Start(c, loaded, k - 1);
      s := Claim(c, loaded, before, k - 1);
    }
  }

  lemma WalkOne(c: Config, loaded: Items, s: State, w: nat, key: string) returns (t: State)
    requires Quiet(c, loaded, s) && w < |s.pcs| <= s.nextIndex < |c.entries| && s.pcs[w].Returned?
    requires c.entries[s.nextIndex].key != key && !c.LimitHit(s.summary.failed)
    ensures Quiet(c, loaded, t) && t.nextIndex == s.nextIndex + 1 && t.pcs == s.pcs && SameRecord(s.items, t.items, key)
  {
    t := Claim(c, loaded, s, w);
    if t.pcs[w].Checking? {
      assert t.pcs[w].index == s.nextIndex;
      t := Find(c, loaded, t, w);
    }
  }

  /** A worker works on its own until it has claimed all entries before the m-th, without a failure
      that can be avoided and without touching the key. */
  lemma {:induction false} Walk(c: Config, loaded: Items, s: State, w: nat, m: nat, key: string) returns (t: State)
    requires Quiet(c, loaded, s) && w < |s.pcs| <= s.nextIndex <= m <= |c.entries| && s.pcs[w].Returned?
    requires forall i :: s.nextIndex <= i < m ==> c.entries[i].key != key
    requires !c.LimitHit(Hopeless(c, loaded, m))
    ensures Quiet(c, loaded, t) && t.nextIndex == m && t.pcs == s.pcs && SameRecord(s.items, t.items, key)
    decreases m - s.nextIndex
  {
    if s.nextIndex == m {
      t := s;
    } else {
      HopelessGrows(c, loaded, s.nextIndex, m);
      var next := WalkOne(c, loaded, s, w, key);
      t := Walk(c, loaded, next, w, m, key);
    }
  }

  /** A started worker that holds another key comes back. */
  lemma ComeBack(c: Config, loaded: Items, s: State, w: nat, key: string) returns (t: State)
    requires Quiet(c, loaded, s) && w < |s.pcs| == s.nextIndex && w < |c.entries|
    requires s.pcs[w] == ClaimPc(c, loaded, w) && c.entries[w].key != key
    ensures Quiet(c, loaded, t) && t.nextIndex == s.nextIndex && t.pcs == s.pcs[w := Returned]
    ensures SameRecord(s.items, t.items, key)
  {
    t := s;
    if s.pcs[w].Checking? {
      t := Find(c, loaded, s, w);
    }
  }

  /** Two workers check entries of one key: one uploads it, the other fails after that. */
  lemma LossFrom(c: Config, loaded: Items, s: State, a: nat, b: nat)
    requires Reaches(c, loaded, s) && !c.dryRun && a < |s.pcs| && b < |s.pcs| && a != b && |s.pcs| <= s.nextIndex
    requires s.pcs[a].Checking? && s.pcs[a].index < |c.entries| && s.pcs[b].Checking? && s.pcs[b].index < |c.entries|
    requires c.entries[s.pcs[a].index].key == c.entries[s.pcs[b].index].key
    ensures CanLose(c, loaded)
  {
    ReachStep(c, loaded, s, Checked(a, false, true));
    var s1 := Apply(c, s, Checked(a, false, true));
    assert s1.pcs == s.pcs[a := Uploading(s.pcs[a].index, 1)];
    ReachStep(c, loaded, s1, Checked(b, false, true));
    var s2 := Apply(c, s1, Checked(b, false, true));
    assert s2.pcs == s1.pcs[b := Uploading(s.pcs[b].index, 1)];
    UploadThenFail(c, loaded, s2, a, b);
  }

  lemma UploadThenFail(c: Config, loaded: Items, s: State, a: nat, b: nat)
    requires Reaches(c, loaded, s) && a < |s.pcs| && b < |s.pcs| && a != b && |s.pcs| <= s.nextIndex
    requires s.pcs[a].Uploading? && s.pcs[a].index < |c.entries| && s.pcs[b].Uploading? && s.pcs[b].index < |c.entries|
    requires c.entries[s.pcs[a].index].key == c.entries[s.pcs[b].index].key
    ensures CanLose(c, loaded)
  {
    ReachStep(c, loaded, s, UploadOk(a));
    UploadRecords(c, s, a);
    var t := Apply(c, s, UploadOk(a));
    var e := UploadFailed(b, true, t.clock);
    FailureRecords(c, t, b);
    assert Loses(c, loaded, t, e, c.entries[s.pcs[a].index].key);
  }

  lemma UploadRecords(c: Config, s: State, w: nat)
    requires Enabled(c, s, UploadOk(w))
    ensures var t := Apply(c, s, UploadOk(w));
            && Good(t.items, c.entries[s.pcs[w].index].key)
            && t.pcs == s.pcs[w := Returned] && t.nextIndex == s.nextIndex
  {
    assert Decide(c, s, UploadOk(w)).verdict == Some(UploadedNow(s.pcs[w].attempt));
  }

  lemma FailureRecords(c: Config, s: State, w: nat)
    requires Enabled(c, s, UploadFailed(w, true, s.clock))
    ensures !Good(Apply(c, s, UploadFailed(w, true, s.clock)).items, c.entries[s.pcs[w].index].key)
  {
    assert Decide(c, s, UploadFailed(w, true, s.clock)).verdict == Some(AttemptFailed(s.pcs[w].attempt, Permanent));
  }

  /** i and j are the first two entries with their key. */
  ghost predicate FirstPair(c: Config, i: nat, j: nat) {
    && i < j < |c.entries| && c.entries[i].key == c.entries[j].key
    && forall k :: 0 <= k < j && k != i ==> c.entries[k].key != c.entries[j].key
  }

  /** Both among the entries the workers start with. */
  lemma LossAtStart(c: Config, loaded: Items, i: nat, j: nat)
    requires c.Valid() && !c.dryRun && Contended(c, loaded, i, j) && j < c.workerCount
    ensures CanLose(c, loaded)
  {
    var s := Start(c, loaded, c.workerCount);
    LossFrom(c, loaded, s, i, j);
  }

  /** The first held by the worker that started with it, while another goes on to the second. */
  lemma LossAfterStart(c: Config, loaded: Items, i: nat, j: nat)
    requires c.Valid() && !c.dryRun && 2 <= c.workerCount <= j && i < c.workerCount
    requires FirstPair(c, i, j) && Contended(c, loaded, i, j) && !c.LimitHit(Hopeless(c, loaded, j))
    ensures CanLose(c, loaded)
  {
    var key, w := c.entries[i].key, if i == 0 then 1 else 0;
    var s := Start(c, loaded, c.workerCount);
    var s1 := ComeBack(c, loaded, s, w, key);
    var s2 := Walk(c, loaded, s1, w, j, key);
    var s3 := Claim(c, loaded, s2, w);
    LossFrom(c, loaded, s3, i, w);
  }

  /** One worker goes on to the first and holds it, another goes on from there to the second. */
  lemma LossLater(c: Config, loaded: Items, i: nat, j: nat)
    requires c.Valid() && !c.dryRun && 2 <= c.workerCount <= i
    requires FirstPair(c, i, j) && Contended(c, loaded, i, j) && !c.LimitHit(Hopeless(c, loaded, j))
    ensures CanLose(c, loaded)
  {
    var key := c.entries[i].key;
    HopelessGrows(c, loaded, i, j);
    var s := Start(c, loaded, c.workerCount);
    var s1 := ComeBack(c, loaded, s, 0, key);
    var s2 := ComeBack(c, loaded, s1, 1, key);
    var s3 := Walk(c, loaded, s2, 1, i, key);
    var s4 := Claim(c, loaded, s3, 1);
    var s5 := Walk(c, loaded, s4, 0, j, key);
    var s6 := Claim(c, loaded, s5, 0);
    LossFrom(c, loaded, s6, 1, 0);
  }

  lemma {:induction false} FirstPairExists(c: Config, i: nat, j: nat) returns (a: nat, b: nat)
    requires i < j < |c.entries| && c.entries[i].key == c.entries[j].key
    ensures FirstPair(c, a, b) && b <= j && c.entries[a].key == c.entries[j].key
    decreases j, j - i
  {
    if k :| 0 <= k < j && k != i && c.entries[k].key == c.entries[j].key {
      if k < i {
        a, b := FirstPairExists(c, k, i);
      } else {
        a, b := FirstPairExists(c, i, k);
      }
    } else {
      a, b := i, j;
    }
  }

  /** With two or more workers in a real run, whatever else the options are: if two entries contend for
      a key, and the limit lets a worker get to the second of them, some schedule loses the record. */
  lemma ContendedCanLose(c: Config, loaded: Items, i: nat, j: nat)
    requires c.Valid() && !c.dryRun && c.workerCount >= 2 && Contended(c, loaded, i, j)
    requires j < c.workerCount || !c.LimitHit(Hopeless(c, loaded, j))
    ensures CanLose(c, loaded)
  {
    var a, b := FirstPairExists(c, i, j);
    HopelessGrows(c, loaded, b, j);
    if b < c.workerCount {
      LossAtStart(c, loaded, a, b);
    } else if a < c.workerCount {
      LossAfterStart(c, loaded, a, b);
    } else {
      LossLater(c, loaded, a, b);
    }
  }

  /** Without a failure limit, the upload engine can lose a record if and only if the run is real, has
      two or more workers, and two of its entries contend for a key. */
  lemma LosesExactly(c: Config, loaded: Items)
    requires c.Valid() && c.maxFailures.None?
    ensures CanLose(c, loaded) <==> !SafeSharing(c, loaded)
  {
    if SafeSharing(c, loaded) {
      SafeNeverLoses(c, loaded);
    } else {
      var i, j :| Contended(c, loaded, i, j);
      ContendedCanLose(c, loaded, i, j);
    }
  }
}
