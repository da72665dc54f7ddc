/**
 What the circuit breaker of the worker pool is for: whoever takes an entry during a pause waits it
 out, and nobody else waits.
*/
module UploadBreaker {
  import opened UploadPool
  import opened Wrappers

  /** The i-th event tripped the breaker. */
  predicate TripAt(trace: seq<State>, i: nat) {
    i + 1 < |trace| && trace[i + 1].history.trips > trace[i].history.trips
  }

  /** By the j-th event a worker took the index of an entry. */
  predicate TakesEntry(c: Config, trace: seq<State>, j: nat) {
    j + 1 < |trace| && trace[j + 1].nextIndex > trace[j].nextIndex && trace[j].nextIndex < |c.entries|
  }

  /** The j-th event comes before the pause of the i-th is over. */
  predicate PauseLasts(c: Config, trace: seq<State>, i: nat, j: nat) {
    i < j && j + 1 < |trace| && TripAt(trace, i) && trace[j + 1].clock < trace[i + 1].clock + c.breakerPauseMs
  }

  lemma ClockGrowsStep(c: Config, s: State, e: Event)
    requires Enabled(c, s, e)
    ensures s.clock <= Apply(c, s, e).clock
    ensures var t := Apply(c, s, e);
            && s.history.trips <= t.history.trips
            && t.breaker.pauseUntilMs
               == if t.history.trips > s.history.trips then t.clock + c.breakerPauseMs else s.breaker.pauseUntilMs
  {
  }

  lemma {:induction false} ClockGrows(c: Config, loaded: Items, trace: seq<State>, events: seq<Event>, i: nat, j: nat)
    requires Behavior(c, loaded, trace, events) && i <= j < |trace|
    ensures trace[i].clock <= trace[j].clock
  {
    if i < j {
      ClockGrows(c, loaded, trace, events, i, j - 1);
      ClockGrowsStep(c, trace[j - 1], events[j - 1]);
    }
  }

  /** The pause lasts until breakerPauseMs after the last trip. */
  lemma {:induction false} PauseIsLastTrip(c: Config, loaded: Items, trace: seq<State>, events: seq<Event>, j: nat)
    requires Behavior(c, loaded, trace, events) && j < |trace|
    ensures forall i: nat :: i < j && TripAt(trace, i) ==>
              trace[i + 1].clock + c.breakerPauseMs <= trace[j].breaker.pauseUntilMs
    ensures trace[j].breaker.pauseUntilMs == 0
            || exists i: nat :: i < j && TripAt(trace, i)
                 && trace[j].breaker.pauseUntilMs == trace[i + 1].clock + c.breakerPauseMs
  {
    if j > 0 {
      PauseIsLastTrip(c, loaded, trace, events, j - 1);
      ClockGrowsStep(c, trace[j - 1], events[j - 1]);
      forall i: nat | i < j && TripAt(trace, i)
        ensures trace[i + 1].clock + c.breakerPauseMs <= trace[j].breaker.pauseUntilMs
      {
        ClockGrows(c, loaded, trace, events, i + 1, j);
      }
      if TripAt(trace, j - 1) {
        assert trace[j].breaker.pauseUntilMs == trace[j - 1 + 1].clock + c.breakerPauseMs;
      }
    }
  }

  /** What taking an entry does, while the pause lasts and when it does not. */
  lemma TakeStep(c: Config, s: State, e: Event)
    requires Enabled(c, s, e) && Apply(c, s, e).nextIndex > s.nextIndex && s.nextIndex < |c.entries|
    ensures var t := Apply(c, s, e);
            if s.breaker.pauseUntilMs > 0 && s.breaker.pauseUntilMs > t.clock then
              && t.pcs[e.worker] == Sleeping(s.nextIndex, s.breaker.pauseUntilMs)
              && t.summary == s.summary && t.items == s.items && t.history == s.history
            else !t.pcs[e.worker].Sleeping?
  {
  }

  /** A worker that takes an entry is held back if and only if the breaker tripped before and its pause
      is not over. Times are those of a clock that has passed 1970. */
  lemma HeldBackExactly(c: Config, loaded: Items, trace: seq<State>, events: seq<Event>, j: nat)
    requires Behavior(c, loaded, trace, events) && 0 <= trace[0].clock && j < |events| && TakesEntry(c, trace, j)
    ensures trace[j + 1].pcs[events[j].worker].Sleeping? <==> exists i: nat :: PauseLasts(c, trace, i, j)
  {
    PauseIsLastTrip(c, loaded, trace, events, j);
    ClockGrows(c, loaded, trace, events, 0, j + 1);
    TakeStep(c, trace[j], events[j]);
    if trace[j + 1].pcs[events[j].worker].Sleeping? {
      var i: nat :| i < j && TripAt(trace, i)
        && trace[j].breaker.pauseUntilMs == trace[i + 1].clock + c.breakerPauseMs;
      assert PauseLasts(c, trace, i, j);
    }
  }

  lemma AsleepStep(c: Config, s: State, e: Event, w: nat)
    requires Enabled(c, s, e) && w < |s.pcs| && s.pcs[w].Sleeping? && Apply(c, s, e).clock < s.pcs[w].until
    ensures w < |Apply(c, s, e).pcs| && Apply(c, s, e).pcs[w] == s.pcs[w]
  {
  }

  lemma {:induction false} StaysAsleep(c: Config, loaded: Items, trace: seq<State>, events: seq<Event>,
                                       w: nat, asleep: Pc, j: nat, k: nat)
    requires Behavior(c, loaded, trace, events) && j <= k < |trace|
    requires w < |trace[j].pcs| && trace[j].pcs[w] == asleep && asleep.Sleeping? && trace[k].clock < asleep.until
    ensures w < |trace[k].pcs| && trace[k].pcs[w] == asleep
  {
    if j < k {
      ClockGrows(c, loaded, trace, events, k - 1, k);
      StaysAsleep(c, loaded, trace, events, w, asleep, j, k - 1);
      AsleepStep(c, trace[k - 1], events[k - 1], w);
    }
  }

  lemma HeldAtOnce(c: Config, loaded: Items, trace: seq<State>, events: seq<Event>, i: nat, j: nat)
    requires Behavior(c, loaded, trace, events) && 0 <= trace[0].clock
    requires j < |events| && TakesEntry(c, trace, j) && PauseLasts(c, trace, i, j)
    ensures trace[j + 1].summary == trace[j].summary && trace[j + 1].items == trace[j].items
    ensures var w, until := events[j].worker, trace[j].breaker.pauseUntilMs;
            && w < |trace[j + 1].pcs| && trace[j + 1].pcs[w] == Sleeping(trace[j].nextIndex, until)
            && until >= trace[i + 1].clock + c.breakerPauseMs
  {
    PauseIsLastTrip(c, loaded, trace, events, j);
    ClockGrows(c, loaded, trace, events, 0, j + 1);
    TakeStep(c, trace[j], events[j]);
  }

  lemma HeldIsUnfinished(c: Config, loaded: Items, trace: seq<State>, events: seq<Event>, k: nat, w: nat)
    requires Behavior(c, loaded, trace, events) && k < |trace| && w < |trace[k].pcs| && trace[k].pcs[w].HasIndex()
    ensures trace[k].pcs[w].index !in trace[k].history.finished
  {
    BehaviorInv(c, loaded, trace, events, k);
  }

  /** A worker that takes an entry during the pause of a trip does nothing else by that event, and is
      still suspended with it in every state before breakerPauseMs after the trip: no state check, no
      existence check, no attempt and no verdict on the entry. */
  lemma PauseHolds(c: Config, loaded: Items, trace: seq<State>, events: seq<Event>, i: nat, j: nat, k: nat)
    requires Behavior(c, loaded, trace, events) && 0 <= trace[0].clock
    requires j < |events| && TakesEntry(c, trace, j) && PauseLasts(c, trace, i, j)
    requires j < k < |trace| && trace[k].clock < trace[i + 1].clock + c.breakerPauseMs
    ensures trace[j + 1].summary == trace[j].summary && trace[j + 1].items == trace[j].items
    ensures var w := events[j].worker;
            && w < |trace[k].pcs| && trace[k].pcs[w].Sleeping? && trace[k].pcs[w].index == trace[j].nextIndex
            && trace[j].nextIndex !in trace[k].history.finished
  {
    HeldAtOnce(c, loaded, trace, events, i, j);
    var w := events[j].worker;
    StaysAsleep(c, loaded, trace, events, w, trace[j + 1].pcs[w], j + 1, k);
    HeldIsUnfinished(c, loaded, trace, events, k, w);
  }
}
