/**
 uploadManifest itself: the closure variables of the original as fields, and the code between two
 awaits of a worker as one method each, statement by statement. Every method is proved to have
 exactly the effect that UploadPool.Apply gives to its event, so the theorems about schedules in
 UploadPool hold of this code.
*/
module UploadEngine {
  import opened UploadPool
  import opened Wrappers

  class Upload {
    const c: Config
    var nextIndex: nat
    var stopScheduling: bool
    var pcs: seq<Pc>
    var items: Items
    var summary: Summary
    var recentTransientTimestamps: seq<int>
    var pauseUntilMs: int
    var inFlightBytes: map<string, nat>
    var inFlightBytesTotal: int
    var clock: int
    ghost var history: History

    ghost function View(): State
      reads this
    {
      State(nextIndex, stopScheduling, pcs, items, summary, Breaker(recentTransientTimestamps, pauseUntilMs),
            inFlightBytes, inFlightBytesTotal, clock, history)
    }

    constructor (c: Config, loaded: Items, now: int)
      ensures this.c == c && View() == Init(c, loaded, now)
    {
      this.c := c;
      nextIndex, stopScheduling := 0, false;
      pcs := seq(c.workerCount, _ => NotStarted);
      items := loaded;
      summary := Summary(0, 0, 0, 0, 0, 0, 0, 0, 0);
      recentTransientTimestamps, pauseUntilMs := [], 0;
      inFlightBytes, inFlightBytesTotal := map[], 0;
      clock := now;
      history := History({}, 0, [], 0, 0);
    }

    method SetInFlightBytes(key: string, bytes: nat)
      modifies this`inFlightBytes, this`inFlightBytesTotal
      ensures inFlightBytes == old(inFlightBytes)[key := bytes]
      ensures inFlightBytesTotal == old(inFlightBytesTotal) + bytes - ValueOr0(old(inFlightBytes), key)
    {
      var prev := if key in inFlightBytes then inFlightBytes[key] else 0;
      inFlightBytesTotal := inFlightBytesTotal + bytes - prev;
      inFlightBytes := inFlightBytes[key := bytes];
    }

    method DeleteInFlightBytes(key: string)
      modifies this`inFlightBytes, this`inFlightBytesTotal
      ensures inFlightBytes == old(inFlightBytes) - {key}
      ensures inFlightBytesTotal == old(inFlightBytesTotal) - ValueOr0(old(inFlightBytes), key)
    {
      if key !in inFlightBytes {
        assert inFlightBytes - {key} == inFlightBytes;
        return;
      }
      var prev := inFlightBytes[key];
      inFlightBytesTotal := inFlightBytesTotal - prev;
      inFlightBytes := inFlightBytes - {key};
    }

    /** An assignment to the upload state, followed by checkpointManager.markDirty(). */
    method Record(key: string, item: Item)
      modifies this`items, this`history
      ensures items == old(items)[key := item]
      ensures history == old(history).(writes := old(history.writes) + 1)
    {
      items := items[key := item];
      history := history.(writes := history.writes + 1);
    }

    /** processEntry returns to its worker. */
    method Return(w: nat, index: nat)
      requires w < |pcs|
      modifies this`pcs, this`history
      ensures pcs == old(pcs)[w := Returned]
      ensures history == old(history).(finished := old(history.finished) + {index})
    {
      pcs := pcs[w := Returned];
      history := history.(finished := history.finished + {index});
    }

    /** The while loop of a worker, from its start or from a returned entry to the next await. */
    method Resume(w: nat, now: int)
      requires Enabled(c, View(), UploadPool.Resume(w, now))
      modifies this
      ensures View() == Apply(c, old(View()), UploadPool.Resume(w, now))
    {
      clock := now;
      if pcs[w].Returned? && c.maxFailures.Some? && summary.failed >= c.maxFailures.value {
        stopScheduling := true;
      }
      if stopScheduling {
        pcs := pcs[w := Done];
        return;
      }
      var index := nextIndex;
      nextIndex := nextIndex + 1;
      if index >= |c.entries| {
        pcs := pcs[w := Done];
        return;
      }
      if pauseUntilMs > 0 {
        var remaining := pauseUntilMs - now;
        if remaining > 0 {
          pcs := pcs[w := Sleeping(index, now + remaining)];
          return;
        }
      }
      ConsultState(w, index);
    }

    method Wake(w: nat, now: int)
      requires Enabled(c, View(), UploadPool.Wake(w, now))
      modifies this
      ensures View() == Apply(c, old(View()), UploadPool.Wake(w, now))
    {
      clock := now;
      ConsultState(w, pcs[w].index);
    }

    /** The checks of the upload state that open processEntry. */
    method ConsultState(w: nat, index: nat)
      requires w < |pcs| && index < |c.entries|
      modifies this`pcs, this`summary, this`history
      ensures var d := CheckState(c, items, index, false);
              && pcs == old(pcs)[w := d.next]
              && summary == SummaryAfter(old(summary), d)
              && history == old(history).(finished :=
                   if d.verdict.Some? then old(history.finished) + {index} else old(history.finished))
    {
      var key := c.entries[index].key;
      if key in items && items[key].Failed? && items[key].kind.Permanent? {
        summary := summary.(failed := summary.failed + 1);
        summary := summary.(permanentFailures := summary.permanentFailures + 1);
        summary := summary.(processed := summary.processed + 1);
        Return(w, index);
        return;
      }
      if key in items && items[key].Uploaded? {
        summary := summary.(alreadyUploaded := summary.alreadyUploaded + 1);
        summary := summary.(skipped := summary.skipped + 1);
        summary := summary.(processed := summary.processed + 1);
        Return(w, index);
        return;
      }
      if key in items && items[key].Skipped? {
        summary := summary.(alreadySkipped := summary.alreadySkipped + 1);
        summary := summary.(skipped := summary.skipped + 1);
        summary := summary.(processed := summary.processed + 1);
        Return(w, index);
        return;
      }
      pcs := pcs[w := Checking(index, if key in items then items[key].attempts else 0)];
    }

    method SkipExisting(w: nat, index: nat, prior: nat)
      requires w < |pcs| && index < |c.entries|
      modifies this`items, this`summary, this`pcs, this`history
      ensures items == old(items)[c.entries[index].key := Skipped(prior)]
      ensures summary == ExistsInDestination(prior).Count(old(summary))
      ensures pcs == old(pcs)[w := Returned]
      ensures history == old(history).(finished := old(history.finished) + {index}, writes := old(history.writes) + 1)
    {
      summary := summary.(alreadyExists := summary.alreadyExists + 1);
      Record(c.entries[index].key, Skipped(prior));
      summary := summary.(skipped := summary.skipped + 1);
      summary := summary.(processed := summary.processed + 1);
      Return(w, index);
    }

    method FailMissing(w: nat, index: nat)
      requires w < |pcs| && index < |c.entries|
      modifies this`items, this`summary, this`pcs, this`history
      ensures items == old(items)[c.entries[index].key := Failed(1, Permanent)]
      ensures summary == SourceMissing.Count(old(summary))
      ensures pcs == old(pcs)[w := Returned]
      ensures history == old(history).(finished := old(history.finished) + {index}, writes := old(history.writes) + 1)
    {
      Record(c.entries[index].key, Failed(1, Permanent));
      summary := summary.(failed := summary.failed + 1);
      summary := summary.(permanentFailures := summary.permanentFailures + 1);
      summary := summary.(processed := summary.processed + 1);
      Return(w, index);
    }

    /** After the existence check; `found` is false when the check itself failed. */
    method Checked(w: nat, found: bool, sourcePresent: bool)
      requires Enabled(c, View(), UploadPool.Checked(w, found, sourcePresent))
      modifies this
      ensures View() == Apply(c, old(View()), UploadPool.Checked(w, found, sourcePresent))
    {
      var index, prior := pcs[w].index, pcs[w].prior;
      var key := c.entries[index].key;
      if found {
        SkipExisting(w, index, prior);
        return;
      }
      if c.dryRun {
        summary := summary.(uploaded := summary.uploaded + 1, processed := summary.processed + 1);
        Return(w, index);
        return;
      }
      if !sourcePresent {
        FailMissing(w, index);
        return;
      }
      SetInFlightBytes(key, 0);
      pcs := pcs[w := Uploading(index, 1)];
    }

    method Progress(w: nat, bytes: nat)
      requires Enabled(c, View(), UploadPool.Progress(w, bytes))
      modifies this
      ensures View() == Apply(c, old(View()), UploadPool.Progress(w, bytes))
    {
      SetInFlightBytes(c.entries[pcs[w].index].key, bytes);
      assert pcs == pcs[w := pcs[w]];
    }

    method UploadOk(w: nat)
      requires Enabled(c, View(), UploadPool.UploadOk(w))
      modifies this
      ensures View() == Apply(c, old(View()), UploadPool.UploadOk(w))
    {
      var index, attempt := pcs[w].index, pcs[w].attempt;
      var key := c.entries[index].key;
      DeleteInFlightBytes(key);
      Record(key, Uploaded(attempt));
      summary := summary.(uploaded := summary.uploaded + 1, processed := summary.processed + 1);
      Return(w, index);
    }

    /** The transient branch of a terminal failure: prune the sliding window, push, maybe trip. */
    method EngageBreaker(now: int)
      modifies this`recentTransientTimestamps, this`pauseUntilMs, this`history
      ensures var tripped := Trips(c, old(recentTransientTimestamps), now);
              && (tripped ==> recentTransientTimestamps == [] && pauseUntilMs == now + c.breakerPauseMs)
              && (!tripped ==>
                    && recentTransientTimestamps
                       == Young(old(recentTransientTimestamps), now, c.breakerWindowMs) + [now]
                    && pauseUntilMs == old(pauseUntilMs))
              && history == old(history).(
                   sinceTrip := if tripped then [] else old(history.sinceTrip) + [now],
                   trips := if tripped then old(history.trips) + 1 else old(history.trips))
    {
      recentTransientTimestamps := FilterYoung(recentTransientTimestamps, now, c.breakerWindowMs);
      recentTransientTimestamps := recentTransientTimestamps + [now];
      history := history.(sinceTrip := history.sinceTrip + [now]);
      if |recentTransientTimestamps| >= c.breakerThreshold {
        pauseUntilMs := now + c.breakerPauseMs;
        recentTransientTimestamps := [];
        history := history.(sinceTrip := [], trips := history.trips + 1);
      }
    }

    /** The part of the catch block that records a terminal failure. */
    method RecordFailure(key: string, attempt: nat, nonRetryable: bool, now: int)
      modifies this`items, this`summary, this`recentTransientTimestamps, this`pauseUntilMs, this`history
      ensures var v := AttemptFailed(attempt, if nonRetryable then Permanent else Transient);
              && items == old(items)[key := v.Written().value]
              && summary == v.Count(old(summary))
              && history.finished == old(history.finished)
              && history.early == old(history.early)
              && history.writes == old(history.writes) + 1
      ensures var tripped := !nonRetryable && Trips(c, old(recentTransientTimestamps), now);
              && (tripped ==> recentTransientTimestamps == [] && pauseUntilMs == now + c.breakerPauseMs)
              && (!tripped && !nonRetryable ==>
                    recentTransientTimestamps == Young(old(recentTransientTimestamps), now, c.breakerWindowMs) + [now])
              && (nonRetryable ==> recentTransientTimestamps == old(recentTransientTimestamps))
              && (!tripped ==> pauseUntilMs == old(pauseUntilMs))
              && history.sinceTrip == (if tripped then [] else if nonRetryable then old(history.sinceTrip)
                                       else old(history.sinceTrip) + [now])
              && history.trips == if tripped then old(history.trips) + 1 else old(history.trips)
    {
      Record(key, Failed(attempt, if nonRetryable then Permanent else Transient));
      summary := summary.(failed := summary.failed + 1);
      if nonRetryable {
        summary := summary.(permanentFailures := summary.permanentFailures + 1);
      } else {
        summary := summary.(transientFailures := summary.transientFailures + 1);
        EngageBreaker(now);
      }
      summary := summary.(processed := summary.processed + 1);
    }

    method UploadFailed(w: nat, nonRetryable: bool, now: int)
      requires Enabled(c, View(), UploadPool.UploadFailed(w, nonRetryable, now))
      modifies this
      ensures View() == Apply(c, old(View()), UploadPool.UploadFailed(w, nonRetryable, now))
    {
      var index, attempt := pcs[w].index, pcs[w].attempt;
      if !nonRetryable && attempt <= c.retryCount {
        clock := now;
        DeleteInFlightBytes(c.entries[index].key);
        pcs := pcs[w := Backoff(index, attempt)];
      } else {
        FailForGood(w, nonRetryable, now);
      }
    }

    method FailForGood(w: nat, nonRetryable: bool, now: int)
      requires Enabled(c, View(), UploadPool.UploadFailed(w, nonRetryable, now))
      requires nonRetryable || pcs[w].attempt > c.retryCount
      modifies this
      ensures View() == Apply(c, old(View()), UploadPool.UploadFailed(w, nonRetryable, now))
    {
      ghost var s, e := View(), UploadPool.UploadFailed(w, nonRetryable, now);
      clock := now;
      var index, attempt := pcs[w].index, pcs[w].attempt;
      var key := c.entries[index].key;
      DeleteInFlightBytes(key);
      RecordFailure(key, attempt, nonRetryable, now);
      NextAttempt(w, index, attempt);
      TerminalEffect(c, s, w, nonRetryable, now, View());
    }

    /** The source has neither break nor return after a terminal failure: the for loop tests
        attempt + 1 and starts over unless this was the last attempt. */
    method NextAttempt(w: nat, index: nat, attempt: nat)
      requires w < |pcs| && index < |c.entries|
      modifies this`inFlightBytes, this`inFlightBytesTotal, this`pcs, this`stopScheduling, this`history
      ensures attempt <= c.retryCount ==>
                && pcs == old(pcs)[w := Uploading(index, attempt + 1)]
                && inFlightBytes == old(inFlightBytes)[c.entries[index].key := 0]
                && inFlightBytesTotal == old(inFlightBytesTotal) - ValueOr0(old(inFlightBytes), c.entries[index].key)
                && stopScheduling == old(stopScheduling)
                && history == old(history).(early := old(history.early) + 1)
      ensures attempt > c.retryCount ==>
                && pcs == old(pcs)[w := Returned]
                && inFlightBytes == old(inFlightBytes) && inFlightBytesTotal == old(inFlightBytesTotal)
                && stopScheduling == (old(stopScheduling) || c.LimitHit(summary.failed))
                && history == old(history).(finished := old(history.finished) + {index})
    {
      if attempt + 1 <= c.retryCount + 1 {
        history := history.(early := history.early + 1);
        SetInFlightBytes(c.entries[index].key, 0);
        pcs := pcs[w := Uploading(index, attempt + 1)];
        return;
      }
      if c.maxFailures.Some? && summary.failed >= c.maxFailures.value {
        stopScheduling := true;
      }
      Return(w, index);
    }

    method BackoffOver(w: nat)
      requires Enabled(c, View(), UploadPool.BackoffOver(w))
      modifies this
      ensures View() == Apply(c, old(View()), UploadPool.BackoffOver(w))
    {
      var index, attempt := pcs[w].index, pcs[w].attempt;
      SetInFlightBytes(c.entries[index].key, 0);
      pcs := pcs[w := Uploading(index, attempt + 1)];
    }
  }

  /** Put together what RecordFailure and NextAttempt do, variable by variable. */
  lemma TerminalEffect(c: Config, s: State, w: nat, nonRetryable: bool, now: int, t: State)
    requires Enabled(c, s, UploadPool.UploadFailed(w, nonRetryable, now))
    requires nonRetryable || s.pcs[w].attempt > c.retryCount
    requires var key, attempt := c.entries[s.pcs[w].index].key, s.pcs[w].attempt;
             var v := AttemptFailed(attempt, if nonRetryable then Permanent else Transient);
             var again, tripped := attempt <= c.retryCount, !nonRetryable && Trips(c, s.breaker.recent, now);
             && t.nextIndex == s.nextIndex && t.clock == now
             && t.items == s.items[key := v.Written().value]
             && t.summary == v.Count(s.summary)
             && t.pcs == s.pcs[w := if again then Uploading(s.pcs[w].index, attempt + 1) else Returned]
             && t.stopScheduling == (s.stopScheduling || (!again && c.LimitHit(t.summary.failed)))
             && t.inFlight == (if again then (s.inFlight - {key})[key := 0] else s.inFlight - {key})
             && t.inFlightTotal == s.inFlightTotal - ValueOr0(s.inFlight, key)
             && t.breaker == (if tripped then Breaker([], now + c.breakerPauseMs)
                              else if nonRetryable then s.breaker
                              else s.breaker.(recent := Young(s.breaker.recent, now, c.breakerWindowMs) + [now]))
             && t.history == History(
                  if again then s.history.finished else s.history.finished + {s.pcs[w].index},
                  if again then s.history.early + 1 else s.history.early,
                  if tripped then [] else if nonRetryable then s.history.sinceTrip else s.history.sinceTrip + [now],
                  if tripped then s.history.trips + 1 else s.history.trips,
                  s.history.writes + 1)
    ensures t == Apply(c, s, UploadPool.UploadFailed(w, nonRetryable, now))
  {
    var d := Decide(c, s, UploadPool.UploadFailed(w, nonRetryable, now));
    var key := c.entries[s.pcs[w].index].key;
    assert (s.inFlight - {key})[key := 0] == s.inFlight[key := 0];
  }

  /** The filter call of the breaker: a fresh list of the timestamps still in the window, in order. */
  method FilterYoung(log: seq<int>, now: int, window: nat) returns (kept: seq<int>)
    ensures kept == Young(log, now, window)
  {
    kept := [];
    for i := 0 to |log|
      invariant kept == Young(log[..i], now, window)
    {
      YoungAppend(log[..i], log[i], now, window);
      assert log[..i + 1] == log[..i] + [log[i]];
      if now - log[i] < window {
        kept := kept + [log[i]];
      }
    }
    assert log[..|log|] == log;
  }
}
