/**
 Settling the archive status file after interrupted or non-incremental runs
 (reconcileArchiveEntries, src/takeout/incremental.ts). A record that is dropped makes the next run
 take its archive up again; one that is completed makes it skip the archive.
*/
module ArchiveReconcile {
  import opened Wrappers

  datatype Status = Pending | Extracting | Uploading | Completed | Failed

  datatype ArchiveItem = ArchiveItem(
    status: Status,
    entryCount: nat,
    uploadedCount: nat,
    skippedCount: nat,
    failedCount: nat,
    error: Option<string>,
    completedAt: Option<string>
  )

  type Archives = map<string, ArchiveItem>

  predicate Waiting(item: ArchiveItem) {
    item.status.Extracting? || item.status.Pending?
  }

  /** The test all branches share. */
  predicate AllHandled(item: ArchiveItem) {
    item.failedCount == 0 && item.uploadedCount + item.skippedCount >= item.entryCount && item.entryCount > 0
  }

  function Finished(item: ArchiveItem, status: Status, now: string): ArchiveItem {
    item.(status := status, completedAt := if item.completedAt.Some? then item.completedAt else Some(now))
  }

  /** What becomes of a record; None is dropped. */
  function Settled(item: ArchiveItem, now: string): Option<ArchiveItem> {
    if Waiting(item) then
      if item.entryCount == 0 && item.uploadedCount == 0 then None
      else if AllHandled(item) then Some(Finished(item, Completed, now).(error := None))
      else Some(Finished(item, Failed, now).(error := Some("Interrupted during " + StatusText(item.status))))
    else if item.status.Uploading? then
      if AllHandled(item) then Some(Finished(item, Completed, now))
      else Some(Finished(item, Failed, now).(error := Some("Interrupted during upload")))
    else if item.status.Failed? && AllHandled(item) then Some(Finished(item, Completed, now).(error := None))
    else Some(item)
  }

  function StatusText(status: Status): string {
    match status
    case Pending => "pending"
    case Extracting => "extracting"
    case Uploading => "uploading"
    case Completed => "completed"
    case Failed => "failed"
  }

  /** The records a pass counts: those in an unfinished status, and failed ones that are all handled. */
  predicate Stale(item: ArchiveItem) {
    Waiting(item) || item.status.Uploading? || (item.status.Failed? && AllHandled(item))
  }

  ghost function StaleNames(archives: Archives): set<string> {
    set name | name in archives && Stale(archives[name])
  }

  ghost predicate IsReconciled(archives: Archives, next: Archives, now: string) {
    && (forall name :: name in next <==> name in archives && Settled(archives[name], now).Some?)
    && (forall name :: name in next ==> Settled(archives[name], now) == Some(next[name]))
  }

  /** The branches of the loop, in the source's order. */
  method SettleOne(item: ArchiveItem, now: string) returns (kept: Option<ArchiveItem>, counted: bool)
    ensures kept == Settled(item, now) && counted == Stale(item)
  {
    var completedAt := if item.completedAt.Some? then item.completedAt else Some(now);
    if item.status.Extracting? || item.status.Pending? {
      if item.entryCount == 0 && item.uploadedCount == 0 {
        return None, true;
      }
      if AllHandled(item) {
        return Some(item.(status := Completed, error := None, completedAt := completedAt)), true;
      }
      var error := "Interrupted during " + StatusText(item.status);
      return Some(item.(status := Failed, completedAt := completedAt, error := Some(error))), true;
    }
    if item.status.Uploading? {
      if AllHandled(item) {
        return Some(item.(status := Completed, completedAt := completedAt)), true;
      }
      return Some(item.(status := Failed, completedAt := completedAt, error := Some("Interrupted during upload"))),
             true;
    }
    if item.status.Failed? && AllHandled(item) {
      return Some(item.(status := Completed, error := None, completedAt := completedAt)), true;
    }
    return Some(item), false;
  }

  /** reconcileArchiveEntries. */
  method ReconcileArchiveEntries(archives: Archives, now: string) returns (next: Archives, reconciled: nat)
    ensures IsReconciled(archives, next, now)
    ensures reconciled == |StaleNames(archives)|
  {
    next, reconciled := map[], 0;
    var left := archives.Keys;
    ghost var stale: set<string> := {};
    while left != {}
      invariant left <= archives.Keys
      invariant forall name :: name in next <==> name in archives.Keys - left && Settled(archives[name], now).Some?
      invariant forall name :: name in next ==> Settled(archives[name], now) == Some(next[name])
      invariant reconciled == |stale| && stale * left == {}
      invariant stale == set name | name in archives && Stale(archives[name]) && name !in left
      decreases left
    {
      var name :| name in left;
      left := left - {name};
      var kept, counted := SettleOne(archives[name], now);
      if kept.Some? {
        next := next[name := kept.value];
      }
      if counted {
        reconciled, stale := reconciled + 1, stale + {name};
      }
    }
    assert stale == StaleNames(archives);
  }

  /** A record is dropped exactly when it waits and nothing was ever counted for it. A kept one is
      completed exactly when it was, or it has entries, all were uploaded or skipped and none failed;
      otherwise it is failed. Its counts are untouched. */
  lemma CompletedExactly(item: ArchiveItem, now: string)
    ensures var handled := item.failedCount == 0 && item.uploadedCount + item.skippedCount >= item.entryCount >= 1;
            var waiting := item.status in {Pending, Extracting};
            match Settled(item, now)
            case None => waiting && item.entryCount == item.uploadedCount == 0
            case Some(r) =>
              && !(waiting && item.entryCount == item.uploadedCount == 0)
              && (r.status.Completed? <==> item.status.Completed? || handled)
              && (r.status.Completed? || r.status.Failed?)
              && (r.entryCount, r.uploadedCount, r.skippedCount, r.failedCount)
                 == (item.entryCount, item.uploadedCount, item.skippedCount, item.failedCount)
  {
  }

  /** The texts: a record that already had its final status keeps them; one that becomes final keeps its
      time of completion, or takes that of the pass. An interrupted one names what was interrupted; one
      that is completed after all has no error, unless it was uploading. */
  lemma SettledTexts(item: ArchiveItem, now: string)
    requires Settled(item, now).Some?
    ensures var r := Settled(item, now).value;
            && (r.status == item.status ==> r == item)
            && (r.status != item.status ==>
                  && r.completedAt == Some(if item.completedAt.Some? then item.completedAt.value else now)
                  && (r.status.Failed? ==>
                        r.error == Some(match item.status
                                        case Pending => "Interrupted during pending"
                                        case Extracting => "Interrupted during extracting"
                                        case _ => "Interrupted during upload"))
                  && (r.status.Completed? ==> r.error == if item.status.Uploading? then item.error else None))
  {
    assert "Interrupted during " + "pending" == "Interrupted during pending";
    assert "Interrupted during " + "extracting" == "Interrupted during extracting";
  }

  /** What a pass counts: every record it drops or changes. */
  lemma StaleExactly(item: ArchiveItem, now: string)
    ensures Stale(item) <==> Settled(item, now) != Some(item)
  {
  }

  /** A settled record is stable. */
  lemma SettledStays(item: ArchiveItem, now: string, later: string)
    requires Settled(item, now).Some?
    ensures !Stale(Settled(item, now).value)
    ensures Settled(Settled(item, now).value, later) == Settled(item, now)
  {
  }

  /** A second pass, at any time, changes and counts nothing. */
  lemma ReconcileIdempotent(archives: Archives, next: Archives, again: Archives, now: string, later: string)
    requires IsReconciled(archives, next, now) && IsReconciled(next, again, later)
    ensures again == next && StaleNames(next) == {}
  {
    forall name | name in next
      ensures !Stale(next[name]) && Settled(next[name], later) == Some(next[name])
    {
      SettledStays(archives[name], now, later);
    }
  }
}
