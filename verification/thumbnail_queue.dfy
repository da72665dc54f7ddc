/**
 The thumbnail queue (frontend/src/lib/thumbnail-queue.ts): at most 30 leases at a time; waiting
 requests are served last in, first out; a request can be cancelled while it waits.

 A lease is its index in the list of all leases granted so far, which holds the `released` flag of
 its closure.
*/
module ThumbnailQueue {
  import opened Wrappers

  const MAX_CONCURRENT := 30

  /** `grantedTo` and `cancelled` record the history: the request each lease answers (None when it was
      granted on the spot), and the requests cancelled while they waited. */
  datatype State = State(
    active: int,
    nextRequestId: nat,
    pending: seq<nat>,
    released: seq<bool>,
    grantedTo: seq<Option<nat>>,
    cancelled: set<nat>
  )

  datatype Event = Request | Cancel(id: nat) | Release(lease: nat)

  const INIT := State(0, 1, [], [], [], {})

  function Max(a: int, b: int): int {
    if a > b then a else b
  }

  /** A lease for the request, or for none. */
  function Grant(s: State, request: Option<nat>): State {
    s.(active := s.active + 1, released := s.released + [false], grantedTo := s.grantedTo + [request])
  }

  function Drain(s: State): State
    decreases |s.pending|
  {
    if s.active < MAX_CONCURRENT && |s.pending| > 0 then
      var last := |s.pending| - 1;
      Drain(Grant(s.(pending := s.pending[..last]), Some(s.pending[last])))
    else s
  }

  function IndexOf(ids: seq<nat>, id: nat): (i: nat)
    ensures i <= |ids|
    ensures i < |ids| ==> ids[i] == id
    ensures i == |ids| ==> id !in ids
  {
    if ids == [] || ids[0] == id then 0 else 1 + IndexOf(ids[1..], id)
  }

  predicate Enabled(s: State, e: Event) {
    e.Release? ==> e.lease < |s.released|
  }

  function Apply(s: State, e: Event): State
    requires Enabled(s, e)
  {
    match e
    case Request =>
      if s.active < MAX_CONCURRENT then Grant(s, None)
      else s.(pending := s.pending + [s.nextRequestId], nextRequestId := s.nextRequestId + 1)
    case Cancel(id) =>
      var i := IndexOf(s.pending, id);
      if i < |s.pending| then s.(pending := s.pending[..i] + s.pending[i + 1..], cancelled := s.cancelled + {id}) else s
    case Release(lease) =>
      if s.released[lease] then s
      else Drain(s.(released := s.released[lease := true], active := Max(0, s.active - 1)))
  }

  // ------------------------------------------------------------------- the module

  class Queue {
    var active: int
    var nextRequestId: nat
    var pending: seq<nat>
    var released: seq<bool>
    ghost var grantedTo: seq<Option<nat>>
    ghost var cancelled: set<nat>

    ghost function View(): State
      reads this
    {
      State(active, nextRequestId, pending, released, grantedTo, cancelled)
    }

    constructor ()
      ensures View() == INIT
    {
      active, nextRequestId, pending, released, grantedTo, cancelled := 0, 1, [], [], [], {};
    }

    /** createLease, after active++. */
    method CreateLease(ghost request: Option<nat>) returns (lease: nat)
      modifies this
      ensures View() == Grant(old(View()), request) && lease == |old(released)|
    {
      active := active + 1;
      lease := |released|;
      released, grantedTo := released + [false], grantedTo + [request];
    }

    method DrainQueue()
      modifies this
      ensures View() == Drain(old(View()))
    {
      while active < MAX_CONCURRENT && |pending| > 0
        invariant Drain(View()) == Drain(old(View()))
        decreases |pending|
      {
        ghost var before := View();
        var last := |pending| - 1;
        var request := pending[last];
        pending := pending[..last];
        var lease := CreateLease(Some(request));
        assert View() == Grant(before.(pending := before.pending[..last]), Some(request));
      }
    }

    /** requestSlot: a lease on the spot, or the id of a request that waits. */
    method RequestSlot() returns (lease: Option<nat>, id: nat)
      modifies this
      ensures View() == Apply(old(View()), Request)
      ensures lease.Some? <==> old(active) < 30
      ensures lease.Some? ==> lease.value == |old(released)|
      ensures lease.None? ==> id == old(nextRequestId)
    {
      if active < MAX_CONCURRENT {
        var granted := CreateLease(None);
        return Some(granted), 0;
      }
      id := nextRequestId;
      nextRequestId := nextRequestId + 1;
      pending := pending + [id];
      lease := None;
    }

    method CancelRequest(id: nat)
      modifies this
      ensures View() == Apply(old(View()), Cancel(id))
    {
      var index := IndexOf(pending, id);
      if index < |pending| {
        pending := pending[..index] + pending[index + 1..];
        cancelled := cancelled + {id};
      }
    }

    method ReleaseLease(lease: nat)
      requires lease < |released|
      modifies this
      ensures View() == Apply(old(View()), Release(lease))
    {
      if released[lease] {
        return;
      }
      released := released[lease := true];
      active := Max(0, active - 1);
      DrainQueue();
    }
  }

  // -------------------------------------------------------------------- invariants

  function Unreleased(released: seq<bool>): nat {
    if released == [] then 0
    else Unreleased(released[..|released| - 1]) + if released[|released| - 1] then 0 else 1
  }

  ghost predicate Increasing(ids: seq<nat>) {
    forall i, j :: 0 <= i < j < |ids| ==> ids[i] < ids[j]
  }

  ghost predicate Granted(s: State, id: nat) {
    Some(id) in s.grantedTo
  }

  ghost predicate GrantedOnce(s: State) {
    forall i, j :: 0 <= i < j < |s.grantedTo| && s.grantedTo[i].Some? ==> s.grantedTo[i] != s.grantedTo[j]
  }

  /** Every request made is in exactly one place: waiting, granted or cancelled. */
  ghost predicate Placed(s: State) {
    forall id: nat :: 1 <= id < s.nextRequestId <==> id in s.pending || Granted(s, id) || id in s.cancelled
  }

  ghost predicate OnePlace(s: State) {
    forall id: nat :: !(id in s.pending && Granted(s, id)) && !(id in s.pending && id in s.cancelled)
                 && !(Granted(s, id) && id in s.cancelled)
  }

  ghost predicate Ledger(s: State) {
    && |s.released| == |s.grantedTo|
    && s.nextRequestId >= 1
    && Increasing(s.pending)
    && GrantedOnce(s)
    && Placed(s)
    && OnePlace(s)
  }

  ghost predicate Inv(s: State) {
    && s.active == Unreleased(s.released) <= 30
    && (s.pending != [] ==> s.active == 30)
    && Ledger(s)
  }

  lemma {:induction false} ReleaseOne(released: seq<bool>, i: nat)
    requires i < |released| && !released[i]
    ensures Unreleased(released[i := true]) == Unreleased(released) - 1
  {
    var n := |released| - 1;
    if i < n {
      ReleaseOne(released[..n], i);
      assert released[i := true][..n] == released[..n][i := true];
    } else {
      assert released[i := true][..n] == released[..n];
    }
  }

  lemma UnreleasedSnoc(released: seq<bool>)
    ensures Unreleased(released + [false]) == Unreleased(released) + 1
  {
    assert (released + [false])[..|released|] == released;
  }

  lemma GrantLast(s: State)
    requires Ledger(s) && s.pending != []
    ensures var last := |s.pending| - 1;
            Ledger(Grant(s.(pending := s.pending[..last]), Some(s.pending[last])))
  {
    var last := |s.pending| - 1;
    var request := s.pending[last];
    var t := Grant(s.(pending := s.pending[..last]), Some(request));
    assert s.pending == t.pending + [request];
    assert forall id :: id in s.pending <==> id in t.pending || id == request;
    assert request !in t.pending;
    assert forall id :: Granted(t, id) <==> Granted(s, id) || id == request;
    assert !Granted(s, request) && request in s.pending;
  }

  lemma {:induction false} DrainKeeps(s: State)
    requires s.active == Unreleased(s.released) <= MAX_CONCURRENT && Ledger(s)
    ensures Inv(Drain(s))
    ensures s.released <= Drain(s).released && Drain(s).cancelled == s.cancelled
    decreases |s.pending|
  {
    if s.active < MAX_CONCURRENT && |s.pending| > 0 {
      var last := |s.pending| - 1;
      GrantLast(s);
      UnreleasedSnoc(s.released);
      DrainKeeps(Grant(s.(pending := s.pending[..last]), Some(s.pending[last])));
    }
  }

  lemma RequestKeeps(s: State)
    requires Inv(s)
    ensures Inv(Apply(s, Request))
  {
    var t := Apply(s, Request);
    if s.active < MAX_CONCURRENT {
      UnreleasedSnoc(s.released);
      assert forall id :: Granted(t, id) <==> Granted(s, id);
    } else {
      assert forall id :: id in t.pending <==> id in s.pending || id == s.nextRequestId;
      forall i | 0 <= i < |s.pending|
        ensures s.pending[i] < s.nextRequestId
      {
        assert s.pending[i] in s.pending;
      }
      assert !Granted(s, s.nextRequestId) && s.nextRequestId !in s.cancelled;
    }
  }

  lemma WithoutOne(ids: seq<nat>, i: nat)
    requires i < |ids| && Increasing(ids)
    ensures var rest := ids[..i] + ids[i + 1..];
            Increasing(rest) && forall x :: x in rest <==> x in ids && x != ids[i]
  {
    var rest := ids[..i] + ids[i + 1..];
    assert ids == ids[..i] + [ids[i]] + ids[i + 1..];
    forall j | 0 <= j < |rest|
      ensures rest[j] == ids[if j < i then j else j + 1]
    {
    }
  }

  lemma CancelKeeps(s: State, id: nat)
    requires Inv(s)
    ensures Inv(Apply(s, Cancel(id)))
  {
    var t, i := Apply(s, Cancel(id)), IndexOf(s.pending, id);
    if i < |s.pending| {
      WithoutOne(s.pending, i);
      assert forall x :: Granted(t, x) <==> Granted(s, x);
      assert !Granted(s, id) && id in s.pending;
    }
  }

  lemma ReleaseKeeps(s: State, lease: nat)
    requires Inv(s) && lease < |s.released|
    ensures Inv(Apply(s, Release(lease)))
  {
    if !s.released[lease] {
      ReleaseOne(s.released, lease);
      var t := s.(released := s.released[lease := true], active := Max(0, s.active - 1));
      assert forall x :: Granted(t, x) <==> Granted(s, x);
      DrainKeeps(t);
    }
  }

  lemma ApplyKeepsInv(s: State, e: Event)
    requires Inv(s) && Enabled(s, e)
    ensures Inv(Apply(s, e))
  {
    match e {
      case Request => RequestKeeps(s);
      case Cancel(id) => CancelKeeps(s, id);
      case Release(lease) => ReleaseKeeps(s, lease);
    }
  }

  // --------------------------------------------------------------- over all runs

  /** The events lead from one state to another. */
  ghost predicate Leads(from: State, events: seq<Event>, s: State)
    decreases |events|
  {
    if events == [] then s == from
    else
      var front, last := events[..|events| - 1], events[|events| - 1];
      exists before :: Leads(from, front, before) && Enabled(before, last) && s == Apply(before, last)
  }

  ghost predicate Reaches(s: State, events: seq<Event>) {
    Leads(INIT, events, s)
  }

  /** After any sequence of requests, cancellations and (repeated) releases: active is the number of
      unreleased leases, at most 30; requests wait only while it is 30; each request is waiting, granted
      once, or cancelled and never granted. */
  lemma {:induction false} QueueInvariant(s: State, events: seq<Event>)
    requires Reaches(s, events)
    ensures Inv(s)
    decreases |events|
  {
    if events != [] {
      var front, last := events[..|events| - 1], events[|events| - 1];
      var before :| Leads(INIT, front, before) && Enabled(before, last) && s == Apply(before, last);
      QueueInvariant(before, front);
      ApplyKeepsInv(before, last);
    }
  }

  lemma {:induction false} SomeUnreleased(released: seq<bool>, i: nat)
    requires i < |released| && !released[i]
    ensures Unreleased(released) >= 1
  {
    if i < |released| - 1 {
      SomeUnreleased(released[..|released| - 1], i);
    }
  }

  /** The clamp at 0 never acts. */
  lemma ClampNeverFires(s: State, lease: nat)
    requires Inv(s) && lease < |s.released| && !s.released[lease]
    ensures Max(0, s.active - 1) == s.active - 1
  {
    SomeUnreleased(s.released, lease);
  }

  /** The first release of a lease hands its slot to the latest waiting request, if any waits. */
  lemma ReleaseServesLatest(s: State, lease: nat)
    requires Inv(s) && lease < |s.released| && !s.released[lease]
    ensures var t := Apply(s, Release(lease));
            && s.released[lease := true] <= t.released
            && if s.pending == [] then t.active == s.active - 1 && t.grantedTo == s.grantedTo
               else
                 var last := |s.pending| - 1;
                 && t.pending == s.pending[..last] && t.active == 30
                 && t.grantedTo == s.grantedTo + [Some(s.pending[last])]
                 && forall id :: id in s.pending ==> id <= s.pending[last]
  {
    ClampNeverFires(s, lease);
    var freed := s.(released := s.released[lease := true], active := s.active - 1);
    if s.pending != [] {
      var last := |s.pending| - 1;
      var served := Grant(freed.(pending := s.pending[..last]), Some(s.pending[last]));
      assert Drain(served) == served && Drain(freed) == served;
    }
  }

  /** Releasing again changes nothing. */
  lemma ReleaseIdempotent(s: State, lease: nat)
    requires Inv(s) && lease < |s.released|
    ensures Enabled(Apply(s, Release(lease)), Release(lease))
    ensures Apply(Apply(s, Release(lease)), Release(lease)) == Apply(s, Release(lease))
  {
    if !s.released[lease] {
      ReleaseOne(s.released, lease);
      var t := s.(released := s.released[lease := true], active := Max(0, s.active - 1));
      assert forall x :: Granted(t, x) <==> Granted(s, x);
      DrainKeeps(t);
      assert t.released[lease] && t.released <= Drain(t).released;
    }
  }

  lemma CancelledStays(s: State, e: Event, id: nat)
    requires Inv(s) && Enabled(s, e) && id in s.cancelled
    ensures id in Apply(s, e).cancelled
  {
    if e.Release? && !s.released[e.lease] {
      ReleaseOne(s.released, e.lease);
      var t := s.(released := s.released[e.lease := true], active := Max(0, s.active - 1));
      assert forall x :: Granted(t, x) <==> Granted(s, x);
      DrainKeeps(t);
    }
  }

  /** A request cancelled while it waited is never granted, whatever happens afterwards. */
  lemma {:induction false} CancelledNeverGranted(s: State, events: seq<Event>, t: State, id: nat)
    requires Inv(s) && Leads(s, events, t) && id in s.cancelled
    ensures Inv(t) && id in t.cancelled && !Granted(t, id)
    decreases |events|
  {
    if events != [] {
      var front, last := events[..|events| - 1], events[|events| - 1];
      var before :| Leads(s, front, before) && Enabled(before, last) && t == Apply(before, last);
      CancelledNeverGranted(s, front, before, id);
      ApplyKeepsInv(before, last);
      CancelledStays(before, last, id);
    }
    assert id in t.cancelled;
  }

  /** Cancelling a request that waits puts it there, and takes nothing else out of the queue. */
  lemma CancelTakesOut(s: State, id: nat)
    requires Inv(s) && id in s.pending
    ensures var t := Apply(s, Cancel(id));
            && id in t.cancelled && (forall x :: x in t.pending <==> x in s.pending && x != id)
            && Increasing(t.pending) && t.active == s.active && t.grantedTo == s.grantedTo
  {
    WithoutOne(s.pending, IndexOf(s.pending, id));
  }
}
